/** The calendar tool offered to the language model: the function-call schema it advertises, whose
    description carries today's date, and the canned week schedule it answers with. The clock
    is a parameter: `today` is the date the schema is built on. */
module MsGraphTool {
  import opened Wrappers
  import opened Strings

  /** The JSON values the schema is made of; an object keeps its keys in insertion order. */
  datatype Json =
    | JString(str: string)
    | JArray(items: seq<Json>)
    | JObject(fields: seq<(string, Json)>)

  /** The value stored under `key` in an object's fields (the first, should a key repeat). */
  function Lookup(fields: seq<(string, Json)>, key: string): (r: Option<Json>)
    ensures r.Some? ==> (key, r.value) in fields
    ensures r.None? <==> forall i :: 0 <= i < |fields| ==> fields[i].0 != key
  {
    if fields == [] then None
    else if fields[0].0 == key then Some(fields[0].1)
    else
      assert fields == [fields[0]] + fields[1..];
      Lookup(fields[1..], key)
  }

  /** The value reached from `j` by following `path`, one object key at a time. */
  function At(j: Json, path: seq<string>): Option<Json>
  {
    if path == [] then Some(j)
    else if !j.JObject? then None
    else match Lookup(j.fields, path[0])
      case None => None
      case Some(child) => At(child, path[1..])
  }

  /** Following a path through the `i`-th field of an object whose keys before it differ. */
  lemma AtKey(j: Json, i: nat, rest: seq<string>)
    requires j.JObject? && i < |j.fields|
    requires forall k :: 0 <= k < i ==> j.fields[k].0 != j.fields[i].0
    ensures At(j, [j.fields[i].0] + rest) == At(j.fields[i].1, rest)
  {
    LookupAt(j.fields, i);
    assert ([j.fields[i].0] + rest)[1..] == rest;
  }

  lemma {:induction false} LookupAt(fields: seq<(string, Json)>, i: nat)
    requires i < |fields|
    requires forall k :: 0 <= k < i ==> fields[k].0 != fields[i].0
    ensures Lookup(fields, fields[i].0) == Some(fields[i].1)
  {
    if i > 0 {
      LookupAt(fields[1..], i - 1);
    }
  }

  function Keys(fields: seq<(string, Json)>): seq<string>
  {
    seq(|fields|, i requires 0 <= i < |fields| => fields[i].0)
  }

  /** A calendar date. */
  datatype Date = Date(year: int, month: int, day: int)

  predicate IsLeapYear(y: int)
  {
    y % 4 == 0 && (y % 100 != 0 || y % 400 == 0)
  }

  function DaysInMonth(y: int, m: int): int
    requires 1 <= m <= 12
  {
    if m == 2 then (if IsLeapYear(y) then 29 else 28)
    else if m == 4 || m == 6 || m == 9 || m == 11 then 30
    else 31
  }

  /** The dates the clock can produce: years 1 to 9999 of the Gregorian calendar. */
  predicate ValidDate(d: Date)
  {
    && 1 <= d.year <= 9999
    && 1 <= d.month <= 12
    && 1 <= d.day <= DaysInMonth(d.year, d.month)
  }

  predicate IsDigit(c: char)
  {
    '0' as int <= c as int <= '9' as int
  }

  function Pow10(n: nat): (r: nat)
    ensures r >= 1
  {
    if n == 0 then 1 else 10 * Pow10(n - 1)
  }

  /** `n` in decimal, zero-padded to exactly `width` digits. */
  function Pad(n: nat, width: nat): (r: string)
    requires n < Pow10(width)
    ensures |r| == width
    ensures forall k :: 0 <= k < |r| ==> IsDigit(r[k])
  {
    if width == 0 then ""
    else Pad(n / 10, width - 1) + [('0' as int + n % 10) as char]
  }

  /** The number a string of decimal digits spells. */
  function DigitsValue(s: string): nat
    requires forall k :: 0 <= k < |s| ==> IsDigit(s[k])
  {
    if s == [] then 0
    else
      assert IsDigit(s[|s| - 1]);
      DigitsValue(s[..|s| - 1]) * 10 + (s[|s| - 1] as int - '0' as int)
  }

  /** Reading back a padded number gives the number. */
  lemma {:induction false} DigitsValuePad(n: nat, width: nat)
    requires n < Pow10(width)
    ensures DigitsValue(Pad(n, width)) == n
  {
    if width > 0 {
      var s := Pad(n, width);
      assert s[..|s| - 1] == Pad(n / 10, width - 1);
      DigitsValuePad(n / 10, width - 1);
    }
  }

  /** `strftime("%Y-%m-%d")`: year, month and day, zero-padded to four, two and two digits. */
  function FormatDate(d: Date): (r: string)
    requires ValidDate(d)
    ensures |r| == 10 && r[4] == '-' && r[7] == '-'
    ensures forall k :: 0 <= k < 10 && k != 4 && k != 7 ==> IsDigit(r[k])
  {
    Pad(d.year, 4) + "-" + Pad(d.month, 2) + "-" + Pad(d.day, 2)
  }

  /** Reads a `YYYY-MM-DD` string back into a date. */
  function ParseDate(s: string): Option<Date>
  {
    if |s| == 10 && s[4] == '-' && s[7] == '-'
       && forall k :: 0 <= k < 10 && k != 4 && k != 7 ==> IsDigit(s[k])
    then Some(Date(DigitsValue(s[..4]), DigitsValue(s[5..7]), DigitsValue(s[8..])))
    else None
  }

  /** The formatted date is exactly the date: reading it back gives it again, so no two dates
      are written alike. */
  lemma FormatDateRoundTrip(d: Date)
    requires ValidDate(d)
    ensures ParseDate(FormatDate(d)) == Some(d)
  {
    var s := FormatDate(d);
    assert s[..4] == Pad(d.year, 4);
    assert s[5..7] == Pad(d.month, 2);
    assert s[8..] == Pad(d.day, 2);
    DigitsValuePad(d.year, 4);
    DigitsValuePad(d.month, 2);
    DigitsValuePad(d.day, 2);
  }

  const ToolName: string := "microsoft_graph"

  const StartTimeDescription: string := "The start time of this work week (Monday morning 9am)"
  const EndTimeDescription: string := "The end time of this work week (Friday afternoon 5pm)"

  const WeekSchedule: string :=
    "9am: Meeting with Engineering Manager\n10am: Meeting with Assistant\n"
    + "11am: Meeting with Marketing Manager\n12pm: Lunch\n1pm: Meeting with Sales Manager\n"
    + "2pm: Meeting with HR Manager\n3pm: Meeting with Finance Manager\n"
    + "4pm: Meeting with CEO Assistant\n5pm: End of day\n"

  function Description(today: Date): (r: string)
    requires ValidDate(today)
    ensures IsInfix(FormatDate(today), r)
  {
    var before := "Get the schedule for CEO for this week. Today is ";
    InfixMiddle(before, FormatDate(today), ".");
    before + FormatDate(today) + "."
  }

  function StringProperty(description: string): Json
  {
    JObject([("type", JString("string")), ("description", JString(description))])
  }

  function Properties(): Json
  {
    JObject([
      ("start_time", StringProperty(StartTimeDescription)),
      ("end_time", StringProperty(EndTimeDescription))])
  }

  function Parameters(): Json
  {
    JObject([
      ("type", JString("object")),
      ("properties", Properties()),
      ("required", JArray([JString("start_time"), JString("end_time")]))])
  }

  /** The `function` member of the schema: the tool's name, description and parameters. */
  function FunctionObject(name: string, description: string): Json
  {
    JObject([
      ("name", JString(name)),
      ("description", JString(description)),
      ("parameters", Parameters())])
  }

  function Schema(name: string, description: string): Json
  {
    JObject([("type", JString("function")), ("function", FunctionObject(name, description))])
  }

  /** A path through "function" continues inside the function object. */
  lemma SchemaFunctionPath(name: string, description: string, rest: seq<string>)
    ensures At(Schema(name, description), ["function"] + rest) == At(FunctionObject(name, description), rest)
  {
    AtKey(Schema(name, description), 1, rest);
  }

  /** A path through "parameters" continues inside the parameters object. */
  lemma FunctionParametersPath(name: string, description: string, rest: seq<string>)
    ensures At(FunctionObject(name, description), ["parameters"] + rest) == At(Parameters(), rest)
  {
    AtKey(FunctionObject(name, description), 2, rest);
  }

  lemma SchemaParametersPath(name: string, description: string, rest: seq<string>)
    ensures At(Schema(name, description), ["function", "parameters"] + rest) == At(Parameters(), rest)
  {
    assert ["function", "parameters"] + rest == ["function"] + (["parameters"] + rest);
    SchemaFunctionPath(name, description, ["parameters"] + rest);
    FunctionParametersPath(name, description, rest);
  }

  /** A path through "properties" continues inside the properties object. */
  lemma ParametersPropertiesPath(rest: seq<string>)
    ensures At(Parameters(), ["properties"] + rest) == At(Properties(), rest)
  {
    AtKey(Parameters(), 1, rest);
  }

  lemma SchemaPropertyPath(name: string, description: string, rest: seq<string>)
    ensures At(Schema(name, description), ["function", "parameters", "properties"] + rest)
            == At(Properties(), rest)
  {
    assert ["function", "parameters", "properties"] + rest == ["function", "parameters"] + (["properties"] + rest);
    SchemaParametersPath(name, description, ["properties"] + rest);
    ParametersPropertiesPath(rest);
  }

  /** The schema describes a function. */
  lemma SchemaType(name: string, description: string)
    ensures At(Schema(name, description), ["type"]) == Some(JString("function"))
  {
    AtKey(Schema(name, description), 0, []);
  }

  /** The function carries the given name. */
  lemma SchemaName(name: string, description: string)
    ensures At(Schema(name, description), ["function", "name"]) == Some(JString(name))
  {
    assert ["function", "name"] == ["function"] + ["name"];
    SchemaFunctionPath(name, description, ["name"]);
    AtKey(FunctionObject(name, description), 0, []);
  }

  /** The function carries the given description. */
  lemma SchemaDescription(name: string, description: string)
    ensures At(Schema(name, description), ["function", "description"]) == Some(JString(description))
  {
    assert ["function", "description"] == ["function"] + ["description"];
    SchemaFunctionPath(name, description, ["description"]);
    AtKey(FunctionObject(name, description), 1, []);
  }

  /** The parameters object is of type "object". */
  lemma SchemaParametersType(name: string, description: string)
    ensures At(Schema(name, description), ["function", "parameters", "type"]) == Some(JString("object"))
  {
    assert ["function", "parameters", "type"] == ["function", "parameters"] + ["type"];
    SchemaParametersPath(name, description, ["type"]);
    AtKey(Parameters(), 0, []);
  }

  /** The parameters object declares the properties object. */
  lemma SchemaParametersProperties(name: string, description: string)
    ensures At(Schema(name, description), ["function", "parameters", "properties"]) == Some(Properties())
  {
    assert ["function", "parameters", "properties"] == ["function", "parameters", "properties"] + [];
    SchemaPropertyPath(name, description, []);
  }

  /** Both properties are required. */
  lemma SchemaParametersRequired(name: string, description: string)
    ensures At(Schema(name, description), ["function", "parameters", "required"])
            == Some(JArray([JString("start_time"), JString("end_time")]))
  {
    assert ["function", "parameters", "required"] == ["function", "parameters"] + ["required"];
    SchemaParametersPath(name, description, ["required"]);
    AtKey(Parameters(), 2, []);
  }

  lemma PropertiesTypes()
    ensures At(Properties(), ["start_time", "type"]) == Some(JString("string"))
    ensures At(Properties(), ["end_time", "type"]) == Some(JString("string"))
  {
    var props := Properties();
    AtKey(props, 0, ["type"]);
    AtKey(props.fields[0].1, 0, []);
    AtKey(props, 1, ["type"]);
    AtKey(props.fields[1].1, 0, []);
  }

  /** Both declared properties are strings. */
  lemma SchemaPropertyTypes(name: string, description: string)
    ensures At(Schema(name, description), ["function", "parameters", "properties", "start_time", "type"])
            == Some(JString("string"))
    ensures At(Schema(name, description), ["function", "parameters", "properties", "end_time", "type"])
            == Some(JString("string"))
  {
    PropertiesTypes();
    SchemaPropertyPath(name, description, ["start_time", "type"]);
    SchemaPropertyPath(name, description, ["end_time", "type"]);
    assert ["function", "parameters", "properties"] + ["start_time", "type"]
           == ["function", "parameters", "properties", "start_time", "type"];
    assert ["function", "parameters", "properties"] + ["end_time", "type"]
           == ["function", "parameters", "properties", "end_time", "type"];
  }

  /** The tool, holding the calendar client it was built with. */
  datatype MicrosoftGraphTool<G> = MicrosoftGraphTool(graph: G)
  {
    /** `name`: the tool is registered as "microsoft_graph". */
    function Name(): (r: string)
      ensures r == "microsoft_graph"
    {
      ToolName
    }

    /** `openai_schema`: a function tool named after the tool, whose description carries today's
        date, taking an object with the string fields `start_time` and `end_time`, both
        required and no others declared. */
    function OpenAiSchema(today: Date): (r: Json)
      requires ValidDate(today)
      ensures At(r, ["type"]) == Some(JString("function"))
      ensures At(r, ["function", "name"]) == Some(JString(Name()))
      ensures exists d :: At(r, ["function", "description"]) == Some(JString(d)) && IsInfix(FormatDate(today), d)
      ensures At(r, ["function", "parameters", "type"]) == Some(JString("object"))
      ensures At(r, ["function", "parameters", "properties", "start_time", "type"]) == Some(JString("string"))
      ensures At(r, ["function", "parameters", "properties", "end_time", "type"]) == Some(JString("string"))
      ensures exists ps :: At(r, ["function", "parameters", "properties"]) == Some(JObject(ps))
                           && Keys(ps) == ["start_time", "end_time"]
      ensures At(r, ["function", "parameters", "required"])
              == Some(JArray([JString("start_time"), JString("end_time")]))
    {
      var description := Description(today);
      SchemaType(Name(), description);
      SchemaName(Name(), description);
      SchemaDescription(Name(), description);
      SchemaParametersType(Name(), description);
      SchemaParametersProperties(Name(), description);
      SchemaParametersRequired(Name(), description);
      SchemaPropertyTypes(Name(), description);
      var ps := Properties().fields;
      assert Keys(ps) == ["start_time", "end_time"];
      assert At(Schema(Name(), description), ["function", "parameters", "properties"]) == Some(JObject(ps));
      assert At(Schema(Name(), description), ["function", "description"]) == Some(JString(description));
      Schema(Name(), description)
    }

    /** `run`: the week's schedule, introduced by the requested time range. */
    function Run(startTime: string, endTime: string): (r: string)
      ensures "From " + startTime + " to " + endTime + " - " <= r
      ensures r[|"From " + startTime + " to " + endTime + " - "|..] == WeekSchedule
    {
      "From " + startTime + " to " + endTime + " - " + WeekSchedule
    }
  }

  /** The schedule depends on the two times alone: the calendar client is never consulted. */
  lemma RunIgnoresGraph<G>(a: MicrosoftGraphTool<G>, b: MicrosoftGraphTool<G>, startTime: string, endTime: string)
    ensures a.Run(startTime, endTime) == b.Run(startTime, endTime)
  {
  }
}
