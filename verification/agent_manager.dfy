/** The router: it asks the language model which role should answer a message from the CEO and
    hands the message to the first agent holding exactly that role. The language model is a
    parameter, `respond`, from the prompt to the reply (or nothing, when the reply is empty). */
module AgentManager {
  import opened Wrappers
  import opened Strings
  import opened Agents

  /** One entry of the option list shown to the language model. */
  datatype AgentValue = AgentValue(name: string, role: string, responsibility: string)

  datatype RouteError =
    | InvalidRole(response: Option<string>)   // the reply names no agent's role
    | MissingAttribute(attribute: string)     // an agent lacks an attribute the router reads

  function AgentRoles(agents: seq<Agent>): seq<string>
  {
    seq(|agents|, i requires 0 <= i < |agents| => agents[i].Role())
  }

  function ValueOf(agent: Agent): AgentValue
  {
    AgentValue(agent.Name(), agent.Role(), agent.responsibility)
  }

  function AgentValues(agents: seq<Agent>): seq<AgentValue>
  {
    seq(|agents|, i requires 0 <= i < |agents| => ValueOf(agents[i]))
  }

  /** A string as Python's `repr` prints it when it holds no quotes or escapes. */
  function Quote(s: string): string
  {
    "'" + s + "'"
  }

  /** One option as Python prints the dictionary `{"name": ..., "role": ..., "responsibility": ...}`. */
  function ReprValue(v: AgentValue): string
  {
    "{'name': " + Quote(v.name) + ", 'role': " + Quote(v.role)
    + ", 'responsibility': " + Quote(v.responsibility) + "}"
  }

  /** The options separated by `", "`. */
  function ReprEntries(vs: seq<AgentValue>): string
  {
    if vs == [] then ""
    else if |vs| == 1 then ReprValue(vs[0])
    else ReprValue(vs[0]) + ", " + ReprEntries(vs[1..])
  }

  /** The option list as Python prints a list. */
  function ReprList(vs: seq<AgentValue>): string
  {
    "[" + ReprEntries(vs) + "]"
  }

  /** Where option `i` starts inside `ReprEntries(vs)`. */
  function EntryOffset(vs: seq<AgentValue>, i: nat): nat
    requires i < |vs|
  {
    if i == 0 then 0 else |ReprValue(vs[0])| + 2 + EntryOffset(vs[1..], i - 1)
  }

  /** Option `i` is printed whole at its offset, and the next option starts two characters
      (the `", "`) after it ends: one entry per agent, in list order, none overlapping. */
  lemma {:induction false} EntryAt(vs: seq<AgentValue>, i: nat)
    requires i < |vs|
    ensures EntryOffset(vs, i) + |ReprValue(vs[i])| <= |ReprEntries(vs)|
    ensures ReprValue(vs[i]) <= ReprEntries(vs)[EntryOffset(vs, i)..]
    ensures i + 1 < |vs| ==> EntryOffset(vs, i + 1) == EntryOffset(vs, i) + |ReprValue(vs[i])| + 2
  {
    if i == 0 {
      EntryAtFirst(vs);
    } else {
      EntryAt(vs[1..], i - 1);
      EntryAtLater(vs, i);
    }
  }

  /** Option `i > 0` sits in the options after the first, shifted by the first and its `", "`. */
  lemma EntryAtLater(vs: seq<AgentValue>, i: nat)
    requires 0 < i < |vs|
    requires EntryOffset(vs[1..], i - 1) + |ReprValue(vs[i])| <= |ReprEntries(vs[1..])|
    requires ReprValue(vs[i]) <= ReprEntries(vs[1..])[EntryOffset(vs[1..], i - 1)..]
    requires i + 1 < |vs| ==> EntryOffset(vs[1..], i) == EntryOffset(vs[1..], i - 1) + |ReprValue(vs[i])| + 2
    ensures EntryOffset(vs, i) + |ReprValue(vs[i])| <= |ReprEntries(vs)|
    ensures ReprValue(vs[i]) <= ReprEntries(vs)[EntryOffset(vs, i)..]
    ensures i + 1 < |vs| ==> EntryOffset(vs, i + 1) == EntryOffset(vs, i) + |ReprValue(vs[i])| + 2
  {
    var head := ReprValue(vs[0]) + ", ";
    var k := EntryOffset(vs[1..], i - 1);
    EntriesCons(vs);
    assert EntryOffset(vs, i) == |head| + k;
    PrefixAfter(head, ReprEntries(vs[1..]), ReprValue(vs[i]), k);
  }

  /** The first option opens the printed list. */
  lemma EntryAtFirst(vs: seq<AgentValue>)
    requires 0 < |vs|
    ensures |ReprValue(vs[0])| <= |ReprEntries(vs)|
    ensures ReprValue(vs[0]) <= ReprEntries(vs)
    ensures 1 < |vs| ==> EntryOffset(vs, 1) == |ReprValue(vs[0])| + 2
  {
    if |vs| > 1 {
      EntriesCons(vs);
    }
  }

  /** Two or more options: the first, the separator, then the rest. */
  lemma EntriesCons(vs: seq<AgentValue>)
    requires |vs| > 1
    ensures ReprEntries(vs) == ReprValue(vs[0]) + ", " + ReprEntries(vs[1..])
  {
  }

  /** A piece found at offset `k` of `s` is found at offset `|a| + k` of `a + s`. */
  lemma PrefixAfter(a: string, s: string, p: string, k: nat)
    requires k <= |s| && p <= s[k..]
    ensures |a| + k <= |a + s| && p <= (a + s)[|a| + k..]
  {
    assert (a + s)[|a| + k..] == s[k..];
  }

  /** A piece found at offset `k` of `s` is still found there once `s` is extended. */
  lemma PrefixBefore(s: string, b: string, p: string, k: nat)
    requires k <= |s| && p <= s[k..]
    ensures k <= |s + b| && p <= (s + b)[k..]
  {
    assert (s + b)[k..][..|p|] == s[k..][..|p|];
  }

  const PromptHead: string := "\nWho should respond to this message from the company's CEO: "
  const PromptOptions: string := "\nOptions: "
  const PromptTail: string :=
    "\nOnly one role should respond. Please reply with the name of the role only. For example, \"CEO Assistant\".\n"

  /** The dedented routing prompt: the CEO's message and the option list. */
  function RoutingPrompt(text: string, values: seq<AgentValue>): (r: string)
    ensures IsInfix(text, r)
    ensures PromptHead + text <= r
  {
    var rest := PromptOptions + ReprList(values) + PromptTail;
    InfixMiddle(PromptHead, text, rest);
    ConcatRegroup(PromptHead + text, PromptOptions, ReprList(values), PromptTail);
    PromptHead + text + PromptOptions + ReprList(values) + PromptTail
  }

  /** Where option `i` starts inside the routing prompt. */
  function PromptOffset(text: string, values: seq<AgentValue>, i: nat): nat
    requires i < |values|
  {
    |PromptHead| + |text| + |PromptOptions| + 1 + EntryOffset(values, i)
  }

  /** Option `i` is printed whole inside the option list, one character after its offset in
      the entries (the opening bracket). */
  lemma ListHoldsEntry(values: seq<AgentValue>, i: nat)
    requires i < |values|
    ensures 1 + EntryOffset(values, i) <= |ReprList(values)|
    ensures ReprValue(values[i]) <= ReprList(values)[1 + EntryOffset(values, i)..]
  {
    var entry := ReprValue(values[i]);
    var k := EntryOffset(values, i);
    EntryAt(values, i);
    PrefixAfter("[", ReprEntries(values), entry, k);
    PrefixBefore("[" + ReprEntries(values), "]", entry, 1 + k);
  }

  /** Option `i` is printed whole inside the prompt, at its offset. */
  lemma PromptHoldsEntry(text: string, values: seq<AgentValue>, i: nat)
    requires i < |values|
    ensures PromptOffset(text, values, i) + |ReprValue(values[i])| <= |RoutingPrompt(text, values)|
    ensures ReprValue(values[i]) <= RoutingPrompt(text, values)[PromptOffset(text, values, i)..]
  {
    var entry := ReprValue(values[i]);
    var front := PromptHead + text + PromptOptions;
    var k := 1 + EntryOffset(values, i);
    ListHoldsEntry(values, i);
    PrefixAfter(front, ReprList(values), entry, k);
    PrefixBefore(front + ReprList(values), PromptTail, entry, |front| + k);
    assert RoutingPrompt(text, values) == front + ReprList(values) + PromptTail;
  }

  /** The prompt lists every agent's name, role and responsibility at that agent's offset. */
  lemma PromptListsAgents(text: string, agents: seq<Agent>, i: nat)
    requires i < |agents|
    ensures var values := AgentValues(agents);
            && PromptOffset(text, values, i) + |ReprValue(ValueOf(agents[i]))| <= |RoutingPrompt(text, values)|
            && ReprValue(ValueOf(agents[i])) <= RoutingPrompt(text, values)[PromptOffset(text, values, i)..]
  {
    PromptHoldsEntry(text, AgentValues(agents), i);
  }

  /** The entries follow the order of the agent list, one after the other without overlapping:
      one entry per agent, in input order. */
  lemma PromptEntriesInOrder(text: string, agents: seq<Agent>, i: nat)
    requires i + 1 < |agents|
    ensures var values := AgentValues(agents);
            PromptOffset(text, values, i) + |ReprValue(ValueOf(agents[i]))| < PromptOffset(text, values, i + 1)
  {
    EntryAt(AgentValues(agents), i);
  }

  /** Position of the first agent holding `role`. */
  function IndexOfRole(agents: seq<Agent>, role: string): (i: nat)
    requires exists j :: 0 <= j < |agents| && agents[j].Role() == role
    ensures i < |agents| && agents[i].Role() == role
    ensures forall j :: 0 <= j < i ==> agents[j].Role() != role
  {
    if agents[0].Role() == role then 0
    else
      assert exists j :: 0 <= j < |agents[1..]| && agents[1..][j].Role() == role by {
        var j :| 0 <= j < |agents| && agents[j].Role() == role;
        assert agents[1..][j - 1] == agents[j];
      }
      1 + IndexOfRole(agents[1..], role)
  }

  /** The decision on the model's reply: the first agent whose role is exactly the reply, or an
      "Invalid role" error carrying the reply. */
  function Route(agents: seq<Agent>, reply: Option<string>): (r: Result<Agent, RouteError>)
    ensures r.Success? <==> reply.Some? && reply.value in AgentRoles(agents)
    ensures r.Success? ==>
              exists i :: 0 <= i < |agents| && agents[i] == r.value && agents[i].Role() == reply.value
                          && forall j :: 0 <= j < i ==> agents[j].Role() != reply.value
    ensures r.Failure? ==> r == Failure(InvalidRole(reply))
  {
    if reply.Some? && reply.value in AgentRoles(agents) then
      assert exists j :: 0 <= j < |agents| && agents[j].Role() == reply.value by {
        var j :| 0 <= j < |agents| && AgentRoles(agents)[j] == reply.value;
      }
      Success(agents[IndexOfRole(agents, reply.value)])
    else Failure(InvalidRole(reply))
  }

  /** `analyze_message_for_agent`: routing succeeds exactly when the reply is some agent's role,
      word for word; the agent returned is then the first one in the list holding that role,
      and otherwise the call fails with the reply in the error. */
  function AnalyzeMessageForAgent(text: string, agents: seq<Agent>, respond: string -> Option<string>)
    : (r: Result<Agent, RouteError>)
    ensures var reply := respond(RoutingPrompt(text, AgentValues(agents)));
            && (r.Success? <==> reply.Some? && exists i :: 0 <= i < |agents| && agents[i].Role() == reply.value)
            && (r.Success? ==>
                  exists i :: 0 <= i < |agents| && agents[i] == r.value && agents[i].Role() == reply.value
                              && forall j :: 0 <= j < i ==> agents[j].Role() != reply.value)
            && (r.Failure? ==> r.error == InvalidRole(reply))
  {
    var reply := respond(RoutingPrompt(text, AgentValues(agents)));
    assert reply.Some? && (exists i :: 0 <= i < |agents| && agents[i].Role() == reply.value) ==>
             reply.value in AgentRoles(agents) by {
      if reply.Some? && exists i :: 0 <= i < |agents| && agents[i].Role() == reply.value {
        var i :| 0 <= i < |agents| && agents[i].Role() == reply.value;
        assert AgentRoles(agents)[i] == reply.value;
      }
    }
    Route(agents, reply)
  }

  /** With no agents there is nothing to route to, whatever the model replies. */
  lemma NoAgentsNoRoute(text: string, respond: string -> Option<string>)
    ensures AnalyzeMessageForAgent(text, [], respond).Failure?
  {
  }

  /** The reply must be a role exactly: a trailing full stop is enough to make it fail. */
  lemma ExactMatchOnly(text: string, agents: seq<Agent>, respond: string -> Option<string>)
    requires respond(RoutingPrompt(text, AgentValues(agents))) == Some("CEO Assistant.")
    ensures AnalyzeMessageForAgent(text, agents, respond)
            == Failure(InvalidRole(Some("CEO Assistant.")))
  {
    forall i | 0 <= i < |agents|
      ensures agents[i].Role() != "CEO Assistant."
    {
      assert |agents[i].Role()| != |"CEO Assistant."|;
    }
  }

  /** The assistant and the engineering manager: the reply "CEO Assistant" selects the assistant,
      and a role nobody holds, such as "Marketing Manager", fails. */
  lemma RouteBetweenTwoAgents(amy: Agent, michael: Agent, text: string, respond: string -> Option<string>)
    requires amy.kind == Assistant && michael.kind == EngineeringManager
    ensures var reply := respond(RoutingPrompt(text, AgentValues([amy, michael])));
            && (reply == Some("CEO Assistant") ==> AnalyzeMessageForAgent(text, [amy, michael], respond) == Success(amy))
            && (reply == Some("Marketing Manager") ==>
                  AnalyzeMessageForAgent(text, [amy, michael], respond) == Failure(InvalidRole(reply)))
  {
    var agents := [amy, michael];
    var reply := respond(RoutingPrompt(text, AgentValues(agents)));
    if reply == Some("Marketing Manager") {
      assert amy.Role() != "Marketing Manager" by {
        assert amy.Role()[0] != "Marketing Manager"[0];
      }
      assert michael.Role() != "Marketing Manager" by {
        assert michael.Role()[0] != "Marketing Manager"[0];
      }
      assert forall i :: 0 <= i < |agents| ==> agents[i].Role() != "Marketing Manager";
    }
  }

  // The router as the repository writes it. The agent classes define a name and a role but no
  // responsibility, so building the option list raises an attribute error for the first agent.

  /** The attributes an agent of the repository carries: its name and its role. */
  function AttributeAsWritten(kind: AgentKind, attribute: string): Option<string>
  {
    if attribute == "name" then Some(NameOf(kind))
    else if attribute == "role" then Some(RoleOf(kind))
    else None
  }

  /** The option list built by reading each agent's name, role and responsibility in turn. */
  function AgentValuesAsWritten(agents: seq<Agent>): Result<seq<AgentValue>, RouteError>
  {
    if agents == [] then Success([])
    else
      var kind := agents[0].kind;
      var rest := AgentValuesAsWritten(agents[1..]);
      match (AttributeAsWritten(kind, "name"), AttributeAsWritten(kind, "role"),
             AttributeAsWritten(kind, "responsibility"))
      case (None, _, _) => Failure(MissingAttribute("name"))
      case (_, None, _) => Failure(MissingAttribute("role"))
      case (_, _, None) => Failure(MissingAttribute("responsibility"))
      case (Some(n), Some(ro), Some(re)) =>
        match rest
        case Failure(e) => Failure(e)
        case Success(vs) => Success([AgentValue(n, ro, re)] + vs)
  }

  /** `analyze_message_for_agent` as written: the option list is built first, and any agent
      fails it on the missing responsibility; only an empty list reaches the model. */
  function AnalyzeAsWritten(text: string, agents: seq<Agent>, respond: string -> Option<string>)
    : (r: Result<Agent, RouteError>)
    ensures agents != [] ==> r == Failure(MissingAttribute("responsibility"))
    ensures agents == [] ==> r == Failure(InvalidRole(respond(RoutingPrompt(text, []))))
  {
    match AgentValuesAsWritten(agents)
    case Failure(e) => Failure(e)
    case Success(values) => Route(agents, respond(RoutingPrompt(text, values)))
  }

  /** As written, the router never selects an agent: with agents it fails on the missing
      responsibility before the model is asked, and with none it has nothing to select. */
  lemma AsWrittenNeverRoutes(text: string, agents: seq<Agent>, respond: string -> Option<string>)
    ensures agents != [] ==> AnalyzeAsWritten(text, agents, respond) == Failure(MissingAttribute("responsibility"))
    ensures AnalyzeAsWritten(text, agents, respond).Failure?
  {
  }
}
