/** The speech bubble's line breaker (`wrapText`): the message is split on single spaces and
    the words are laid out greedily, each followed by one space, with a line break in front of
    a word whenever the line built so far plus that word would be longer than the limit. */
module Dialogue {
  import opened Strings
  import opened JsString

  /** The bubble wraps its message at this many characters. */
  const MaxCharsPerLine: int := 30

  /** The text of the line under construction once every word of `ws` is placed according to
      the break flags `bs`, trailing spaces included. */
  function LineAfter(ws: seq<string>, bs: seq<bool>): string
    requires |bs| == |ws|
  {
    if ws == [] then ""
    else
      var n := |ws| - 1;
      (if bs[n] then "" else LineAfter(ws[..n], bs[..n])) + ws[n] + " "
  }

  /** The text before trimming: each word followed by one space, preceded by a line break
      exactly when its flag is set. */
  function Render(ws: seq<string>, bs: seq<bool>): string
    requires |bs| == |ws|
  {
    if ws == [] then ""
    else
      var n := |ws| - 1;
      Render(ws[..n], bs[..n]) + (if bs[n] then "\n" else "") + ws[n] + " "
  }

  /** The break flags the greedy breaker chooses, word by word. */
  function Breaks(ws: seq<string>, max: int): (bs: seq<bool>)
    ensures |bs| == |ws|
  {
    if ws == [] then []
    else
      var n := |ws| - 1;
      var prev := Breaks(ws[..n], max);
      prev + [|LineAfter(ws[..n], prev)| + |ws[n]| > max]
  }

  /** A layout is greedy when a break precedes a word exactly when the current line, trailing
      spaces included, plus that word is longer than `max`. */
  ghost predicate Greedy(ws: seq<string>, bs: seq<bool>, max: int)
  {
    && |bs| == |ws|
    && forall i :: 0 <= i < |ws| ==> (bs[i] <==> |LineAfter(ws[..i], bs[..i])| + |ws[i]| > max)
  }

  /** What `wrapText(text, max)` returns. */
  function WrapSpec(text: string, max: int): string
  {
    var ws := Split(text, ' ');
    Trim(Render(ws, Breaks(ws, max)))
  }

  /** `wrapText`: one pass over the words, keeping the text emitted so far and the current line. */
  method WrapText(text: string, maxCharsPerLine: int) returns (r: string)
    ensures r == WrapSpec(text, maxCharsPerLine)
    ensures r == [] || (!IsJsWhitespace(r[0]) && !IsJsWhitespace(r[|r| - 1]))
  {
    var words := Split(text, ' ');
    var wrappedText := "";
    var currentLine := "";
    for i := 0 to |words|
      invariant wrappedText + currentLine == Render(words[..i], Breaks(words[..i], maxCharsPerLine))
      invariant currentLine == LineAfter(words[..i], Breaks(words[..i], maxCharsPerLine))
    {
      var word := words[i];
      assert words[..i + 1] == words[..i] + [word];
      if |currentLine + word| > maxCharsPerLine {
        WrapStepBreak(wrappedText, currentLine, words[..i], word, maxCharsPerLine);
        wrappedText := wrappedText + currentLine + "\n";
        currentLine := "";
      } else {
        WrapStepPlain(wrappedText, currentLine, words[..i], word, maxCharsPerLine);
      }
      currentLine := currentLine + word + " ";
    }
    assert words[..|words|] == words;
    wrappedText := wrappedText + currentLine;
    r := Trim(wrappedText);
  }

  /** One iteration of the loop that starts a new line keeps its two invariants. */
  lemma WrapStepBreak(emitted: string, line: string, ws: seq<string>, w: string, max: int)
    requires emitted + line == Render(ws, Breaks(ws, max))
    requires line == LineAfter(ws, Breaks(ws, max))
    requires |line + w| > max
    ensures (emitted + line + "\n") + ("" + w + " ") == Render(ws + [w], Breaks(ws + [w], max))
    ensures "" + w + " " == LineAfter(ws + [w], Breaks(ws + [w], max))
  {
    var bs := Breaks(ws, max);
    BreaksSnoc(ws, w, max);
    RenderSnoc(ws, bs, w, true);
    LineAfterSnoc(ws, bs, w, true);
    assert (emitted + line + "\n") + ("" + w + " ") == (emitted + line) + ['\n'] + (w + " ");
  }

  /** One iteration of the loop that extends the current line keeps its two invariants. */
  lemma WrapStepPlain(emitted: string, line: string, ws: seq<string>, w: string, max: int)
    requires emitted + line == Render(ws, Breaks(ws, max))
    requires line == LineAfter(ws, Breaks(ws, max))
    requires |line + w| <= max
    ensures emitted + (line + w + " ") == Render(ws + [w], Breaks(ws + [w], max))
    ensures line + w + " " == LineAfter(ws + [w], Breaks(ws + [w], max))
  {
    var bs := Breaks(ws, max);
    BreaksSnoc(ws, w, max);
    RenderSnoc(ws, bs, w, false);
    LineAfterSnoc(ws, bs, w, false);
    assert emitted + (line + w + " ") == (emitted + line) + (w + " ");
  }

  /** The bubble's text: its message wrapped at `MaxCharsPerLine`. */
  method WrappedMessage(message: string) returns (r: string)
    ensures r == WrapSpec(message, 30)
  {
    r := WrapText(message, MaxCharsPerLine);
  }

  /** The flags `Breaks` chooses are greedy. */
  lemma {:induction false} BreaksGreedy(ws: seq<string>, max: int)
    ensures Greedy(ws, Breaks(ws, max), max)
  {
    if ws != [] {
      var n := |ws| - 1;
      var prev := Breaks(ws[..n], max);
      var bs := Breaks(ws, max);
      BreaksGreedy(ws[..n], max);
      assert bs[..n] == prev;
      forall i | 0 <= i < n
        ensures bs[i] <==> |LineAfter(ws[..i], bs[..i])| + |ws[i]| > max
      {
        assert ws[..n][..i] == ws[..i];
        assert prev[..i] == bs[..i];
      }
    }
  }

  /** A prefix of a greedy layout is a greedy layout of the prefix of the words. */
  lemma GreedyPrefix(ws: seq<string>, bs: seq<bool>, max: int, n: nat)
    requires Greedy(ws, bs, max) && n <= |ws|
    ensures Greedy(ws[..n], bs[..n], max)
  {
    forall i | 0 <= i < n
      ensures bs[..n][i] <==> |LineAfter(ws[..n][..i], bs[..n][..i])| + |ws[..n][i]| > max
    {
      assert ws[..n][..i] == ws[..i];
      assert bs[..n][..i] == bs[..i];
    }
  }

  /** Greedy flags are unique: any greedy layout is the one `Breaks` chooses. */
  lemma {:induction false} GreedyUnique(ws: seq<string>, bs: seq<bool>, max: int)
    requires Greedy(ws, bs, max)
    ensures bs == Breaks(ws, max)
  {
    if ws != [] {
      var n := |ws| - 1;
      GreedyPrefix(ws, bs, max, n);
      GreedyUnique(ws[..n], bs[..n], max);
      assert bs[n] <==> |LineAfter(ws[..n], bs[..n])| + |ws[n]| > max;
      assert bs == bs[..n] + [bs[n]];
    }
  }

  /** Every word followed by one space, with no line breaks. */
  function Spaced(ws: seq<string>): string
  {
    if ws == [] then ""
    else Spaced(ws[..|ws| - 1]) + ws[|ws| - 1] + " "
  }

  lemma {:induction false} JoinSnoc(parts: seq<string>, x: string, c: char)
    requires |parts| >= 1
    ensures Join(parts + [x], c) == Join(parts, c) + [c] + x
  {
    if |parts| > 1 {
      assert (parts + [x])[1..] == parts[1..] + [x];
      JoinSnoc(parts[1..], x, c);
    } else {
      assert (parts + [x])[1..] == [x];
    }
  }

  lemma {:induction false} SpacedJoin(ws: seq<string>)
    requires |ws| >= 1
    ensures Spaced(ws) == Join(ws, ' ') + " "
  {
    var n := |ws| - 1;
    if n > 0 {
      SpacedJoin(ws[..n]);
      JoinSnoc(ws[..n], ws[n], ' ');
      assert ws[..n] + [ws[n]] == ws;
    } else {
      assert ws[..0] == [];
    }
  }

  /** Deleting line breaks from the text with a line break and one more word placed on it. */
  lemma RemoveBreaksAfterBreak(text: string, w: string)
    requires '\n' !in w
    ensures RemoveChar(text + ['\n'] + (w + " "), '\n') == RemoveChar(text, '\n') + (w + " ")
  {
    var piece := w + " ";
    assert '\n' !in piece;
    RemoveCharAbsent(piece, '\n');
    RemoveCharConcat(text + ['\n'], piece, '\n');
    assert RemoveChar(text + ['\n'], '\n') == RemoveChar(text, '\n') by {
      assert (text + ['\n'])[..|text|] == text;
    }
  }

  /** Deleting line breaks from the text with one more word placed on its current line. */
  lemma RemoveBreaksPlain(text: string, w: string)
    requires '\n' !in w
    ensures RemoveChar(text + (w + " "), '\n') == RemoveChar(text, '\n') + (w + " ")
  {
    var piece := w + " ";
    assert '\n' !in piece;
    RemoveCharAbsent(piece, '\n');
    RemoveCharConcat(text, piece, '\n');
  }

  /** Deleting the inserted line breaks gives back every word followed by one space, in the
      original order: no word is dropped, cut or moved. */
  lemma {:induction false} RenderKeepsWords(ws: seq<string>, bs: seq<bool>)
    requires |bs| == |ws|
    requires forall i :: 0 <= i < |ws| ==> '\n' !in ws[i]
    ensures RemoveChar(Render(ws, bs), '\n') == Spaced(ws)
  {
    if ws != [] {
      var n := |ws| - 1;
      var init := ws[..n];
      assert ws == init + [ws[n]];
      assert bs == bs[..n] + [bs[n]];
      RenderKeepsWords(init, bs[..n]);
      KeepsWordsStep(init, bs[..n], ws[n], bs[n]);
    }
  }

  /** One more word keeps the rendering, line breaks deleted, equal to the spaced words. */
  lemma KeepsWordsStep(ws: seq<string>, bs: seq<bool>, w: string, b: bool)
    requires |bs| == |ws| && '\n' !in w
    requires RemoveChar(Render(ws, bs), '\n') == Spaced(ws)
    ensures RemoveChar(Render(ws + [w], bs + [b]), '\n') == Spaced(ws + [w])
  {
    RenderSnoc(ws, bs, w, b);
    SpacedSnoc(ws, w);
    if b {
      RemoveBreaksAfterBreak(Render(ws, bs), w);
    } else {
      RemoveBreaksPlain(Render(ws, bs), w);
    }
  }

  lemma SpacedSnoc(ws: seq<string>, w: string)
    ensures Spaced(ws + [w]) == Spaced(ws) + (w + " ")
  {
    assert (ws + [w])[..|ws|] == ws;
    assert Spaced(ws) + w + " " == Spaced(ws) + (w + " ");
  }

  /** For a message without line breaks, deleting the line breaks `wrapText` inserts gives back
      the message with one space appended (before the final trim). */
  lemma WrapKeepsText(text: string, max: int)
    requires '\n' !in text
    ensures var ws := Split(text, ' ');
            RemoveChar(Render(ws, Breaks(ws, max)), '\n') == text + " "
  {
    var ws := Split(text, ' ');
    SplitPiecesAvoid(text, ' ', '\n');
    RenderKeepsWords(ws, Breaks(ws, max));
    SpacedJoin(ws);
    JoinSplit(text, ' ');
  }

  function CountTrue(bs: seq<bool>): (n: nat)
    ensures n <= |bs|
  {
    if bs == [] then 0
    else CountTrue(bs[..|bs| - 1]) + (if bs[|bs| - 1] then 1 else 0)
  }

  /** Placing a word after a line break adds one line break. */
  lemma CountBreaksAfterBreak(text: string, w: string)
    requires '\n' !in w
    ensures CountChar(text + ['\n'] + (w + " "), '\n') == CountChar(text, '\n') + 1
  {
    var piece := w + " ";
    assert '\n' !in piece;
    CountCharConcat(text + ['\n'], piece, '\n');
    assert CountChar(text + ['\n'], '\n') == CountChar(text, '\n') + 1 by {
      assert (text + ['\n'])[..|text|] == text;
    }
  }

  /** Placing a word on the current line adds no line break. */
  lemma CountBreaksPlain(text: string, w: string)
    requires '\n' !in w
    ensures CountChar(text + (w + " "), '\n') == CountChar(text, '\n')
  {
    var piece := w + " ";
    assert '\n' !in piece;
    CountCharConcat(text, piece, '\n');
  }

  /** One line break per set flag and none elsewhere: at most one break per word. */
  lemma {:induction false} NewlinesPerWord(ws: seq<string>, bs: seq<bool>)
    requires |bs| == |ws|
    requires forall i :: 0 <= i < |ws| ==> '\n' !in ws[i]
    ensures CountChar(Render(ws, bs), '\n') == CountTrue(bs) <= |ws|
  {
    if ws != [] {
      var n := |ws| - 1;
      var init := ws[..n];
      assert ws == init + [ws[n]];
      assert bs == bs[..n] + [bs[n]];
      NewlinesPerWord(init, bs[..n]);
      RenderSnoc(init, bs[..n], ws[n], bs[n]);
      if bs[n] {
        CountBreaksAfterBreak(Render(init, bs[..n]), ws[n]);
      } else {
        CountBreaksPlain(Render(init, bs[..n]), ws[n]);
      }
    }
  }

  /** Rendering one more word: its line break, if flagged, then the word and its space. */
  lemma RenderSnoc(ws: seq<string>, bs: seq<bool>, w: string, b: bool)
    requires |bs| == |ws|
    ensures Render(ws + [w], bs + [b])
            == if b then Render(ws, bs) + ['\n'] + (w + " ") else Render(ws, bs) + (w + " ")
  {
    assert (ws + [w])[..|ws|] == ws && (bs + [b])[..|bs|] == bs;
  }

  /** The line under construction after one more word: that word alone when a break precedes
      it, otherwise the previous line extended by it. */
  lemma LineAfterSnoc(ws: seq<string>, bs: seq<bool>, w: string, b: bool)
    requires |bs| == |ws|
    ensures LineAfter(ws + [w], bs + [b]) == if b then w + " " else LineAfter(ws, bs) + (w + " ")
  {
    assert (ws + [w])[..|ws|] == ws && (bs + [b])[..|bs|] == bs;
  }

  /** The greedy breaker's flag for one more word. */
  lemma BreaksSnoc(ws: seq<string>, w: string, max: int)
    ensures Breaks(ws + [w], max) == Breaks(ws, max) + [|LineAfter(ws, Breaks(ws, max))| + |w| > max]
  {
    assert (ws + [w])[..|ws|] == ws;
  }

  /** Every line holding two or more spaces is at most `max + 1` characters long. */
  ghost predicate LinesFit(lines: seq<string>, max: int)
  {
    forall k :: 0 <= k < |lines| && CountChar(lines[k], ' ') >= 2 ==> |lines[k]| <= max + 1
  }

  /** The lines of `text` end with `cur`, and every one of them holding two or more spaces fits
      in `max + 1` characters. */
  ghost predicate LinesOk(text: string, cur: string, max: int)
  {
    var lines := Split(text, '\n');
    lines[|lines| - 1] == cur && LinesFit(lines, max)
  }

  /** Adding a line holding at most one space keeps every line fitting. */
  lemma FitAddLine(lines: seq<string>, last: string, max: int)
    requires LinesFit(lines, max) && CountChar(last, ' ') < 2
    ensures LinesFit(lines + [last], max)
  {
    var all := lines + [last];
    forall k | 0 <= k < |all| && CountChar(all[k], ' ') >= 2
      ensures |all[k]| <= max + 1
    {
      assert k < |lines| && all[k] == lines[k];
    }
  }

  /** Extending the last line to at most `max + 1` characters keeps every line fitting. */
  lemma FitExtendLast(lines: seq<string>, t: string, max: int)
    requires |lines| >= 1 && LinesFit(lines, max)
    requires |lines[|lines| - 1] + t| <= max + 1
    ensures LinesFit(lines[..|lines| - 1] + [lines[|lines| - 1] + t], max)
  {
    var m := |lines| - 1;
    var all := lines[..m] + [lines[m] + t];
    forall k | 0 <= k < |all| && CountChar(all[k], ' ') >= 2
      ensures |all[k]| <= max + 1
    {
      if k < m {
        assert all[k] == lines[k];
      }
    }
  }

  /** A line break followed by one word starts a new last line holding just that word. */
  lemma LinesAfterBreak(text: string, cur: string, w: string, max: int)
    requires '\n' !in w && ' ' !in w
    requires LinesOk(text, cur, max)
    ensures LinesOk(text + ['\n'] + (w + " "), w + " ", max)
  {
    var piece := w + " ";
    assert '\n' !in piece;
    SplitAppendSeparator(text, piece, '\n');
    assert Split(piece, '\n') == [piece];
    CountCharConcat(w, " ", ' ');
    assert CountChar(" ", ' ') == 1 by {
      assert " "[..0] == "";
    }
    FitAddLine(Split(text, '\n'), piece, max);
  }

  /** One more word without a line break extends the last line by it. */
  lemma LinesAfterPlain(text: string, cur: string, w: string, max: int)
    requires '\n' !in w
    requires |cur| + |w| <= max
    requires LinesOk(text, cur, max)
    ensures LinesOk(text + (w + " "), cur + (w + " "), max)
  {
    var piece := w + " ";
    assert '\n' !in piece;
    SplitAppendPlain(text, piece, '\n');
    FitExtendLast(Split(text, '\n'), piece, max);
  }

  /** The invariant of the words laid out so far: the text before trimming ends with the line
      under construction, and its lines with two or more words fit. */
  ghost predicate LinesInvariant(ws: seq<string>, max: int)
  {
    var bs := Breaks(ws, max);
    LinesOk(Render(ws, bs), LineAfter(ws, bs), max)
  }

  /** A word placed after a line break keeps the invariant. */
  lemma LinesStepBreak(init: seq<string>, w: string, max: int)
    requires '\n' !in w && ' ' !in w
    requires LinesInvariant(init, max)
    requires |LineAfter(init, Breaks(init, max))| + |w| > max
    ensures LinesInvariant(init + [w], max)
  {
    var prev := Breaks(init, max);
    BreaksSnoc(init, w, max);
    RenderSnoc(init, prev, w, true);
    LineAfterSnoc(init, prev, w, true);
    LinesAfterBreak(Render(init, prev), LineAfter(init, prev), w, max);
  }

  /** A word placed on the current line keeps the invariant. */
  lemma LinesStepPlain(init: seq<string>, w: string, max: int)
    requires '\n' !in w
    requires LinesInvariant(init, max)
    requires |LineAfter(init, Breaks(init, max))| + |w| <= max
    ensures LinesInvariant(init + [w], max)
  {
    var prev := Breaks(init, max);
    BreaksSnoc(init, w, max);
    RenderSnoc(init, prev, w, false);
    LineAfterSnoc(init, prev, w, false);
    LinesAfterPlain(Render(init, prev), LineAfter(init, prev), w, max);
  }

  /** Each line of the text before trimming: the last one is the line under construction, and
      any line holding two or more words (two or more spaces) is at most `max + 1` characters
      long, its trailing space included. */
  lemma {:induction false} LinesBounded(ws: seq<string>, max: int)
    requires forall i :: 0 <= i < |ws| ==> '\n' !in ws[i] && ' ' !in ws[i]
    ensures LinesInvariant(ws, max)
  {
    if ws == [] {
      assert Split("", '\n') == [""];
    } else {
      var n := |ws| - 1;
      var init := ws[..n];
      assert forall i :: 0 <= i < |init| ==> init[i] == ws[i];
      assert init + [ws[n]] == ws;
      LinesBounded(init, max);
      if |LineAfter(init, Breaks(init, max))| + |ws[n]| > max {
        LinesStepBreak(init, ws[n], max);
      } else {
        LinesStepPlain(init, ws[n], max);
      }
    }
  }

  /** Applied to `wrapText`'s own words: for a message without line breaks, every line of the
      text before trimming that holds two or more words fits in `max + 1` characters. */
  lemma WrapLinesBounded(text: string, max: int)
    requires '\n' !in text
    ensures var ws := Split(text, ' ');
            LinesFit(Split(Render(ws, Breaks(ws, max)), '\n'), max)
  {
    var ws := Split(text, ' ');
    SplitPiecesAvoid(text, ' ', '\n');
    LinesBounded(ws, max);
  }

  /** Render of a prefix of the words is a prefix of the whole rendering. */
  lemma {:induction false} RenderPrefix(ws: seq<string>, bs: seq<bool>, j: nat)
    requires |bs| == |ws| && j <= |ws|
    ensures Render(ws[..j], bs[..j]) <= Render(ws, bs)
  {
    if j < |ws| {
      var n := |ws| - 1;
      RenderPrefix(ws[..n], bs[..n], j);
      assert ws[..n][..j] == ws[..j];
      assert bs[..n][..j] == bs[..j];
    } else {
      assert ws[..j] == ws && bs[..j] == bs;
    }
  }

  /** Whatever follows a prefix of `s` directly occurs in `s`. */
  lemma InfixAfterPrefix(before: string, p: string, s: string)
    requires before + p <= s
    ensures IsInfix(p, s)
  {
    var k := |before|;
    assert s[k..][..|p|] == (before + p)[k..];
    assert p <= s[k..];
  }

  /** The flags chosen for a prefix of the words are a prefix of the flags: the breaker never
      looks ahead. */
  lemma {:induction false} BreaksPrefix(ws: seq<string>, max: int, j: nat)
    requires j <= |ws|
    ensures Breaks(ws[..j], max) == Breaks(ws, max)[..j]
  {
    if j < |ws| {
      var n := |ws| - 1;
      BreaksPrefix(ws[..n], max, j);
      assert ws[..n][..j] == ws[..j];
      assert Breaks(ws, max)[..j] == Breaks(ws[..n], max)[..j];
    } else {
      assert ws[..j] == ws;
    }
  }

  /** The flag of word `i` depends only on the words before it and the flags chosen for them. */
  lemma FlagAt(ws: seq<string>, max: int, i: nat)
    requires i < |ws|
    ensures Breaks(ws[..i + 1], max) == Breaks(ws[..i], max) + [Breaks(ws, max)[i]]
    ensures Breaks(ws, max)[i] <==> |LineAfter(ws[..i], Breaks(ws[..i], max))| + |ws[i]| > max
  {
    assert ws[..i + 1] == ws[..i] + [ws[i]];
    BreaksSnoc(ws[..i], ws[i], max);
    BreaksPrefix(ws, max, i + 1);
  }

  /** A word longer than the limit gets a line break in front of it, and so does the word
      after it. */
  lemma LongWordBreaks(ws: seq<string>, max: int, i: nat)
    requires i < |ws| && |ws[i]| > max
    ensures Breaks(ws, max)[i]
    ensures i + 1 < |ws| ==> Breaks(ws, max)[i + 1]
  {
    FlagAt(ws, max, i);
    if i + 1 < |ws| {
      FlagAt(ws, max, i + 1);
      assert ws[..i + 1] == ws[..i] + [ws[i]];
      LineAfterSnoc(ws[..i], Breaks(ws[..i], max), ws[i], true);
      assert |LineAfter(ws[..i + 1], Breaks(ws[..i + 1], max))| == |ws[i]| + 1;
    }
  }

  /** A word longer than the limit is never cut: it starts a line of its own, whole, and the
      next word starts a new line after it. */
  lemma LongWordAlone(ws: seq<string>, max: int, i: nat)
    requires i < |ws| && |ws[i]| > max
    ensures Breaks(ws, max)[i]
    ensures i + 1 < |ws| ==> Breaks(ws, max)[i + 1]
    ensures IsInfix("\n" + ws[i] + " ", Render(ws, Breaks(ws, max)))
  {
    LongWordBreaks(ws, max, i);
    BrokenWordWhole(ws, Breaks(ws, max), i);
  }

  /** A word with a line break in front of it appears whole right after that break. */
  lemma BrokenWordWhole(ws: seq<string>, bs: seq<bool>, i: nat)
    requires |bs| == |ws| && i < |ws| && bs[i]
    ensures IsInfix("\n" + ws[i] + " ", Render(ws, bs))
  {
    RenderPrefix(ws, bs, i + 1);
    RenderUpTo(ws, bs, i);
    AfterBreak(Render(ws[..i], bs[..i]), ws[i], Render(ws, bs));
  }

  /** Rendering the words up to and including word `i`. */
  lemma RenderUpTo(ws: seq<string>, bs: seq<bool>, i: nat)
    requires |bs| == |ws| && i < |ws|
    ensures Render(ws[..i + 1], bs[..i + 1])
            == if bs[i] then Render(ws[..i], bs[..i]) + ['\n'] + (ws[i] + " ")
               else Render(ws[..i], bs[..i]) + (ws[i] + " ")
  {
    assert ws[..i + 1] == ws[..i] + [ws[i]];
    assert bs[..i + 1] == bs[..i] + [bs[i]];
    RenderSnoc(ws[..i], bs[..i], ws[i], bs[i]);
  }

  /** A line break and a word that follow a prefix of `s` occur in `s`. */
  lemma AfterBreak(before: string, w: string, s: string)
    requires before + ['\n'] + (w + " ") <= s
    ensures IsInfix("\n" + w + " ", s)
  {
    var piece := "\n" + w + " ";
    assert piece == ['\n'] + (w + " ");
    assert before + ['\n'] + (w + " ") == before + piece;
    InfixAfterPrefix(before, piece, s);
  }
}
