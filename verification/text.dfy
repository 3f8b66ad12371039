/**
  Line structure of generated text: `Lines` is Python's `s.split('\n')`,
  `Join` is `sep.join(parts)`.
 */
module Text {

  predicate NoNewline(s: string)
  {
    '\n' !in s
  }

  /** No string of the list contains a newline. */
  predicate NoNewlines(vs: seq<string>)
  {
    forall i :: 0 <= i < |vs| ==> NoNewline(vs[i])
  }

  /** `s.split('\n')`: the pieces between newline characters, always at least one. */
  function Lines(s: string): (ls: seq<string>)
    ensures |ls| >= 1
    ensures forall i :: 0 <= i < |ls| ==> NoNewline(ls[i])
  {
    if s == [] then [""]
    else
      var init := Lines(s[..|s| - 1]);
      var c := s[|s| - 1];
      if c == '\n' then init + [""]
      else init[..|init| - 1] + [init[|init| - 1] + [c]]
  }

  function Last<T>(s: seq<T>): T
    requires |s| >= 1
  {
    s[|s| - 1]
  }

  /** `sep.join(parts)`. */
  function Join(parts: seq<string>, sep: string): string
  {
    if |parts| == 0 then ""
    else if |parts| == 1 then parts[0]
    else Join(parts[..|parts| - 1], sep) + sep + parts[|parts| - 1]
  }

  /** A text without newline is a single line. */
  lemma {:induction false} LinesOfLine(t: string)
    requires NoNewline(t)
    ensures Lines(t) == [t]
  {
    if t != [] {
      assert t[|t| - 1] in t;
      LinesOfLine(t[..|t| - 1]);
      assert t[..|t| - 1] + [t[|t| - 1]] == t;
    }
  }

  /** Appending newline-free text extends the last line only. */
  lemma {:induction false} LinesAppendText(a: string, t: string)
    requires NoNewline(t)
    ensures var la := Lines(a);
      Lines(a + t) == la[..|la| - 1] + [Last(la) + t]
  {
    var la := Lines(a);
    if t == [] {
      assert a + t == a;
      assert Last(la) + t == Last(la);
      assert la[..|la| - 1] + [Last(la)] == la;
    } else {
      var t' := t[..|t| - 1];
      var c := t[|t| - 1];
      assert c != '\n' && NoNewline(t') by {
        assert c in t;
        assert forall k :: 0 <= k < |t'| ==> t'[k] == t[k];
      }
      LinesAppendText(a, t');
      LinesAppendTextStep(a, t', c);
      assert t' + [c] == t;
    }
  }

  /** The inductive step of `LinesAppendText`: one more non-newline character. */
  lemma LinesAppendTextStep(a: string, t: string, c: char)
    requires c != '\n'
    requires var la := Lines(a);
      Lines(a + t) == la[..|la| - 1] + [Last(la) + t]
    ensures var la := Lines(a);
      Lines(a + (t + [c])) == la[..|la| - 1] + [Last(la) + (t + [c])]
  {
    var la := Lines(a);
    assert a + (t + [c]) == (a + t) + [c];
    LinesSnoc(a + t, c);
    ExtendLastSnoc(la, t, c);
  }

  /** Extending the last line by `t`, then by a non-newline `c`, extends it by `t + [c]`. */
  lemma ExtendLastSnoc(ls: seq<string>, t: string, c: char)
    requires |ls| >= 1 && c != '\n'
    ensures SnocChar(ls[..|ls| - 1] + [Last(ls) + t], c) == ls[..|ls| - 1] + [Last(ls) + (t + [c])]
  {
    var l1 := ls[..|ls| - 1] + [Last(ls) + t];
    assert l1[..|l1| - 1] == ls[..|ls| - 1];
    assert Last(l1) + [c] == Last(ls) + (t + [c]);
  }

  /** The lines after one more character: a newline opens an empty line, any other character extends the last. */
  function SnocChar(ls: seq<string>, c: char): (r: seq<string>)
    requires |ls| >= 1
    ensures |r| >= 1
  {
    if c == '\n' then ls + [""] else ls[..|ls| - 1] + [Last(ls) + [c]]
  }

  /** Appending one character to a text updates its lines as `SnocChar` says. */
  lemma LinesSnoc(s: string, c: char)
    ensures Lines(s + [c]) == SnocChar(Lines(s), c)
  {
    assert (s + [c])[..|s|] == s;
  }

  /** A character appended to the right part only touches the right part's lines. */
  lemma SnocCharAppend(la: seq<string>, lb: seq<string>, c: char)
    requires |lb| >= 1
    ensures SnocChar(la + lb, c) == la + SnocChar(lb, c)
  {
    var l1 := la + lb;
    if c != '\n' {
      assert l1[..|l1| - 1] == la + lb[..|lb| - 1];
    }
  }

  /** A newline separates the lines of the two sides. */
  lemma {:induction false} LinesConcat(a: string, b: string)
    ensures Lines(a + "\n" + b) == Lines(a) + Lines(b)
    decreases |b|
  {
    if b == [] {
      assert a + "\n" + b == a + ['\n'];
      LinesSnoc(a, '\n');
    } else {
      var b' := b[..|b| - 1];
      var c := b[|b| - 1];
      var x := a + "\n" + b';
      assert a + "\n" + b == x + [c];
      assert b == b' + [c];
      LinesConcat(a, b');
      LinesSnoc(x, c);
      LinesSnoc(b', c);
      SnocCharAppend(Lines(a), Lines(b'), c);
    }
  }

  /** After a text that ends its last line, a terminated line adds exactly that line. */
  lemma LinesAppendLine(prev: string, line: string)
    requires NoNewline(line)
    requires Last(Lines(prev)) == ""
    ensures var lp := Lines(prev);
      Lines(prev + line + "\n") == lp[..|lp| - 1] + [line, ""]
  {
    var lp := Lines(prev);
    LinesAppendText(prev, line);
    assert Last(lp) + line == line;
    assert Lines(prev + line) == lp[..|lp| - 1] + [line];
    LinesSnoc(prev + line, '\n');
    assert prev + line + "\n" == (prev + line) + ['\n'];
    assert Lines(prev + line + "\n") == lp[..|lp| - 1] + [line] + [""];
  }
}
