/**
  The C source emitter: `create_array` renders a numeric array as dimension
  constants, a declaration and a wrapped, comma-separated value list;
  `create_header` wraps code in an include guard.

  Values arrive already rendered (`str(val)` of each element of the
  flattened array, in flattened order).
 */
module CWriter {
  import opened Wrappers
  import opened Decimal
  import opened Text

  /** `val_sep` */
  const Separator: string := ", "

  function Spaces(n: nat): string
  {
    Repeat(' ', n)
  }

  predicate StartsWith(s: string, prefix: string)
  {
    |prefix| <= |s| && s[..|prefix|] == prefix
  }

  // ---------------------------------------------------------------- create_array

  /** `const unsigned int <var>_dim<i> = <dim>;` */
  function DimLine(varName: string, i: nat, dim: nat): string
  {
    "const unsigned int " + varName + "_dim" + NatToString(i) + " = " + NatToString(dim) + ";"
  }

  /** The first loop: one dimension constant per axis, numbered from 1, each ending its line. */
  function DimBlock(varName: string, shape: seq<nat>): string
    decreases |shape|
  {
    if shape == [] then ""
    else DimBlock(varName, shape[..|shape| - 1]) + DimLine(varName, |shape|, shape[|shape| - 1]) + "\n"
  }

  /** The expected dimension lines, one per axis in shape order. */
  function DimLines(varName: string, shape: seq<nat>): (ls: seq<string>)
    ensures |ls| == |shape|
    ensures forall i :: 0 <= i < |shape| ==> ls[i] == DimLine(varName, i + 1, shape[i])
    decreases |shape|
  {
    if shape == [] then []
    else DimLines(varName, shape[..|shape| - 1]) + [DimLine(varName, |shape|, shape[|shape| - 1])]
  }

  /** `[d1][d2]...[dk]` */
  function Brackets(shape: seq<nat>): string
    decreases |shape|
  {
    if shape == [] then "" else Brackets(shape[..|shape| - 1]) + "[" + NatToString(shape[|shape| - 1]) + "]"
  }

  /** `const <type> <var>[d1]...[dk] = {` */
  function Declaration(varType: string, varName: string, shape: seq<nat>): string
  {
    "const " + varType + " " + varName + Brackets(shape) + " = {"
  }

  /** The value string built so far and the `line_len` counter. */
  datatype Wrapped = Wrapped(text: string, lineLen: int)

  /**
    The value loop after `n` of the values: before each value a newline and
    the indent are inserted when the counter plus the value and a separator
    would pass the limit; every value but the last is followed by the separator.
   */
  function WrapValues(vals: seq<string>, n: nat, indent: string, lineLimit: int): Wrapped
    requires n <= |vals|
  {
    if n == 0 then Wrapped(indent, |indent|)
    else
      var w := WrapValues(vals, n - 1, indent, lineLimit);
      var v := vals[n - 1];
      var w1 := if w.lineLen + |v| + |Separator| > lineLimit then Wrapped(w.text + "\n" + indent, |indent|) else w;
      var sep := if n < |vals| then Separator else "";
      Wrapped(w1.text + v + sep, w1.lineLen + |v| + |sep|)
  }

  /** The wrapped value list: all values, with an indent of `indent` spaces. */
  function ValueBlock(vals: seq<string>, indent: nat, lineLimit: int): string
  {
    WrapValues(vals, |vals|, Spaces(indent), lineLimit).text
  }

  /** `create_array(np_array, var_type, var_name, line_limit, indent)` */
  function CreateArray(shape: seq<nat>, vals: seq<string>, varType: string, varName: string,
                       lineLimit: int, indent: nat): string
  {
    DimBlock(varName, shape) + "\n"
    + Declaration(varType, varName, shape) + "\n"
    + ValueBlock(vals, indent, lineLimit) + "\n};\n"
  }

  /** Concatenation of the lines with their first `w` characters removed. */
  function Unindent(ls: seq<string>, w: nat): string
    requires forall i :: 0 <= i < |ls| ==> |ls[i]| >= w
  {
    if ls == [] then "" else Unindent(ls[..|ls| - 1], w) + ls[|ls| - 1][w..]
  }

  predicate Indented(ls: seq<string>, indent: string)
  {
    forall i :: 0 <= i < |ls| ==> StartsWith(ls[i], indent)
  }

  /** The values seen after `n` steps, as they read with the line breaks taken out. */
  function Emitted(vals: seq<string>, n: nat): string
    requires n <= |vals|
  {
    if n == 0 then "" else Join(vals[..n], Separator) + (if n < |vals| then Separator else "")
  }

  /** How the line structure changes when a value (with its separator) is appended, with or without a break. */
  lemma LinesAfterValue(text: string, indent: string, t: string, brk: bool)
    requires NoNewline(indent) && NoNewline(t)
    ensures var ls := Lines(text);
      Lines((if brk then text + "\n" + indent else text) + t)
        == if brk then ls + [indent + t] else ls[..|ls| - 1] + [Last(ls) + t]
  {
    if brk {
      LinesConcat(text, indent + t);
      LinesOfLine(indent + t);
      assert text + "\n" + indent + t == text + "\n" + (indent + t);
    } else {
      LinesAppendText(text, t);
    }
  }

  lemma UnindentSnoc(ls: seq<string>, line: string, w: nat)
    requires forall i :: 0 <= i < |ls| ==> |ls[i]| >= w
    requires |line| >= w
    ensures Unindent(ls + [line], w) == Unindent(ls, w) + line[w..]
  {
    assert (ls + [line])[..|ls|] == ls;
  }

  lemma JoinSnoc(vals: seq<string>, n: nat)
    requires 2 <= n <= |vals|
    ensures Join(vals[..n], Separator) == Join(vals[..n - 1], Separator) + Separator + vals[n - 1]
  {
    assert vals[..n][..n - 1] == vals[..n - 1];
  }

  /** Joining two newline-free texts gives a newline-free text. */
  lemma NoNewlineAppend(a: string, b: string)
    requires NoNewline(a) && NoNewline(b)
    ensures NoNewline(a + b)
  {
  }

  /** The value loop's invariant for a text, a counter and the values emitted so far. */
  predicate WrapInv(text: string, lineLen: int, indent: string, emitted: string)
  {
    var ls := Lines(text);
    && lineLen == |Last(ls)|
    && Indented(ls, indent)
    && Unindent(ls, |indent|) == emitted
  }

  /** A value placed on a fresh line keeps the invariant. */
  lemma WrapStepBreak(text: string, lineLen: int, indent: string, emitted: string, t: string)
    requires NoNewline(indent) && NoNewline(t)
    requires WrapInv(text, lineLen, indent, emitted)
    ensures WrapInv(text + "\n" + indent + t, |indent| + |t|, indent, emitted + t)
  {
    var ls := Lines(text);
    LinesAfterValue(text, indent, t, true);
    assert Lines(text + "\n" + indent + t) == ls + [indent + t];
    assert (indent + t)[..|indent|] == indent;
    assert Indented(ls + [indent + t], indent);
    UnindentSnoc(ls, indent + t, |indent|);
    assert (indent + t)[|indent|..] == t;
  }

  /** Extending the last line keeps every line indented. */
  lemma IndentedExtendLast(init: seq<string>, last: string, t: string, indent: string)
    requires Indented(init + [last], indent)
    ensures Indented(init + [last + t], indent)
  {
    assert StartsWith((init + [last])[|init|], indent);
    assert (last + t)[..|indent|] == last[..|indent|];
    forall i | 0 <= i < |init| + 1 ensures StartsWith((init + [last + t])[i], indent) {
      if i < |init| {
        assert (init + [last + t])[i] == (init + [last])[i];
      }
    }
  }

  /** Extending the last line extends the unindented text by the same characters. */
  lemma UnindentExtendLast(init: seq<string>, last: string, t: string, w: nat)
    requires forall i :: 0 <= i < |init| ==> |init[i]| >= w
    requires |last| >= w
    ensures Unindent(init + [last + t], w) == Unindent(init + [last], w) + t
  {
    UnindentSnoc(init, last, w);
    UnindentSnoc(init, last + t, w);
    assert (last + t)[w..] == last[w..] + t;
  }

  /** A value appended to the current line keeps the invariant. */
  lemma WrapStepSame(text: string, lineLen: int, indent: string, emitted: string, t: string)
    requires NoNewline(indent) && NoNewline(t)
    requires WrapInv(text, lineLen, indent, emitted)
    ensures WrapInv(text + t, lineLen + |t|, indent, emitted + t)
  {
    var ls := Lines(text);
    var k := |ls|;
    var init := ls[..k - 1];
    var last := Last(ls);
    assert Lines(text + t) == init + [last + t] by {
      LinesAfterValue(text, indent, t, false);
    }
    assert ls == init + [last];
    IndentedExtendLast(init, last, t, indent);
    assert forall i :: 0 <= i < |init| ==> init[i] == ls[i];
    UnindentExtendLast(init, last, t, |indent|);
  }

  /** One value step keeps the invariant, whether or not it breaks the line. */
  lemma WrapStep(text: string, lineLen: int, indent: string, emitted: string, t: string, brk: bool)
    requires NoNewline(indent) && NoNewline(t)
    requires WrapInv(text, lineLen, indent, emitted)
    ensures WrapInv((if brk then text + "\n" + indent else text) + t,
                    (if brk then |indent| else lineLen) + |t|, indent, emitted + t)
  {
    if brk {
      WrapStepBreak(text, lineLen, indent, emitted, t);
    } else {
      WrapStepSame(text, lineLen, indent, emitted, t);
    }
  }

  lemma EmittedStep(vals: seq<string>, n: nat)
    requires 1 <= n <= |vals|
    ensures Emitted(vals, n) == Emitted(vals, n - 1) + vals[n - 1] + (if n < |vals| then Separator else "")
  {
    if n >= 2 {
      JoinSnoc(vals, n);
    } else {
      assert vals[..1] == [vals[0]];
    }
  }

  /**
    The invariant of the value loop: `line_len` is the length of the current
    line, every line starts with the indent, and taking the indents and line
    breaks out leaves the values joined by the separator.
   */
  lemma {:induction false} WrapInvariant(vals: seq<string>, n: nat, indent: string, lineLimit: int)
    requires n <= |vals|
    requires NoNewline(indent) && NoNewlines(vals)
    ensures var w := WrapValues(vals, n, indent, lineLimit);
      WrapInv(w.text, w.lineLen, indent, Emitted(vals, n))
  {
    if n == 0 {
      LinesOfLine(indent);
    } else {
      WrapInvariant(vals, n - 1, indent, lineLimit);
      WrapValuesStep(vals, n, indent, lineLimit);
    }
  }

  /** The inductive step of `WrapInvariant`: placing value `n - 1`. */
  lemma WrapValuesStep(vals: seq<string>, n: nat, indent: string, lineLimit: int)
    requires 1 <= n <= |vals|
    requires NoNewline(indent) && NoNewlines(vals)
    requires var w := WrapValues(vals, n - 1, indent, lineLimit);
      WrapInv(w.text, w.lineLen, indent, Emitted(vals, n - 1))
    ensures var w := WrapValues(vals, n, indent, lineLimit);
      WrapInv(w.text, w.lineLen, indent, Emitted(vals, n))
  {
    var w := WrapValues(vals, n - 1, indent, lineLimit);
    var v := vals[n - 1];
    var brk := w.lineLen + |v| + |Separator| > lineLimit;
    var sep := if n < |vals| then Separator else "";
    var t := v + sep;
    var e := Emitted(vals, n - 1);
    var text := (if brk then w.text + "\n" + indent else w.text) + t;
    var len := (if brk then |indent| else w.lineLen) + |t|;
    assert WrapValues(vals, n, indent, lineLimit) == Wrapped(text, len) by {
      WrapValuesUnfold(vals, n, indent, lineLimit);
    }
    assert Emitted(vals, n) == e + t by {
      EmittedStep(vals, n);
    }
    assert NoNewline(t) by {
      assert NoNewline(v);
      NoNewlineAppend(v, sep);
    }
    WrapStep(w.text, w.lineLen, indent, e, t, brk);
  }

  /** `WrapValues` after value `n - 1`, with the line break and the separator made explicit. */
  lemma WrapValuesUnfold(vals: seq<string>, n: nat, indent: string, lineLimit: int)
    requires 1 <= n <= |vals|
    ensures var w := WrapValues(vals, n - 1, indent, lineLimit);
      var v := vals[n - 1];
      var brk := w.lineLen + |v| + |Separator| > lineLimit;
      var t := v + (if n < |vals| then Separator else "");
      WrapValues(vals, n, indent, lineLimit)
        == Wrapped((if brk then w.text + "\n" + indent else w.text) + t, (if brk then |indent| else w.lineLen) + |t|)
  {
    var w := WrapValues(vals, n - 1, indent, lineLimit);
    var v := vals[n - 1];
    var sep := if n < |vals| then Separator else "";
    if w.lineLen + |v| + |Separator| > lineLimit {
      assert w.text + "\n" + indent + v + sep == (w.text + "\n" + indent) + (v + sep);
    } else {
      assert w.text + v + sep == w.text + (v + sep);
    }
  }

  /**
    A new line starts before value `n - 1` exactly when the counter plus the
    value and a separator passes the limit; that line is the indent followed
    by the value.
   */
  lemma WrapBreaksExactly(vals: seq<string>, n: nat, indent: string, lineLimit: int)
    requires 1 <= n <= |vals|
    requires NoNewline(indent) && NoNewlines(vals)
    ensures var before := WrapValues(vals, n - 1, indent, lineLimit);
      var after := WrapValues(vals, n, indent, lineLimit);
      var brk := before.lineLen + |vals[n - 1]| + |Separator| > lineLimit;
      var t := vals[n - 1] + (if n < |vals| then Separator else "");
      && |Lines(after.text)| == |Lines(before.text)| + (if brk then 1 else 0)
      && (brk ==> Last(Lines(after.text)) == indent + t && after.lineLen == |indent| + |t|)
  {
    var before := WrapValues(vals, n - 1, indent, lineLimit);
    var v := vals[n - 1];
    var brk := before.lineLen + |v| + |Separator| > lineLimit;
    var t := v + (if n < |vals| then Separator else "");
    WrapValuesUnfold(vals, n, indent, lineLimit);
    assert NoNewline(t) by {
      assert NoNewline(v);
      NoNewlineAppend(v, if n < |vals| then Separator else "");
    }
    LinesAfterValue(before.text, indent, t, brk);
  }

  predicate LinesWithin(ls: seq<string>, limit: int)
  {
    forall i :: 0 <= i < |ls| ==> |ls[i]| <= limit
  }

  /** One value step keeps every line within the limit when the value fits where it goes. */
  lemma FitsStep(text: string, lineLen: int, indent: string, t: string, brk: bool, lineLimit: int)
    requires NoNewline(indent) && NoNewline(t)
    requires lineLen == |Last(Lines(text))| && LinesWithin(Lines(text), lineLimit)
    requires brk ==> |indent| + |t| <= lineLimit
    requires !brk ==> lineLen + |t| <= lineLimit
    ensures LinesWithin(Lines((if brk then text + "\n" + indent else text) + t), lineLimit)
  {
    LinesAfterValue(text, indent, t, brk);
  }

  /**
    When the indent and every value with a separator fit on a fresh line,
    no line of the value list is longer than the limit.
   */
  lemma {:induction false} WrapFits(vals: seq<string>, n: nat, indent: string, lineLimit: int)
    requires n <= |vals|
    requires NoNewline(indent) && NoNewlines(vals)
    requires |indent| <= lineLimit
    requires forall i :: 0 <= i < |vals| ==> |indent| + |vals[i]| + |Separator| <= lineLimit
    ensures LinesWithin(Lines(WrapValues(vals, n, indent, lineLimit).text), lineLimit)
  {
    if n == 0 {
      LinesOfLine(indent);
    } else {
      var w := WrapValues(vals, n - 1, indent, lineLimit);
      var v := vals[n - 1];
      var brk := w.lineLen + |v| + |Separator| > lineLimit;
      var sep := if n < |vals| then Separator else "";
      var t := v + sep;
      var text := (if brk then w.text + "\n" + indent else w.text) + t;
      assert WrapValues(vals, n, indent, lineLimit).text == text by {
        WrapValuesUnfold(vals, n, indent, lineLimit);
      }
      assert LinesWithin(Lines(text), lineLimit) by {
        assert LinesWithin(Lines(w.text), lineLimit) by {
          WrapFits(vals, n - 1, indent, lineLimit);
        }
        assert w.lineLen == |Last(Lines(w.text))| by {
          WrapInvariant(vals, n - 1, indent, lineLimit);
        }
        assert NoNewline(t) && |indent| + |t| <= lineLimit by {
          assert vals[n - 1] == v;
        }
        FitsStep(w.text, w.lineLen, indent, t, brk, lineLimit);
      }
    }
  }

  /** The whole value list: indented lines whose contents, joined, are the values separated by `", "`. */
  lemma ValueBlockUnwraps(vals: seq<string>, indent: nat, lineLimit: int)
    requires NoNewlines(vals)
    ensures var ls := Lines(ValueBlock(vals, indent, lineLimit));
      Indented(ls, Spaces(indent)) && Unindent(ls, indent) == Join(vals, Separator)
  {
    assert NoNewline(Spaces(indent));
    WrapInvariant(vals, |vals|, Spaces(indent), lineLimit);
    assert vals[..|vals|] == vals;
  }

  lemma {:induction false} DimBlockLines(varName: string, shape: seq<nat>, rest: string)
    requires NoNewline(varName)
    ensures Lines(DimBlock(varName, shape) + rest) == DimLines(varName, shape) + Lines(rest)
    decreases |shape|
  {
    if shape != [] {
      var init := shape[..|shape| - 1];
      var d := DimLine(varName, |shape|, shape[|shape| - 1]);
      var x := d + "\n" + rest;
      assert DimBlock(varName, shape) + rest == DimBlock(varName, init) + x;
      assert Lines(x) == [d] + Lines(rest) by {
        assert NoNewline(d) by {
          assert AllDigits(NatToString(|shape|)) && AllDigits(NatToString(shape[|shape| - 1]));
        }
        LinesConcat(d, rest);
        LinesOfLine(d);
      }
      assert Lines(DimBlock(varName, init) + x) == DimLines(varName, init) + Lines(x) by {
        DimBlockLines(varName, init, x);
      }
      assert DimLines(varName, init) + ([d] + Lines(rest)) == DimLines(varName, init) + [d] + Lines(rest);
    } else {
      assert DimBlock(varName, shape) + rest == rest;
    }
  }

  lemma NoNewlineBrackets(shape: seq<nat>)
    ensures NoNewline(Brackets(shape))
    decreases |shape|
  {
    if shape != [] {
      NoNewlineBrackets(shape[..|shape| - 1]);
      assert AllDigits(NatToString(shape[|shape| - 1]));
    }
  }

  /**
    Line by line, `create_array` emits one dimension constant per axis in
    shape order, a blank line, the declaration, the value lines, and the
    closing brace.
   */
  lemma CreateArrayLines(shape: seq<nat>, vals: seq<string>, varType: string, varName: string,
                         lineLimit: int, indent: nat)
    requires NoNewline(varType) && NoNewline(varName)
    ensures Lines(CreateArray(shape, vals, varType, varName, lineLimit, indent))
      == DimLines(varName, shape) + ["", Declaration(varType, varName, shape)]
         + Lines(ValueBlock(vals, indent, lineLimit)) + ["};", ""]
  {
    var decl := Declaration(varType, varName, shape);
    var body := ValueBlock(vals, indent, lineLimit);
    var tail := decl + "\n" + (body + "\n};\n");
    var y := "\n" + tail;
    var dims := DimLines(varName, shape);
    var bodyLines := Lines(body);
    assert Lines(y) == [""] + ([decl] + bodyLines + ["};", ""]) by {
      NoNewlineBrackets(shape);
      TailLines(decl, body);
      LinesConcat("", tail);
      assert "" + "\n" + tail == y;
      LinesOfLine("");
    }
    assert Lines(DimBlock(varName, shape) + y) == dims + Lines(y) by {
      DimBlockLines(varName, shape, y);
    }
    CreateArrayText(shape, vals, varType, varName, lineLimit, indent);
    assert dims + ([""] + ([decl] + bodyLines + ["};", ""])) == dims + ["", decl] + bodyLines + ["};", ""];
  }

  /** `create_array`'s text, grouped from the right: each part is followed by the rest. */
  lemma CreateArrayText(shape: seq<nat>, vals: seq<string>, varType: string, varName: string,
                        lineLimit: int, indent: nat)
    ensures CreateArray(shape, vals, varType, varName, lineLimit, indent)
      == DimBlock(varName, shape) + ("\n" + (Declaration(varType, varName, shape) + "\n"
         + (ValueBlock(vals, indent, lineLimit) + "\n};\n")))
  {
  }

  /** After the declaration come its own line, the value lines, the closing brace and a final empty piece. */
  lemma TailLines(decl: string, body: string)
    requires NoNewline(decl)
    ensures Lines(decl + "\n" + (body + "\n};\n")) == [decl] + Lines(body) + ["};", ""]
  {
    var closing := "};\n";
    assert Lines(closing) == ["};", ""] by {
      LinesConcat("};", "");
      assert "};" + "\n" + "" == closing;
      LinesOfLine("};");
      LinesOfLine("");
    }
    assert Lines(body + "\n" + closing) == Lines(body) + ["};", ""] by {
      LinesConcat(body, closing);
    }
    assert body + "\n};\n" == body + "\n" + closing;
    assert Lines(decl) == [decl] by {
      LinesOfLine(decl);
    }
    LinesConcat(decl, body + "\n" + closing);
  }

  /** The text ends with the closing brace line. */
  lemma CreateArrayEnds(shape: seq<nat>, vals: seq<string>, varType: string, varName: string,
                        lineLimit: int, indent: nat)
    ensures var c := CreateArray(shape, vals, varType, varName, lineLimit, indent);
      |c| >= 4 && c[|c| - 4..] == "\n};\n"
  {
  }

  // ---------------------------------------------------------------- create_header

  /** `str.upper()` on ASCII letters; every other character passes through. */
  function UpperChar(c: char): char
  {
    if 'a' <= c <= 'z' then ((c as int) - 32) as char else c
  }

  function Upper(s: string): (r: string)
    ensures |r| == |s|
    ensures forall i :: 0 <= i < |s| ==> r[i] == UpperChar(s[i])
    decreases |s|
  {
    if s == [] then [] else Upper(s[..|s| - 1]) + [UpperChar(s[|s| - 1])]
  }

  /** `name.upper() + '_H'`, with no other sanitising. */
  function GuardName(name: string): string
  {
    Upper(name) + "_H"
  }

  function HeaderPrefix(name: string): string
  {
    "#ifndef " + GuardName(name) + "\n" + "#define " + GuardName(name) + "\n\n"
  }

  function HeaderSuffix(name: string): string
  {
    "\n#endif //" + GuardName(name)
  }

  /** Recovers the code from a header produced for `name`. */
  function StripHeader(h: string, name: string): Option<string>
  {
    var p := HeaderPrefix(name);
    var q := HeaderSuffix(name);
    if |p| + |q| <= |h| && h[..|p|] == p && h[|h| - |q|..] == q
    then Some(h[|p|..|h| - |q|])
    else None
  }

  /** `create_header(c_code, name)`: the code is recovered by stripping the guard. */
  function CreateHeader(cCode: string, name: string): (h: string)
    ensures StripHeader(h, name) == Some(cCode)
  {
    var g := GuardName(name);
    var h := "#ifndef " + g + "\n" + "#define " + g + "\n\n" + cCode + "\n#endif //" + g;
    assert h == HeaderPrefix(name) + cCode + HeaderSuffix(name);
    h
  }

  /** Anything that strips to some code is exactly the header of that code. */
  lemma StripHeaderOnlyHeaders(h: string, name: string, cCode: string)
    requires StripHeader(h, name) == Some(cCode)
    ensures h == CreateHeader(cCode, name)
  {
    var p := HeaderPrefix(name);
    var q := HeaderSuffix(name);
    assert h == h[..|p|] + h[|p|..|h| - |q|] + h[|h| - |q|..];
  }

  /** The guard keeps a hyphen: `md_model-moving` is guarded by `MD_MODEL-MOVING_H`. */
  lemma GuardKeepsHyphen()
    ensures GuardName("md_model-moving") == "MD_MODEL-MOVING_H"
  {
    var r := Upper("md_model-moving");
    assert r == "MD_MODEL-MOVING" by {
      assert |r| == 15;
      forall i | 0 <= i < 15 ensures r[i] == "MD_MODEL-MOVING"[i] {
      }
    }
  }
}
