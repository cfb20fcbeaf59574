/** Inline conversion: formulas are copied, everything else is escaped for LaTeX. Nothing is lost:
    the original text can be read back from the output. */
module TexText {
  import opened Sequences

  // ---------- searching ----------

  // str.find: the least index from which c occurs at or after `from`, or -1.
  function Find(c: char, t: string, from: nat): (i: int)
    requires from <= |t|
    ensures i == -1 || (from <= i < |t| && t[i] == c)
    ensures forall k :: from <= k < (if i < 0 then |t| else i) ==> t[k] != c
    decreases |t| - from
  {
    if from == |t| then -1 else if t[from] == c then from else Find(c, t, from + 1)
  }

  predicate PairAt(a: char, b: char, t: string, k: int) {
    0 <= k && k + 1 < |t| && t[k] == a && t[k + 1] == b
  }

  // The same for a two-character text.
  function FindPair(a: char, b: char, t: string, from: nat): (i: int)
    requires from <= |t|
    ensures i == -1 || (from <= i && PairAt(a, b, t, i))
    ensures forall k :: from <= k < (if i < 0 then |t| else i) ==> !PairAt(a, b, t, k)
    decreases |t| - from
  {
    if from == |t| then -1 else if PairAt(a, b, t, from) then from else FindPair(a, b, t, from + 1)
  }

  // ---------- escaping ----------

  function Special(c: char): string {
    if c == '\\' then "\\textbackslash{}"
    else if c == '~' then "\\textasciitilde{}"
    else if c == '^' then "\\textasciicircum{}"
    else if c in "&%$#_{}" then ['\\', c]
    else [c]
  }

  // A pair of backticks becomes \texttt{...}; a backtick without a partner stays.
  function Escaped(t: string): string
    decreases |t|
  {
    if t == "" then ""
    else
      var j := if t[0] == '`' then Find('`', t, 1) else -1;
      if j >= 0 then ("\\texttt{" + Escaped(t[1..j]) + "}") + Escaped(t[j + 1..])
      else Special(t[0]) + Escaped(t[1..])
  }

  method EscapePlain(text: string) returns (out: string)
    ensures out == Escaped(text)
    decreases |text|
  {
    hide Special;
    out := "";
    var i := 0;
    while i < |text|
      invariant 0 <= i <= |text|
      invariant out + Escaped(text[i..]) == Escaped(text)
    {
      var rest := text[i..];
      var piece := Special(rest[0]);
      var step := 1;
      if rest[0] == '`' {
        var j := Find('`', rest, 1);
        if j != -1 {
          var code := EscapePlain(rest[1..j]);
          piece, step := "\\texttt{" + code + "}", j + 1;
        }
      }
      assert Escaped(rest) == piece + Escaped(rest[step..]);
      assert rest[step..] == text[i + step..];
      Regroup(out, piece, Escaped(rest[step..]));
      hide Escaped;
      out, i := out + piece, i + step;
    }
  }

  // ---------- formulas ----------

  datatype Segment = Formula(text: string) | Prose(text: string)

  // Where the first formula would begin: at `\(` or at `$`, whichever comes first, or -1.
  function FormulaStart(t: string): (start: int)
    ensures start == -1 || (0 <= start < |t| && (t[start] == '$' || PairAt('\\', '(', t, start)))
  {
    var p, q := FindPair('\\', '(', t, 0), Find('$', t, 0);
    if p < 0 || (0 <= q < p) then q else p
  }

  // One past its closing delimiter, or -1.
  function FormulaEnd(t: string, start: nat): (end: int)
    requires start < |t| && (t[start] == '$' || PairAt('\\', '(', t, start))
    ensures end == -1 || start < end <= |t|
  {
    if t[start] == '$' then
      var e := Find('$', t, start + 1); if e < 0 then -1 else e + 1
    else
      var e := FindPair('\\', ')', t, start + 2); if e < 0 then -1 else e + 2
  }

  function Lead(t: string, start: nat): seq<Segment>
    requires start <= |t|
  {
    if start > 0 then [Prose(t[..start])] else []
  }

  function Split(t: string): seq<Segment>
    decreases |t|
  {
    if t == "" then [] else
      var start := FormulaStart(t);
      if start < 0 then [Prose(t)] else
        var end := FormulaEnd(t, start);
        if end < 0 then Lead(t, start) + [Prose(t[start..])]
        else Lead(t, start) + ([Formula(t[start..end])] + Split(t[end..]))
  }

  lemma SplitCases(t: string)
    requires t != ""
    ensures FormulaStart(t) < 0 ==> Split(t) == [Prose(t)]
    ensures FormulaStart(t) >= 0 && FormulaEnd(t, FormulaStart(t)) < 0 ==>
              Split(t) == Lead(t, FormulaStart(t)) + [Prose(t[FormulaStart(t)..])]
    ensures FormulaStart(t) >= 0 && FormulaEnd(t, FormulaStart(t)) >= 0 ==>
              Split(t) == Lead(t, FormulaStart(t)) +
                          ([Formula(t[FormulaStart(t)..FormulaEnd(t, FormulaStart(t))])]
                            + Split(t[FormulaEnd(t, FormulaStart(t))..]))
  {
    hide FormulaStart, FormulaEnd, Lead;
  }

  // The segments up to the end of the first formula of t, and what is left after it.
  method FirstSegments(t: string) returns (segments: seq<Segment>, rest: string)
    requires t != ""
    ensures Split(t) == segments + Split(rest) && |rest| < |t|
  {
    hide FormulaStart, FormulaEnd, Lead, Split;
    SplitCases(t);
    NothingToSplit();
    rest := "";
    var start := FormulaStart(t);
    if start < 0 {
      return [Prose(t)], "";
    }
    var end := FormulaEnd(t, start);
    if end < 0 {
      return Lead(t, start) + [Prose(t[start..])], "";
    }
    segments, rest := Lead(t, start) + [Formula(t[start..end])], t[end..];
    Regroup(Lead(t, start), [Formula(t[start..end])], Split(rest));
  }

  lemma NothingToSplit()
    ensures Split("") == []
  {
  }

  method SplitMathSegments(text: string) returns (segments: seq<Segment>)
    ensures segments == Split(text)
  {
    hide Split;
    segments := [];
    var rest := text;
    while rest != ""
      invariant segments + Split(rest) == Split(text)
      decreases |rest|
    {
      var more, rest' := FirstSegments(rest);
      Regroup(segments, more, Split(rest'));
      segments, rest := segments + more, rest';
    }
    NothingToSplit();
  }

  function Rendered(s: Segment): string {
    match s
    case Formula(f) => f
    case Prose(p) => Escaped(p)
  }

  function Inlined(segments: seq<Segment>): string {
    if segments == [] then "" else Rendered(segments[0]) + Inlined(segments[1..])
  }

  method ConvertInline(text: string) returns (out: string)
    ensures out == Inlined(Split(text))
  {
    hide Escaped, Split;
    var segments := SplitMathSegments(text);
    out := "";
    for k := 0 to |segments|
      invariant out + Inlined(segments[k..]) == Inlined(segments)
    {
      assert segments[k..][1..] == segments[k + 1..];
      var piece;
      match segments[k] {
        case Formula(f) => piece := f;
        case Prose(p) => piece := EscapePlain(p);
      }
      Regroup(out, piece, Inlined(segments[k + 1..]));
      out := out + piece;
    }
  }

  // ---------- the partition is lossless ----------

  function Source(segments: seq<Segment>): string {
    if segments == [] then "" else segments[0].text + Source(segments[1..])
  }

  // A formula has matching delimiters and does not contain its closing one before the end.
  predicate Delimited(f: string) {
    var n := |f|;
    (n >= 2 && f[0] == '$' && f[n - 1] == '$' && forall k :: 0 < k < n - 1 ==> f[k] != '$') ||
    (n >= 4 && PairAt('\\', '(', f, 0) && PairAt('\\', ')', f, n - 2) &&
     forall k :: 2 <= k < n - 2 ==> !PairAt('\\', ')', f, k))
  }

  lemma FormulaDelimited(t: string, start: nat)
    requires start < |t| && (t[start] == '$' || PairAt('\\', '(', t, start)) && FormulaEnd(t, start) >= 0
    ensures Delimited(t[start..FormulaEnd(t, start)])
  {
    var end := FormulaEnd(t, start);
    var f := t[start..end];
    if t[start] == '$' {
      assert forall k :: 0 < k < |f| - 1 ==> f[k] == t[start + k];
    } else {
      assert forall k :: 2 <= k < |f| - 2 ==> PairAt('\\', ')', f, k) ==> PairAt('\\', ')', t, start + k);
    }
  }

  lemma SourceOne(s: Segment)
    ensures Source([s]) == s.text
  {
  }

  lemma SourceCons(s: Segment, rest: seq<Segment>)
    ensures Source([s] + rest) == s.text + Source(rest)
  {
    assert ([s] + rest)[1..] == rest;
  }

  lemma SourceOfLead(t: string, start: nat, rest: seq<Segment>)
    requires start <= |t|
    ensures Source(Lead(t, start) + rest) == t[..start] + Source(rest)
  {
    if start > 0 {
      SourceCons(Prose(t[..start]), rest);
    } else {
      assert Lead(t, start) + rest == rest;
    }
  }

  lemma Cut(t: string, a: nat, b: nat)
    requires a <= b <= |t|
    ensures t[..a] + (t[a..b] + t[b..]) == t && t[..a] + t[a..] == t
  {
  }

  // The segments concatenate to the text ...
  lemma {:induction false} SplitConcatenates(t: string)
    ensures Source(Split(t)) == t
    decreases |t|
  {
    if t != "" {
      hide FormulaStart, FormulaEnd, Split, Source, Lead;
      SplitCases(t);
      var start := FormulaStart(t);
      if start < 0 {
        SourceOne(Prose(t));
      } else {
        var end := FormulaEnd(t, start);
        if end < 0 {
          SourceOfLead(t, start, [Prose(t[start..])]);
          SourceOne(Prose(t[start..]));
          Cut(t, start, |t|);
        } else {
          var f := Formula(t[start..end]);
          SplitConcatenates(t[end..]);
          SourceOfLead(t, start, [f] + Split(t[end..]));
          SourceCons(f, Split(t[end..]));
          Cut(t, start, end);
        }
      }
    }
  }

  // ... and every formula among them is delimited.
  lemma {:induction false} SplitDelimits(t: string)
    ensures forall s :: s in Split(t) && s.Formula? ==> Delimited(s.text)
    decreases |t|
  {
    if t != "" {
      hide FormulaStart, FormulaEnd, Delimited, Split, Source;
      SplitCases(t);
      var start := FormulaStart(t);
      if start >= 0 {
        assert forall s :: s in Lead(t, start) ==> s.Prose?;
        var end := FormulaEnd(t, start);
        if end >= 0 {
          FormulaDelimited(t, start);
          SplitDelimits(t[end..]);
        }
      }
    }
  }

  // ---------- reading back ----------

  // The text that the LaTeX at the start of t stands for, and its length: a formula stands for
  // itself, every other token for one character. A bare `}` can only close a \texttt.
  function Token(t: string): (r: (string, nat))
    requires t != ""
    ensures 0 < r.1 <= |t|
  {
    if t[0] == '$' && Find('$', t, 1) >= 0 then
      var n := Find('$', t, 1) + 1; (t[..n], n)
    else if PairAt('\\', '(', t, 0) && FindPair('\\', ')', t, 2) >= 0 then
      var n := FindPair('\\', ')', t, 2) + 2; (t[..n], n)
    else if "\\textbackslash{}" <= t then ("\\", 16)
    else if "\\textasciitilde{}" <= t then ("~", 17)
    else if "\\textasciicircum{}" <= t then ("^", 18)
    else if "\\texttt{" <= t then ("`", 8)
    else if t[0] == '\\' && |t| >= 2 then ([t[1]], 2)
    else if t[0] == '}' then ("`", 1)
    else ([t[0]], 1)
  }

  function ReadBack(t: string): string
    decreases |t|
  {
    if t == "" then "" else
      var (s, n) := Token(t);
      s + ReadBack(t[n..])
  }

  lemma ReadToken(e: string, s: string, rest: string)
    requires e != "" && Token(e + rest) == (s, |e|)
    ensures ReadBack(e + rest) == s + ReadBack(rest)
  {
    assert (e + rest)[|e|..] == rest;
  }

  lemma SpecialToken(c: char, rest: string)
    ensures Special(c) != "" && Token(Special(c) + rest) == ([c], |Special(c)|)
  {
    var t := Special(c) + rest;
    assert t[0] == Special(c)[0];
    if |Special(c)| > 1 {
      assert t[1] == Special(c)[1];
      if |Special(c)| > 2 {
        assert t[5] == Special(c)[5] && t[10] == Special(c)[10];
        assert Special(c) <= t;
      }
    }
  }

  lemma TextttToken(rest: string)
    ensures Token("\\texttt{" + rest) == ("`", 8)
    ensures Token("}" + rest) == ("`", 1)
  {
    var t := "\\texttt{" + rest;
    assert t[5] == 't' && t[1] == 't';
    assert "\\texttt{" <= t;
  }

  function Partner(t: string): int
    requires t != ""
  {
    if t[0] == '`' then Find('`', t, 1) else -1
  }

  // Two readings one after the other.
  lemma ReadBoth(e: string, s: string, e': string, s': string, rest: string)
    requires ReadBack(e + (e' + rest)) == s + ReadBack(e' + rest)
    requires ReadBack(e' + rest) == s' + ReadBack(rest)
    ensures ReadBack((e + e') + rest) == (s + s') + ReadBack(rest)
  {
    hide ReadBack;
    Regroup(e, e', rest);
    Regroup(s, s', ReadBack(rest));
  }

  lemma {:induction false} ReadEscaped(t: string, rest: string)
    ensures ReadBack(Escaped(t) + rest) == t + ReadBack(rest)
    decreases |t|
  {
    if t == "" {
      assert Escaped(t) + rest == rest && t + ReadBack(rest) == ReadBack(rest);
    } else if Partner(t) >= 0 {
      ReadPair(t, rest);
    } else {
      hide ReadBack;
      assert Escaped(t) == Special(t[0]) + Escaped(t[1..]);
      assert t == [t[0]] + t[1..];
      ReadEscaped(t[1..], rest);
      ReadSpecial(t[0], Escaped(t[1..]) + rest);
      ReadBoth(Special(t[0]), [t[0]], Escaped(t[1..]), t[1..], rest);
    }
  }

  lemma EscapedPair(t: string)
    requires t != "" && Partner(t) >= 0
    ensures var j := Partner(t);
            && 1 <= j < |t| && t[0] == '`' == t[j]
            && Escaped(t) == ("\\texttt{" + Escaped(t[1..j]) + "}") + Escaped(t[j + 1..])
  {
    hide Find, Special;
  }

  lemma PairParts(t: string, j: nat)
    requires 1 <= j < |t| && t[0] == '`' == t[j]
    ensures t == ("`" + t[1..j] + "`") + t[j + 1..]
  {
  }

  lemma ReadGroup(code: string, tail: string, rest: string)
    requires ReadBack(Escaped(code) + ("}" + (Escaped(tail) + rest))) == code + ReadBack("}" + (Escaped(tail) + rest))
    requires ReadBack(Escaped(tail) + rest) == tail + ReadBack(rest)
    ensures ReadBack((("\\texttt{" + Escaped(code) + "}") + Escaped(tail)) + rest)
            == (("`" + code + "`") + tail) + ReadBack(rest)
  {
    hide ReadBack, Escaped;
    ReadTexttt(code, Escaped(tail) + rest);
    ReadBoth("\\texttt{" + Escaped(code) + "}", "`" + code + "`", Escaped(tail), tail, rest);
  }

  lemma {:induction false} ReadPair(t: string, rest: string)
    requires t != "" && Partner(t) >= 0
    ensures ReadBack(Escaped(t) + rest) == t + ReadBack(rest)
    decreases |t|, 0
  {
    hide ReadBack, Escaped, Partner, Find;
    var j := Partner(t);
    EscapedPair(t);
    PairParts(t, j);
    var code, tail := t[1..j], t[j + 1..];
    ReadEscaped(code, "}" + (Escaped(tail) + rest));
    ReadEscaped(tail, rest);
    ReadGroup(code, tail, rest);
  }

  lemma ReadSpecial(c: char, rest: string)
    ensures ReadBack(Special(c) + rest) == [c] + ReadBack(rest)
  {
    hide Token, Special;
    SpecialToken(c, rest);
    ReadToken(Special(c), [c], rest);
  }

  // A \texttt group reads as its text between backticks.
  lemma ReadTexttt(code: string, rest: string)
    requires ReadBack(Escaped(code) + ("}" + rest)) == code + ReadBack("}" + rest)
    ensures ReadBack(("\\texttt{" + Escaped(code) + "}") + rest) == ("`" + code + "`") + ReadBack(rest)
  {
    hide ReadBack, Token, Escaped;
    var inner := Escaped(code) + ("}" + rest);
    TextttToken(inner);
    ReadToken("\\texttt{", "`", inner);
    TextttToken(rest);
    ReadToken("}", "`", rest);
    assert ("\\texttt{" + Escaped(code) + "}") + rest == "\\texttt{" + inner;
    assert "`" + (code + ("`" + ReadBack(rest))) == ("`" + code + "`") + ReadBack(rest);
  }

  lemma ReadFormula(f: string, rest: string)
    requires Delimited(f)
    ensures ReadBack(f + rest) == f + ReadBack(rest)
  {
    var t, n := f + rest, |f|;
    assert t[..n] == f && t[0] == f[0];
    if f[0] == '$' {
      assert t[n - 1] == '$' && forall k :: 0 < k < n - 1 ==> t[k] == f[k];
    } else {
      assert PairAt('\\', ')', t, n - 2) && PairAt('\\', '(', t, 0);
      assert forall k :: 2 <= k < n - 2 ==> !PairAt('\\', ')', f, k) ==> !PairAt('\\', ')', t, k);
    }
    assert Token(t) == (f, n);
    ReadToken(f, f, rest);
  }

  lemma {:induction false} ReadInlined(segments: seq<Segment>)
    requires forall s :: s in segments && s.Formula? ==> Delimited(s.text)
    ensures ReadBack(Inlined(segments)) == Source(segments)
  {
    if segments != [] {
      hide ReadBack, Delimited, Escaped;
      var s, rest := segments[0], Inlined(segments[1..]);
      ReadInlined(segments[1..]);
      if s.Formula? {
        ReadFormula(s.text, rest);
      } else {
        ReadEscaped(s.text, rest);
      }
    }
  }

  // Escaping loses nothing: neither special characters nor backticks, paired or not.
  lemma EscapeIsReversible(t: string)
    ensures ReadBack(Escaped(t)) == t
  {
    ReadEscaped(t, "");
    assert Escaped(t) + "" == Escaped(t);
  }

  // Nor does the whole inline conversion.
  lemma InlineIsReversible(t: string)
    ensures ReadBack(Inlined(Split(t))) == t
  {
    SplitConcatenates(t);
    SplitDelimits(t);
    ReadInlined(Split(t));
  }
}