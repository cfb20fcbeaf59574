/** Canonical JSON text: fields in key order, no white space, strings escaped as section 7 of
    RFC 8259 requires. The point is that text equality decides value equality. */
module CanonicalJson {
  import opened Sequences
  import opened Wrappers

  // Text is what the host language has: a sequence of 16-bit code units, surrogates included.
  type CodeUnit = u: int | 0 <= u < 0x1_0000
  type Text = seq<CodeUnit>

  datatype Field = Field(key: Text, value: Json)

  // Fields are in insertion order. `NotFinite` stands for NaN and the infinities, `Undefined`
  // for everything that is not a JSON value at all.
  datatype Json =
    | Null
    | Bool(b: bool)
    | Number(n: int)
    | NotFinite
    | Undefined
    | Str(s: Text)
    | Array(items: seq<Json>)
    | Object(fields: seq<Field>)

  datatype Error = CanonicalNumber | CanonicalValue

  // ---------- strings ----------

  predicate HighSurrogate(c: CodeUnit) {
    0xD800 <= c <= 0xDBFF
  }

  predicate LowSurrogate(c: CodeUnit) {
    0xDC00 <= c <= 0xDFFF
  }

  function HexDigit(d: int): CodeUnit
    requires 0 <= d < 16
  {
    if d < 10 then 48 + d else 87 + d
  }

  function Hex4(c: CodeUnit): Text {
    [HexDigit(c / 0x1000), HexDigit(c / 0x100 % 16), HexDigit(c / 16 % 16), HexDigit(c % 16)]
  }

  function Escape(c: CodeUnit): Text {
    if c == 8 then [92, 98]
    else if c == 9 then [92, 116]
    else if c == 10 then [92, 110]
    else if c == 12 then [92, 102]
    else if c == 13 then [92, 114]
    else if c == 34 || c == 92 then [92, c]
    else if c < 32 || HighSurrogate(c) || LowSurrogate(c) then [92, 117] + Hex4(c)
    else [c]
  }

  // A surrogate pair is copied; a surrogate without its partner is escaped.
  function Body(s: Text): Text {
    if s == [] then []
    else if |s| >= 2 && HighSurrogate(s[0]) && LowSurrogate(s[1]) then s[..2] + Body(s[2..])
    else Escape(s[0]) + Body(s[1..])
  }

  function Quote(s: Text): Text {
    [34] + (Body(s) + [34])
  }

  // ---------- reading a string back ----------

  function HexValue(u: CodeUnit): int {
    if u < 58 then u - 48 else u - 87
  }

  // The code unit written at the start of t, and how many units it takes.
  function Head(t: Text): (int, nat)
    requires |t| >= 1
  {
    if t[0] != 92 || |t| < 2 then (t[0], 1)
    else if t[1] == 98 then (8, 2)
    else if t[1] == 116 then (9, 2)
    else if t[1] == 110 then (10, 2)
    else if t[1] == 102 then (12, 2)
    else if t[1] == 114 then (13, 2)
    else if t[1] == 117 && |t| >= 6 then
      (((HexValue(t[2]) * 16 + HexValue(t[3])) * 16 + HexValue(t[4])) * 16 + HexValue(t[5]), 6)
    else (t[1], 2)
  }

  // The string up to the next bare quotation mark, and the text after it.
  function Unquote(t: Text): (seq<int>, Text)
    decreases |t|
  {
    if t == [] then ([], [])
    else if t[0] == 34 then ([], t[1..])
    else
      var (u, n) := Head(t);
      var (s, rest) := Unquote(t[n..]);
      ([u] + s, rest)
  }

  lemma HeadOfEscape(c: CodeUnit, t: Text)
    ensures Escape(c) != [] && Escape(c)[0] != 34
    ensures Head(Escape(c) + t) == (c, |Escape(c)|)
  {
    if (c < 32 || HighSurrogate(c) || LowSurrogate(c)) && |Escape(c)| == 6 {
      var e := Escape(c) + t;
      assert e[2..6] == Hex4(c);
      HexRoundTrip(c);
    }
  }

  lemma HexRoundTrip(c: CodeUnit)
    ensures var h := Hex4(c);
            ((HexValue(h[0]) * 16 + HexValue(h[1])) * 16 + HexValue(h[2])) * 16 + HexValue(h[3]) == c
  {
    assert forall d :: 0 <= d < 16 ==> HexValue(HexDigit(d)) == d;
    assert c / 0x100 == (c / 16) / 16 && c / 0x1000 == (c / 0x100) / 16;
  }

  lemma UnquoteUnit(e: Text, u: CodeUnit, rest: Text)
    requires e != [] && e[0] != 34 && Head(e + rest) == (u, |e|)
    ensures Unquote(e + rest) == ([u] + Unquote(rest).0, Unquote(rest).1)
  {
    assert (e + rest)[|e|..] == rest;
  }

  lemma UnquotePair(a: CodeUnit, b: CodeUnit, rest: Text)
    requires HighSurrogate(a) && LowSurrogate(b)
    ensures Unquote([a, b] + rest) == ([a, b] + Unquote(rest).0, Unquote(rest).1)
  {
    BareHead(b, rest);
    UnquoteUnit([b], b, rest);
    BareHead(a, [b] + rest);
    UnquoteUnit([a], a, [b] + rest);
    hide Unquote, Head;
    assert [a, b] + rest == [a] + ([b] + rest);
    var s := Unquote(rest).0;
    assert [a] + ([b] + s) == [a, b] + s;
  }

  lemma UnquoteEscaped(c: CodeUnit, rest: Text)
    ensures Unquote(Escape(c) + rest) == ([c] + Unquote(rest).0, Unquote(rest).1)
  {
    hide Unquote, Head, Escape;
    HeadOfEscape(c, rest);
    UnquoteUnit(Escape(c), c, rest);
  }

  lemma {:induction false} UnquoteBody(s: Text, t: Text)
    ensures Unquote(Body(s) + ([34] + t)) == (s, t)
  {
    hide Unquote, Head, Escape;
    if s == [] {
      EmptyString(t);
      assert Body(s) + ([34] + t) == [34] + t;
    } else if |s| >= 2 && HighSurrogate(s[0]) && LowSurrogate(s[1]) {
      UnquoteBody(s[2..], t);
      UnquotePair(s[0], s[1], Body(s[2..]) + ([34] + t));
      Regroup([s[0], s[1]], Body(s[2..]), [34] + t);
      assert s[..2] == [s[0], s[1]] && s == [s[0], s[1]] + s[2..];
    } else {
      UnquoteBody(s[1..], t);
      UnquoteEscaped(s[0], Body(s[1..]) + ([34] + t));
      Regroup(Escape(s[0]), Body(s[1..]), [34] + t);
      assert s == [s[0]] + s[1..];
    }
  }

  lemma EmptyString(t: Text)
    ensures Unquote([34] + t) == ([], t)
  {
  }

  lemma BareHead(c: CodeUnit, t: Text)
    requires c != 92
    ensures Head([c] + t) == (c, 1)
  {
  }

  lemma QuotesAgree(s: Text, s': Text, t: Text, t': Text)
    requires Quote(s) + t == Quote(s') + t'
    ensures s == s' && t == t'
  {
    var a, b := Body(s) + ([34] + t), Body(s') + ([34] + t');
    assert (Quote(s) + t)[1..] == a && (Quote(s') + t')[1..] == b;
    UnquoteBody(s, t);
    UnquoteBody(s', t');
  }

  // ---------- numbers ----------

  predicate IsDigit(u: CodeUnit) {
    48 <= u < 58
  }

  function Natural(n: nat): Text {
    if n < 10 then [48 + n] else Natural(n / 10) + [48 + n % 10]
  }

  function Decimal(n: int): Text {
    if n < 0 then [45] + Natural(-n) else Natural(n)
  }

  function LeadingDigits(t: Text): Text {
    if t != [] && IsDigit(t[0]) then [t[0]] + LeadingDigits(t[1..]) else []
  }

  function NaturalValue(t: Text): int {
    if t == [] then 0 else NaturalValue(t[..|t| - 1]) * 10 + t[|t| - 1] - 48
  }

  // The text after a value: it does not continue a number.
  predicate Delimited(t: Text) {
    t == [] || !IsDigit(t[0])
  }

  lemma {:induction false} ValueOfNatural(n: nat)
    ensures Natural(n) != [] && (forall i :: 0 <= i < |Natural(n)| ==> IsDigit(Natural(n)[i]))
    ensures NaturalValue(Natural(n)) == n
  {
    if n < 10 {
      assert NaturalValue([48 + n]) == NaturalValue([]) * 10 + n;
    } else {
      ValueOfNatural(n / 10);
      var s := Natural(n);
      assert s[..|s| - 1] == Natural(n / 10);
    }
  }

  lemma {:induction false} LeadingDigitsOf(d: Text, t: Text)
    requires Delimited(t) && forall i :: 0 <= i < |d| ==> IsDigit(d[i])
    ensures LeadingDigits(d + t) == d
  {
    if d == [] {
      assert d + t == t;
    } else {
      assert (d + t)[1..] == d[1..] + t;
      LeadingDigitsOf(d[1..], t);
    }
  }

  lemma NaturalsAgree(m: nat, n: nat, t: Text, t': Text)
    requires Delimited(t) && Delimited(t') && Natural(m) + t == Natural(n) + t'
    ensures m == n && t == t'
  {
    ValueOfNatural(m);
    ValueOfNatural(n);
    LeadingDigitsOf(Natural(m), t);
    LeadingDigitsOf(Natural(n), t');
    SuffixesAgree(Natural(m), t, t');
  }

  lemma SuffixesAgree(a: Text, t: Text, t': Text)
    requires a + t == a + t'
    ensures t == t'
  {
    assert (a + t)[|a|..] == t && (a + t')[|a|..] == t';
  }

  lemma DecimalHead(n: int, t: Text)
    ensures |Decimal(n) + t| > 0
    ensures if n < 0 then (Decimal(n) + t)[0] == 45 && (Decimal(n) + t)[1..] == Natural(-n) + t
            else IsDigit((Decimal(n) + t)[0])
  {
    ValueOfNatural(if n < 0 then -n else n);
  }

  lemma DecimalsAgree(m: int, n: int, t: Text, t': Text)
    requires Delimited(t) && Delimited(t') && Decimal(m) + t == Decimal(n) + t'
    ensures m == n && t == t'
  {
    hide Natural, Delimited;
    DecimalHead(m, t);
    DecimalHead(n, t');
    if m < 0 {
      NaturalsAgree(-m, -n, t, t');
    } else {
      NaturalsAgree(m, n, t, t');
    }
  }

  // ---------- key order ----------

  predicate Less(a: Text, b: Text) {
    b != [] && (a == [] || a[0] < b[0] || (a[0] == b[0] && Less(a[1..], b[1..])))
  }

  lemma {:induction false} LessTrichotomy(a: Text, b: Text)
    ensures Less(a, b) || Less(b, a) || a == b
  {
    if a != [] && b != [] && a[0] == b[0] {
      LessTrichotomy(a[1..], b[1..]);
      assert a == [a[0]] + a[1..] && b == [b[0]] + b[1..];
    }
  }

  lemma {:induction false} LessTransitive(a: Text, b: Text, c: Text)
    requires Less(a, b) && Less(b, c)
    ensures Less(a, c)
  {
    if a != [] && a[0] == b[0] == c[0] {
      LessTransitive(a[1..], b[1..], c[1..]);
    }
  }

  lemma {:induction false} LessIrreflexive(a: Text)
    ensures !Less(a, a)
  {
    if a != [] {
      LessIrreflexive(a[1..]);
    }
  }

  function Insert(f: Field, fs: seq<Field>): (r: seq<Field>)
    ensures multiset(r) == multiset(fs) + multiset{f}
  {
    if fs == [] then [f]
    else if Less(f.key, fs[0].key) then [f] + fs
    else
      assert fs == [fs[0]] + fs[1..];
      [fs[0]] + Insert(f, fs[1..])
  }

  function SortFields(fs: seq<Field>): (r: seq<Field>)
    ensures multiset(r) == multiset(fs)
    ensures forall f :: f in r <==> f in fs
  {
    if fs == [] then [] else
      assert fs == [fs[0]] + fs[1..];
      var r := Insert(fs[0], SortFields(fs[1..]));
      assert forall f :: f in r <==> f in multiset(r);
      assert forall f :: f in fs <==> f in multiset(fs);
      r
  }

  // ---------- the serializer ----------

  function Canon(v: Json): Result<Text, Error>
    decreases v
  {
    match v
    case Null => Ok([110, 117, 108, 108])
    case Bool(b) => Ok(if b then [116, 114, 117, 101] else [102, 97, 108, 115, 101])
    case Number(n) => Ok(Decimal(n))
    case NotFinite => Err(CanonicalNumber)
    case Undefined => Err(CanonicalValue)
    case Str(s) => Ok(Quote(s))
    case Array(items) =>
      (match CanonItems(items, true)
       case Err(e) => Err(e)
       case Ok(t) => Ok([91] + t))
    case Object(fields) =>
      (match CanonFields(v, SortFields(fields), true)
       case Err(e) => Err(e)
       case Ok(t) => Ok([123] + t))
  }

  // The rest of an array: a comma before every item but the first, and the closing bracket.
  function CanonItems(items: seq<Json>, first: bool): Result<Text, Error>
    decreases items
  {
    if items == [] then Ok([93]) else
      match Canon(items[0])
      case Err(e) => Err(e)
      case Ok(t) =>
        match CanonItems(items[1..], false)
        case Err(e) => Err(e)
        case Ok(rest) => Ok((if first then [] else [44]) + (t + rest))
  }

  lemma FieldIsSmaller(parent: Json, f: Field)
    requires parent.Object? && f in parent.fields
    ensures f.value < parent
  {
    var i :| 0 <= i < |parent.fields| && parent.fields[i] == f;
    assert parent.fields[i] < parent;
  }

  // Likewise the rest of an object, whose fields all belong to `parent`.
  function CanonFields(parent: Json, fs: seq<Field>, first: bool): Result<Text, Error>
    requires parent.Object? && forall f :: f in fs ==> f in parent.fields
    decreases parent, |fs|
  {
    if fs == [] then Ok([125]) else
      FieldIsSmaller(parent, fs[0]);
      match Canon(fs[0].value)
      case Err(e) => Err(e)
      case Ok(t) =>
        match CanonFields(parent, fs[1..], false)
        case Err(e) => Err(e)
        case Ok(rest) => Ok((if first then [] else [44]) + (Quote(fs[0].key) + ([58] + (t + rest))))
  }

  // ---------- the values themselves ----------

  datatype Value =
    | VNull
    | VBool(b: bool)
    | VNumber(n: int)
    | VNotFinite
    | VUndefined
    | VStr(s: Text)
    | VArray(items: seq<Value>)
    | VObject(fields: map<Text, Value>)

  // What a value is once field order is forgotten.
  function Abs(v: Json): Value {
    match v
    case Null => VNull
    case Bool(b) => VBool(b)
    case Number(n) => VNumber(n)
    case NotFinite => VNotFinite
    case Undefined => VUndefined
    case Str(s) => VStr(s)
    case Array(items) => VArray(AbsItems(items))
    case Object(fields) => VObject(AbsFields(fields))
  }

  function AbsItems(items: seq<Json>): seq<Value> {
    if items == [] then [] else [Abs(items[0])] + AbsItems(items[1..])
  }

  function AbsFields(fs: seq<Field>): map<Text, Value> {
    if fs == [] then map[] else AbsFields(fs[1..])[fs[0].key := Abs(fs[0].value)]
  }

  predicate DistinctKeys(fs: seq<Field>) {
    forall i, j :: 0 <= i < j < |fs| ==> fs[i].key != fs[j].key
  }

  // Every object has each key once, as the host language guarantees.
  predicate WellFormed(v: Json) {
    match v
    case Array(items) => forall i :: 0 <= i < |items| ==> WellFormed(items[i])
    case Object(fields) =>
      DistinctKeys(fields) && forall i :: 0 <= i < |fields| ==> WellFormed(fields[i].value)
    case _ => true
  }

  predicate Serializable(v: Json) {
    match v
    case NotFinite => false
    case Undefined => false
    case Array(items) => forall i :: 0 <= i < |items| ==> Serializable(items[i])
    case Object(fields) => forall i :: 0 <= i < |fields| ==> Serializable(fields[i].value)
    case _ => true
  }

  // ---------- sorting keeps the object ----------

  predicate Sorted(fs: seq<Field>) {
    forall i, j :: 0 <= i < j < |fs| ==> Less(fs[i].key, fs[j].key)
  }

  predicate HasKey(fs: seq<Field>, k: Text) {
    exists i :: 0 <= i < |fs| && fs[i].key == k
  }

  lemma {:induction false} KeysOf(fs: seq<Field>, k: Text)
    ensures k in AbsFields(fs) <==> HasKey(fs, k)
  {
    if fs != [] {
      KeysOf(fs[1..], k);
      assert HasKey(fs, k) <==> fs[0].key == k || HasKey(fs[1..], k) by {
        if i :| 0 <= i < |fs| && fs[i].key == k {
          assert i > 0 ==> fs[1..][i - 1].key == k;
        }
        if i :| 0 <= i < |fs[1..]| && fs[1..][i].key == k {
          assert fs[i + 1].key == k;
        }
      }
    }
  }

  lemma NoKeyInTail(fs: seq<Field>, k: Text)
    requires fs != [] && !HasKey(fs, k)
    ensures !HasKey(fs[1..], k) && fs[0].key != k
  {
    forall i | 0 <= i < |fs[1..]|
      ensures fs[1..][i].key != k
    {
      assert fs[i + 1].key != k;
    }
  }

  lemma SortedCons(f: Field, fs: seq<Field>)
    requires Sorted(fs) && forall g :: g in fs ==> Less(f.key, g.key)
    ensures Sorted([f] + fs)
  {
  }

  lemma InsertedBefore(f: Field, fs: seq<Field>)
    requires Sorted(fs) && fs != [] && Less(f.key, fs[0].key)
    ensures Sorted([f] + fs)
  {
    forall g | g in fs
      ensures Less(f.key, g.key)
    {
      var i :| 0 <= i < |fs| && fs[i] == g;
      if i > 0 {
        LessTransitive(f.key, fs[0].key, g.key);
      }
    }
    SortedCons(f, fs);
  }

  lemma {:induction false} InsertKeepsOrder(f: Field, fs: seq<Field>)
    requires Sorted(fs) && !HasKey(fs, f.key)
    ensures Sorted(Insert(f, fs))
  {
    hide Less, HasKey;
    if fs == [] {
    } else if Less(f.key, fs[0].key) {
      InsertedBefore(f, fs);
    } else {
      NoKeyInTail(fs, f.key);
      LessTrichotomy(f.key, fs[0].key);
      InsertKeepsOrder(f, fs[1..]);
      var rest := Insert(f, fs[1..]);
      forall g | g in rest
        ensures Less(fs[0].key, g.key)
      {
        assert g in multiset(rest);
        assert g == f || g in fs[1..];
      }
      SortedCons(fs[0], rest);
    }
  }

  lemma AbsCons(f: Field, fs: seq<Field>)
    ensures AbsFields([f] + fs) == AbsFields(fs)[f.key := Abs(f.value)]
  {
    assert ([f] + fs)[1..] == fs;
  }

  lemma {:induction false} InsertAdds(f: Field, fs: seq<Field>)
    requires !HasKey(fs, f.key)
    ensures AbsFields(Insert(f, fs)) == AbsFields(fs)[f.key := Abs(f.value)]
  {
    hide Less, HasKey, Abs, AbsFields;
    if fs == [] || Less(f.key, fs[0].key) {
      AbsCons(f, fs);
      assert [f] + fs == Insert(f, fs);
    } else {
      NoKeyInTail(fs, f.key);
      InsertAdds(f, fs[1..]);
      AbsCons(fs[0], Insert(f, fs[1..]));
      AbsCons(fs[0], fs[1..]);
      assert [fs[0]] + fs[1..] == fs;
    }
  }

  lemma {:induction false} SortKeeps(fs: seq<Field>)
    requires DistinctKeys(fs)
    ensures Sorted(SortFields(fs)) && AbsFields(SortFields(fs)) == AbsFields(fs)
  {
    if fs != [] {
      SortKeeps(fs[1..]);
      var s := SortFields(fs[1..]);
      forall i | 0 <= i < |s|
        ensures s[i].key != fs[0].key
      {
        assert s[i] in fs[1..];
      }
      InsertKeepsOrder(fs[0], SortFields(fs[1..]));
      InsertAdds(fs[0], SortFields(fs[1..]));
    }
  }

  lemma FirstIsLeast(fs: seq<Field>, k: Text)
    requires Sorted(fs) && HasKey(fs, k)
    ensures fs != [] && (fs[0].key == k || Less(fs[0].key, k))
  {
  }

  lemma TailOf(fs: seq<Field>)
    requires Sorted(fs) && fs != []
    ensures Sorted(fs[1..]) && AbsFields(fs[1..]) == AbsFields(fs) - {fs[0].key}
  {
    var k := fs[0].key;
    forall i | 0 <= i < |fs[1..]|
      ensures fs[1..][i].key != k
    {
      LessIrreflexive(k);
      assert Less(k, fs[i + 1].key);
    }
    KeysOf(fs[1..], k);
    assert AbsFields(fs) == AbsFields(fs[1..])[k := Abs(fs[0].value)];
    hide Abs, AbsFields, Less, HasKey;
    UpdateThenRemove(AbsFields(fs[1..]), k, Abs(fs[0].value), k);
  }

  lemma UpdateThenRemove(m: map<Text, Value>, k: Text, v: Value, d: Text)
    ensures m[k := v] - {d} == if k == d then m - {d} else (m - {d})[k := v]
    ensures d !in m ==> m - {d} == m
  {
  }

  lemma FieldIsWellFormed(parent: Json, f: Field)
    requires parent.Object? && f in parent.fields && WellFormed(parent)
    ensures WellFormed(f.value)
  {
  }

  // An object determines its sorted fields, up to the order inside the values.
  lemma SortedHeadsAgree(s: seq<Field>, t: seq<Field>)
    requires Sorted(s) && Sorted(t) && AbsFields(s) == AbsFields(t) && s != []
    ensures t != [] && s[0].key == t[0].key && Abs(s[0].value) == Abs(t[0].value)
    ensures AbsFields(s[1..]) == AbsFields(t[1..])
  {
    assert s[0].key in AbsFields(t);
    assert t != [];
    assert t[0].key in AbsFields(s);
    KeysOf(s, t[0].key);
    KeysOf(t, s[0].key);
    FirstIsLeast(s, t[0].key);
    FirstIsLeast(t, s[0].key);
    if s[0].key != t[0].key {
      LessTransitive(s[0].key, t[0].key, s[0].key);
      LessIrreflexive(s[0].key);
    }
    TailOf(s);
    TailOf(t);
  }

  // ---------- equal values have equal text ----------

  lemma {:induction false} EqualValuesEqualText(a: Json, b: Json)
    requires WellFormed(a) && WellFormed(b) && Abs(a) == Abs(b)
    ensures Canon(a) == Canon(b)
    decreases a
  {
    match a
    case Array(items) =>
      EqualItems(items, b.items, true);
    case Object(fields) =>
      SortKeeps(fields);
      SortKeeps(b.fields);
      EqualFields(a, SortFields(fields), b, SortFields(b.fields), true);
    case _ =>
  }

  lemma {:induction false} EqualItems(xs: seq<Json>, ys: seq<Json>, first: bool)
    requires forall i :: 0 <= i < |xs| ==> WellFormed(xs[i])
    requires forall i :: 0 <= i < |ys| ==> WellFormed(ys[i])
    requires AbsItems(xs) == AbsItems(ys)
    ensures CanonItems(xs, first) == CanonItems(ys, first)
    decreases xs
  {
    if xs != [] {
      assert ys != [];
      assert AbsItems(xs)[0] == Abs(xs[0]) && AbsItems(ys)[0] == Abs(ys[0]);
      assert AbsItems(xs)[1..] == AbsItems(xs[1..]) && AbsItems(ys)[1..] == AbsItems(ys[1..]);
      EqualValuesEqualText(xs[0], ys[0]);
      EqualItems(xs[1..], ys[1..], false);
    }
  }

  lemma {:induction false} EqualFields(a: Json, s: seq<Field>, b: Json, t: seq<Field>, first: bool)
    requires a.Object? && b.Object? && WellFormed(a) && WellFormed(b)
    requires (forall f :: f in s ==> f in a.fields) && (forall f :: f in t ==> f in b.fields)
    requires Sorted(s) && Sorted(t) && AbsFields(s) == AbsFields(t)
    ensures CanonFields(a, s, first) == CanonFields(b, t, first)
    decreases a, |s|
  {
    if s != [] {
      SortedHeadsAgree(s, t);
      FieldIsSmaller(a, s[0]);
      FieldIsWellFormed(a, s[0]);
      FieldIsWellFormed(b, t[0]);
      EqualValuesEqualText(s[0].value, t[0].value);
      EqualFields(a, s[1..], b, t[1..], false);
    } else if t != [] {
      SortedHeadsAgree(t, s);
    }
  }

  // ---------- equal text means equal values ----------

  datatype Kind = KNull | KBool | KNumber | KStr | KArray | KObject | KOther

  function KindOf(v: Json): Kind {
    match v
    case Null => KNull
    case Bool(_) => KBool
    case Number(_) => KNumber
    case Str(_) => KStr
    case Array(_) => KArray
    case Object(_) => KObject
    case _ => KOther
  }

  function KindFrom(u: CodeUnit): Kind {
    if u == 110 then KNull
    else if u == 116 || u == 102 then KBool
    else if u == 45 || IsDigit(u) then KNumber
    else if u == 34 then KStr
    else if u == 91 then KArray
    else if u == 123 then KObject
    else KOther
  }

  // The first unit of a value's text tells its kind, and is never a comma or a closing bracket.
  lemma FirstUnit(v: Json, t: Text)
    requires Canon(v).Ok?
    ensures Canon(v).value + t != []
    ensures KindFrom((Canon(v).value + t)[0]) == KindOf(v) != KOther
  {
    hide SortFields, CanonItems, CanonFields, Body, Decimal, Abs;
    var c := Canon(v).value;
    assert c != [] ==> (c + t)[0] == c[0];
    match v
    case Number(n) => DecimalHead(n, t);
    case _ =>
  }

  lemma BoolsAgree(x: bool, y: bool, t: Text, t': Text)
    requires Canon(Bool(x)).value + t == Canon(Bool(y)).value + t'
    ensures x == y && t == t'
  {
    var c, d := Canon(Bool(x)).value, Canon(Bool(y)).value;
    assert (c + t)[0] == c[0] && (d + t')[0] == d[0];
    SuffixesAgree(c, t, t');
  }

  lemma BracketsAgree(open: CodeUnit, x: Text, y: Text, t: Text, t': Text)
    requires ([open] + x) + t == ([open] + y) + t'
    ensures x + t == y + t'
  {
    assert ([open] + x) + t == [open] + (x + t) && ([open] + y) + t' == [open] + (y + t');
    SuffixesAgree([open], x + t, y + t');
  }

  lemma {:induction false} TextDeterminesValue(a: Json, b: Json, t: Text, t': Text)
    requires WellFormed(a) && WellFormed(b) && Canon(a).Ok? && Canon(b).Ok?
    requires Delimited(t) && Delimited(t') && Canon(a).value + t == Canon(b).value + t'
    ensures Abs(a) == Abs(b) && t == t'
    decreases a
  {
    hide Decimal, Quote, Delimited, KindFrom, SortFields, CanonItems, CanonFields;
    FirstUnit(a, t);
    FirstUnit(b, t');
    match a
    case Null =>
      SuffixesAgree(Canon(a).value, t, t');
    case Bool(x) =>
      BoolsAgree(x, b.b, t, t');
    case Number(n) =>
      DecimalsAgree(n, b.n, t, t');
    case Str(s) =>
      QuotesAgree(s, b.s, t, t');
    case Array(items) =>
      BracketsAgree(91, CanonItems(items, true).value, CanonItems(b.items, true).value, t, t');
      ItemsDetermineValues(items, b.items, true, t, t');
    case Object(fields) =>
      SortKeeps(fields);
      SortKeeps(b.fields);
      var s, s' := SortFields(fields), SortFields(b.fields);
      BracketsAgree(123, CanonFields(a, s, true).value, CanonFields(b, s', true).value, t, t');
      FieldsDetermineValues(a, s, b, s', true, t, t');
  }

  lemma {:induction false} ItemsDetermineValues(xs: seq<Json>, ys: seq<Json>, first: bool, t: Text, t': Text)
    requires forall i :: 0 <= i < |xs| ==> WellFormed(xs[i])
    requires forall i :: 0 <= i < |ys| ==> WellFormed(ys[i])
    requires CanonItems(xs, first).Ok? && CanonItems(ys, first).Ok?
    requires CanonItems(xs, first).value + t == CanonItems(ys, first).value + t'
    ensures AbsItems(xs) == AbsItems(ys) && t == t'
    decreases xs
  {
    hide WellFormed, Canon, Delimited;
    ItemsStart(xs, first, t);
    ItemsStart(ys, first, t');
    if xs == [] {
      SuffixesAgree([93], t, t');
    } else {
      var x, y := Canon(xs[0]).value, Canon(ys[0]).value;
      var r, r' := CanonItems(xs[1..], false).value + t, CanonItems(ys[1..], false).value + t';
      ItemsStart(xs[1..], false, t);
      ItemsStart(ys[1..], false, t');
      SuffixesAgree(if first then [] else [44], x + r, y + r');
      TextDeterminesValue(xs[0], ys[0], r, r');
      ItemsDetermineValues(xs[1..], ys[1..], false, t, t');
    }
  }

  // How the rest of an array begins.
  lemma ItemsStart(xs: seq<Json>, first: bool, t: Text)
    requires CanonItems(xs, first).Ok?
    ensures var w := CanonItems(xs, first).value + t;
            w != [] && (w[0] == 93 <==> xs == []) && (!first ==> Delimited(w)) &&
            (xs != [] ==> w == (if first then [] else [44]) +
                               (Canon(xs[0]).value + (CanonItems(xs[1..], false).value + t)))
  {
    if xs != [] {
      var x, r := Canon(xs[0]).value, CanonItems(xs[1..], false).value;
      var sep := if first then [] else [44];
      assert (sep + (x + r)) + t == sep + (x + (r + t));
      FirstUnit(xs[0], r + t);
    }
  }

  lemma {:induction false} FieldsDetermineValues(a: Json, s: seq<Field>, b: Json, s': seq<Field>, first: bool,
                                                 t: Text, t': Text)
    requires a.Object? && b.Object? && WellFormed(a) && WellFormed(b)
    requires (forall f :: f in s ==> f in a.fields) && (forall f :: f in s' ==> f in b.fields)
    requires CanonFields(a, s, first).Ok? && CanonFields(b, s', first).Ok?
    requires CanonFields(a, s, first).value + t == CanonFields(b, s', first).value + t'
    ensures AbsFields(s) == AbsFields(s') && t == t'
    decreases a, |s|
  {
    FieldsStart(a, s, first, t);
    FieldsStart(b, s', first, t');
    if s == [] {
      SuffixesAgree([125], t, t');
    } else {
      hide WellFormed, Canon, Quote, Delimited;
      FieldIsSmaller(a, s[0]);
      FieldIsWellFormed(a, s[0]);
      FieldIsWellFormed(b, s'[0]);
      var x, y := Canon(s[0].value).value, Canon(s'[0].value).value;
      var r, r' := CanonFields(a, s[1..], false).value + t, CanonFields(b, s'[1..], false).value + t';
      FieldsStart(a, s[1..], false, t);
      FieldsStart(b, s'[1..], false, t');
      SuffixesAgree(if first then [] else [44], Quote(s[0].key) + ([58] + (x + r)),
                    Quote(s'[0].key) + ([58] + (y + r')));
      QuotesAgree(s[0].key, s'[0].key, [58] + (x + r), [58] + (y + r'));
      SuffixesAgree([58], x + r, y + r');
      TextDeterminesValue(s[0].value, s'[0].value, r, r');
      FieldsDetermineValues(a, s[1..], b, s'[1..], false, t, t');
    }
  }

  lemma FieldsStart(a: Json, s: seq<Field>, first: bool, t: Text)
    requires a.Object? && (forall f :: f in s ==> f in a.fields) && CanonFields(a, s, first).Ok?
    ensures var w := CanonFields(a, s, first).value + t;
            w != [] && (w[0] == 125 <==> s == []) && (!first ==> Delimited(w)) &&
            (s != [] ==> w == (if first then [] else [44]) +
                              (Quote(s[0].key) + ([58] + (Canon(s[0].value).value +
                                                          (CanonFields(a, s[1..], false).value + t)))))
  {
    if s != [] {
      var q, x, r := Quote(s[0].key), Canon(s[0].value).value, CanonFields(a, s[1..], false).value;
      var sep := if first then [] else [44];
      assert (sep + (q + ([58] + (x + r)))) + t == sep + (q + ([58] + (x + (r + t))));
    }
  }

  // `same(left, right)`: equal text exactly when equal up to key order, at every depth.
  lemma SameDecidesEquality(a: Json, b: Json)
    requires WellFormed(a) && WellFormed(b) && Canon(a).Ok? && Canon(b).Ok?
    ensures Canon(a) == Canon(b) <==> Abs(a) == Abs(b)
  {
    if Canon(a) == Canon(b) {
      TextDeterminesValue(a, b, [], []);
    }
    if Abs(a) == Abs(b) {
      EqualValuesEqualText(a, b);
    }
  }

  // The serializer fails exactly on values that hold a non-finite number or a non-JSON value.
  lemma {:induction false} CanonDefined(v: Json)
    ensures Canon(v).Ok? <==> Serializable(v)
    decreases v
  {
    match v
    case Array(items) => ItemsDefined(items, true);
    case Object(fields) =>
      FieldsDefined(v, SortFields(fields), true);
      assert forall i :: 0 <= i < |fields| ==> fields[i] in SortFields(fields);
    case _ =>
  }

  lemma {:induction false} ItemsDefined(items: seq<Json>, first: bool)
    ensures CanonItems(items, first).Ok? <==> forall i :: 0 <= i < |items| ==> Serializable(items[i])
    decreases items
  {
    if items != [] {
      CanonDefined(items[0]);
      ItemsDefined(items[1..], false);
      assert forall i :: 0 < i < |items| ==> items[i] == items[1..][i - 1];
    }
  }

  lemma {:induction false} FieldsDefined(parent: Json, fs: seq<Field>, first: bool)
    requires parent.Object? && forall f :: f in fs ==> f in parent.fields
    ensures CanonFields(parent, fs, first).Ok? <==> forall f :: f in fs ==> Serializable(f.value)
    decreases parent, |fs|
  {
    if fs != [] {
      FieldIsSmaller(parent, fs[0]);
      CanonDefined(fs[0].value);
      FieldsDefined(parent, fs[1..], false);
      assert forall f :: f in fs <==> f == fs[0] || f in fs[1..];
    }
  }

  // ---------- the manifest digest ----------

  // "manifestDigest"
  const MANIFEST_DIGEST: Text := [109, 97, 110, 105, 102, 101, 115, 116, 68, 105, 103, 101, 115, 116]

  // The digest is taken of the release without its own `manifestDigest` field.
  function ManifestPayload(release: seq<Field>): (r: seq<Field>)
    ensures forall f :: f in r <==> f in release && f.key != MANIFEST_DIGEST
  {
    if release == [] then []
    else if release[0].key == MANIFEST_DIGEST then ManifestPayload(release[1..])
    else [release[0]] + ManifestPayload(release[1..])
  }

  lemma {:induction false} PayloadKeysDistinct(release: seq<Field>)
    requires DistinctKeys(release)
    ensures DistinctKeys(ManifestPayload(release))
  {
    if release != [] {
      var rest := ManifestPayload(release[1..]);
      PayloadKeysDistinct(release[1..]);
      forall i | 0 <= i < |rest|
        ensures rest[i].key != release[0].key
      {
        assert rest[i] in release[1..];
      }
    }
  }

  lemma {:induction false} PayloadIsRelease(release: seq<Field>)
    ensures AbsFields(ManifestPayload(release)) == AbsFields(release) - {MANIFEST_DIGEST}
  {
    if release != [] {
      var f, rest := release[0], ManifestPayload(release[1..]);
      PayloadIsRelease(release[1..]);
      assert AbsFields(release) == AbsFields(release[1..])[f.key := Abs(f.value)];
      hide Abs, AbsFields;
      AbsCons(f, rest);
      UpdateThenRemove(AbsFields(release[1..]), f.key, Abs(f.value), MANIFEST_DIGEST);
    }
  }

  // The digested text depends on nothing but the remaining fields and their values, and
  // determines them: neither field order nor the placeholder digest can be seen in it.
  lemma ManifestTextIdentifiesRelease(r: seq<Field>, r': seq<Field>)
    requires WellFormed(Object(r)) && WellFormed(Object(r'))
    requires Canon(Object(ManifestPayload(r))).Ok? && Canon(Object(ManifestPayload(r'))).Ok?
    ensures Canon(Object(ManifestPayload(r))) == Canon(Object(ManifestPayload(r'))) <==>
            AbsFields(r) - {MANIFEST_DIGEST} == AbsFields(r') - {MANIFEST_DIGEST}
  {
    PayloadWellFormed(r);
    PayloadWellFormed(r');
    SameDecidesEquality(Object(ManifestPayload(r)), Object(ManifestPayload(r')));
  }

  lemma PayloadWellFormed(r: seq<Field>)
    requires WellFormed(Object(r))
    ensures WellFormed(Object(ManifestPayload(r)))
    ensures Abs(Object(ManifestPayload(r))) == VObject(AbsFields(r) - {MANIFEST_DIGEST})
  {
    PayloadIsRelease(r);
    PayloadKeysDistinct(r);
    var p := ManifestPayload(r);
    forall i | 0 <= i < |p|
      ensures WellFormed(p[i].value)
    {
      assert p[i] in r;
      FieldIsWellFormed(Object(r), p[i]);
    }
  }
}
