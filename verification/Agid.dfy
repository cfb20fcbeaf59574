/** The 12-character AGID: a 2-character prefix and a 10-digit Base32 hash of the packed
    face and Hilbert index; its decoder, and the format-only validator of the SDK. */
module Agid {
  import opened Arithmetic
  import opened Hilbert
  import opened Whitespace
  import opened Wrappers

  const ALPHABET: string := "0123456789ABCDEFGHJKMNPQRSTVWXYZ"
  const LEVEL: nat := 21
  const SIDE: nat := 0x20_0000
  const FACE_COUNT: nat := 6
  const FACE_CELLS: nat := 0x400_0000_0000
  const MAX_PACKED: nat := 0x1FFF_FFFF_FFFF

  // ---------- Base32 ----------

  function Pow32(k: nat): (p: nat)
    ensures p > 0
  {
    if k == 0 then 1 else 32 * Pow32(k - 1)
  }

  function Digit(i: nat): char
    requires i < 32
  {
    ALPHABET[i]
  }

  predicate IsDigit(c: char) {
    c in ALPHABET
  }

  // The index of c in the alphabet, or -1.
  function IndexOf(c: char): (i: int)
    ensures -1 <= i < 32
    ensures i >= 0 ==> Digit(i) == c
    ensures i >= 0 <==> IsDigit(c)
  {
    IndexFrom(c, 0)
  }

  function IndexFrom(c: char, from: nat): (i: int)
    requires from <= 32
    ensures i == -1 || from <= i < 32
    ensures i >= 0 ==> Digit(i) == c
    ensures i < 0 ==> c !in ALPHABET[from..]
    decreases 32 - from
  {
    if from == 32 then -1 else if Digit(from) == c then from else IndexFrom(c, from + 1)
  }

  // The alphabet is in character order, so no character occurs twice.
  lemma {:induction false} Ascending(i: nat, j: nat)
    requires i < j < 32
    ensures Digit(i) < Digit(j)
  {
    if i + 1 < j {
      Ascending(i, j - 1);
    }
  }

  lemma IndexOfDigit(i: nat)
    requires i < 32
    ensures IsDigit(Digit(i)) && IndexOf(Digit(i)) == i
  {
    assert Digit(i) in ALPHABET;
    var j := IndexOf(Digit(i));
    hide Digit, IndexOf;
    if i < j {
      Ascending(i, j);
    } else if j < i {
      Ascending(j, i);
    }
  }

  // The last `length` base-32 digits of v, most significant first.
  function Digits(v: nat, length: nat): (s: string)
    ensures |s| == length
  {
    if length == 0 then "" else Digits(v / 32, length - 1) + [Digit(v % 32)]
  }

  // None when some character is not a digit.
  function Value(hash: string): Option<nat> {
    if hash == "" then Some(0) else
      var n := |hash| - 1;
      match Value(hash[..n])
      case None => None
      case Some(v) =>
        if IndexOf(hash[n]) < 0 then None else Some(32 * v + IndexOf(hash[n]))
  }

  method EncodeBase32(value: nat, length: nat) returns (result: string)
    ensures result == Digits(value, length)
  {
    result := "";
    var temp := value;
    for i := 0 to length
      invariant Digits(value, length) == Digits(temp, length - i) + result
    {
      result := [Digit(temp % 32)] + result;
      temp := temp / 32;
    }
  }

  method DecodeBase32(hash: string) returns (r: Option<nat>)
    ensures r == Value(hash)
  {
    hide Digit, IsDigit, IndexOf;
    var result: nat := 0;
    for i := 0 to |hash|
      invariant Value(hash[..i]) == Some(result)
    {
      var index := IndexOf(hash[i]);
      assert hash[..i + 1][..i] == hash[..i];
      if index == -1 {
        NonDigitSpoils(hash, i + 1);
        return None;
      }
      result := result * 32 + index;
    }
    assert hash[..|hash|] == hash;
    return Some(result);
  }

  lemma {:induction false} NonDigitSpoils(hash: string, i: nat)
    requires i <= |hash| && Value(hash[..i]).None?
    ensures Value(hash).None?
  {
    if i < |hash| {
      assert hash[..|hash| - 1][..i] == hash[..i];
      NonDigitSpoils(hash[..|hash| - 1], i);
    } else {
      assert hash[..i] == hash;
    }
  }

  lemma {:induction false} ValueOfDigits(v: nat, length: nat)
    requires v < Pow32(length)
    ensures Value(Digits(v, length)) == Some(v)
  {
    hide Digit, IsDigit, IndexOf;
    if length > 0 {
      var s := Digits(v, length);
      ValueOfDigits(v / 32, length - 1);
      assert s[..length - 1] == Digits(v / 32, length - 1);
      IndexOfDigit(v % 32);
    }
  }

  lemma {:induction false} DigitsOfValue(hash: string)
    requires Value(hash).Some?
    ensures Value(hash).value < Pow32(|hash|)
    ensures Digits(Value(hash).value, |hash|) == hash
  {
    hide Digit, IsDigit, IndexOf;
    if hash != "" {
      var n := |hash| - 1;
      DigitsOfValue(hash[..n]);
      assert hash == hash[..n] + [hash[n]];
    }
  }

  predicate AllDigits(s: string) {
    forall i :: 0 <= i < |s| ==> IsDigit(s[i])
  }

  lemma {:induction false} ValueDefined(s: string)
    ensures Value(s).Some? <==> AllDigits(s)
  {
    hide Digit, IsDigit, IndexOf;
    if s != "" {
      var n := |s| - 1;
      ValueDefined(s[..n]);
      assert AllDigits(s) <==> AllDigits(s[..n]) && IsDigit(s[n]);
    }
  }

  // ---------- packing ----------

  // (face << 42) | h: the two operands share no bit, so the `|` is a sum.
  function Pack(face: nat, h: nat): nat
    requires h < FACE_CELLS
  {
    face * FACE_CELLS + h
  }

  predicate InRange(packed: int) {
    0 <= packed <= MAX_PACKED && packed / FACE_CELLS < FACE_COUNT
  }

  lemma Constants()
    ensures SIDE == Pow2(LEVEL) && FACE_CELLS == Pow4(LEVEL)
    ensures Pow32(10) == 256 * FACE_CELLS && FACE_COUNT * FACE_CELLS <= MAX_PACKED < Pow32(10)
  {
    assert Pow2(7) == 128;
    Pow2Sum(7, 7);
    Pow2Sum(14, 7);
    SquareOfPow2(21);
    assert Pow32(5) == 0x200_0000;
    assert Pow32(10) == 0x200_0000 * 0x200_0000;
  }

  predicate ValidCell(face: nat, c: Cell) {
    face < FACE_COUNT && 0 <= c.x < SIDE && 0 <= c.y < SIDE
  }

  function HashOf(face: nat, c: Cell): (s: string)
    requires ValidCell(face, c)
    ensures |s| == 10
  {
    Constants();
    IndexBound(LEVEL, c);
    Digits(Pack(face, Index(LEVEL, c)), 10)
  }

  method EncodeHash(face: nat, qx: nat, qy: nat) returns (hash: string)
    requires ValidCell(face, Cell(qx, qy))
    ensures hash == HashOf(face, Cell(qx, qy))
  {
    Constants();
    var h := EncodeHilbert(SIDE, qx, qy, LEVEL);
    IndexBound(LEVEL, Cell(qx, qy));
    hash := EncodeBase32(Pack(face, h), 10);
  }

  // ---------- strict parsing ----------

  predicate UpperAlnum(c: char) {
    'A' <= c <= 'Z' || '0' <= c <= '9'
  }

  // Upper-casing maps one character to one or more; all that is used of it is what it does
  // to the characters an AGID is made of.
  ghost predicate UpperCases(up: char -> string) {
    (forall c :: UpperAlnum(c) ==> up(c) == [c]) &&
    (forall c :: 'a' <= c <= 'z' ==> up(c) == [(c as int - 32) as char])
  }

  function Upper(up: char -> string, s: string): string {
    if s == "" then "" else up(s[0]) + Upper(up, s[1..])
  }

  function Normalize(up: char -> string, id: string): Option<string> {
    var t := Upper(up, Trim(IsJsSpace, id));
    if t == "" then None else Some(t)
  }

  predicate FormatOk(s: string) {
    |s| == 12 && UpperAlnum(s[0]) && UpperAlnum(s[1]) && AllDigits(s[2..])
  }

  datatype Decoded = Decoded(prefix: string, face: nat, cell: Cell)

  function Decode(up: char -> string, id: string): Option<Decoded> {
    match Normalize(up, id)
    case None => None
    case Some(s) =>
      if !FormatOk(s) then None else
        match Value(s[2..])
        case None => None
        case Some(packed) =>
          if !InRange(packed) then None else
            Some(Decoded(s[..2], packed / FACE_CELLS, Place(LEVEL, packed % FACE_CELLS)))
  }

  method DecodeAgid(up: char -> string, id: string) returns (r: Option<Decoded>)
    ensures r == Decode(up, id)
  {
    var normalized := Normalize(up, id);
    if normalized.None? || !FormatOk(normalized.value) {
      return None;
    }
    var prefix, hash := normalized.value[..2], normalized.value[2..];
    var packed := DecodeBase32(hash);
    if packed.None? || !InRange(packed.value) {
      return None;
    }
    Constants();
    var face, h := packed.value / FACE_CELLS, packed.value % FACE_CELLS;
    var qx, qy := DecodeHilbert(SIDE, h, LEVEL);
    return Some(Decoded(prefix, face, Cell(qx, qy)));
  }

  // ---------- what the codec guarantees ----------

  predicate IsPrefix(p: string) {
    |p| == 2 && UpperAlnum(p[0]) && UpperAlnum(p[1])
  }

  lemma {:induction false} UpperKeeps(up: char -> string, s: string)
    requires UpperCases(up) && forall i :: 0 <= i < |s| ==> UpperAlnum(s[i])
    ensures Upper(up, s) == s
  {
    if s != "" {
      UpperKeeps(up, s[1..]);
      assert s == [s[0]] + s[1..];
    }
  }

  lemma DigitsAreAlnum(c: char)
    requires IsDigit(c)
    ensures UpperAlnum(c) && !IsJsSpace(c)
  {
  }

  lemma NormalizeKeeps(up: char -> string, s: string)
    requires UpperCases(up) && FormatOk(s)
    ensures Normalize(up, s) == Some(s)
  {
    forall i | 0 <= i < |s|
      ensures UpperAlnum(s[i]) && !IsJsSpace(s[i])
    {
      if i >= 2 {
        assert s[i] == s[2..][i - 2];
        DigitsAreAlnum(s[i]);
      }
    }
    UpperKeeps(up, s);
  }

  // Every cell's identifier decodes, under every prefix, to that prefix and that cell.
  lemma RoundTrip(up: char -> string, prefix: string, face: nat, c: Cell)
    requires UpperCases(up) && IsPrefix(prefix) && ValidCell(face, c)
    ensures Decode(up, prefix + HashOf(face, c)) == Some(Decoded(prefix, face, c))
  {
    Constants();
    PlaceOfIndex(LEVEL, c);
    var packed := Pack(face, Index(LEVEL, c));
    DivModUnique(packed, FACE_CELLS, face, Index(LEVEL, c));
    var hash := HashOf(face, c);
    ValueOfDigits(packed, 10);
    ValueDefined(hash);
    var s := prefix + hash;
    assert s[..2] == prefix && s[2..] == hash;
    NormalizeKeeps(up, s);
  }

  // Conversely, whatever decodes is, once normalized, the identifier of the cell it decodes to.
  lemma DecodedIsCanonical(up: char -> string, id: string)
    requires Decode(up, id).Some?
    ensures var d := Decode(up, id).value;
            ValidCell(d.face, d.cell) && IsPrefix(d.prefix) &&
            Normalize(up, id) == Some(d.prefix + HashOf(d.face, d.cell))
  {
    hide Digit, IsDigit, IndexOf, Digits, Value, Place, Index;
    Constants();
    var s := Normalize(up, id).value;
    var packed := Value(s[2..]).value;
    IndexOfPlace(LEVEL, packed % FACE_CELLS);
    DigitsOfValue(s[2..]);
    assert s == s[..2] + s[2..];
  }

  // A well-formed hash is that of a cell exactly when it starts with `0` and its second digit
  // is at most 23; the rest of the 50 bits is free.
  lemma CanonicalHash(s: string)
    requires |s| == 10 && AllDigits(s)
    ensures Value(s).Some?
    ensures InRange(Value(s).value) <==> s[0] == '0' && IndexOf(s[1]) <= 23
  {
    LeadingDigits(s);
    IndexOfDigit(0);
    assert Digit(0) == '0';
    RangeOfLeading(Value(s).value, IndexOf(s[0]), IndexOf(s[1]));
  }

  lemma RangeOfLeading(v: nat, d0: int, d1: int)
    requires 0 <= d0 < 32 && 0 <= d1 < 32 && v / Pow32(8) == 32 * d0 + d1
    ensures InRange(v) <==> d0 == 0 && d1 <= 23
  {
    assert Pow32(4) == 0x10_0000;
    assert Pow32(8) == 0x100_0000_0000;
  }

  lemma LeadingDigits(s: string)
    requires |s| == 10 && AllDigits(s)
    ensures Value(s).Some? && IsDigit(s[0]) && IsDigit(s[1])
    ensures Value(s).value / Pow32(8) == 32 * IndexOf(s[0]) + IndexOf(s[1])
  {
    hide Digit, IsDigit, IndexOf, Pow32;
    LeadingValue(s, 2);
    assert s[..2][..1] == s[..1] && s[..1][..0] == "";
    assert IsDigit(s[0]) && IsDigit(s[1]);
    assert Value(s[..1]) == Some(IndexOf(s[0]));
  }

  lemma {:induction false} LeadingValue(s: string, n: nat)
    requires n <= |s| && AllDigits(s)
    ensures Value(s).Some? && Value(s[..n]).Some?
    ensures Value(s).value / Pow32(|s| - n) == Value(s[..n]).value
  {
    hide Digit, IsDigit, IndexOf;
    ValueDefined(s);
    ValueDefined(s[..n]);
    if n < |s| {
      var t := s[..|s| - 1];
      assert t[..n] == s[..n];
      LeadingValue(t, n);
      assert Value(s).value / 32 == Value(t).value;
      DivDiv(Value(s).value, 32, Pow32(|t| - n));
    } else {
      assert s[..n] == s;
    }
  }

  // ---------- the SDK validator ----------

  // The length that the host language reports: characters past U+FFFF count twice.
  function Utf16Length(s: string): nat {
    if s == "" then 0 else (if s[0] as int >= 0x10000 then 2 else 1) + Utf16Length(s[1..])
  }

  lemma {:induction false} AlnumLength(s: string)
    requires forall i :: 0 <= i < |s| ==> UpperAlnum(s[i])
    ensures Utf16Length(s) == |s|
  {
    if s != "" {
      AlnumLength(s[1..]);
    }
  }

  lemma FormatLength(s: string)
    requires FormatOk(s)
    ensures Utf16Length(s) == 12
  {
    forall i | 0 <= i < 12 ensures UpperAlnum(s[i]) {
      if i >= 2 {
        assert s[i] == s[2..][i - 2];
        DigitsAreAlnum(s[i]);
      }
    }
    AlnumLength(s);
  }

  datatype Validation = Validation(ok: bool, normalized: Option<string>, issues: seq<string>)

  method ValidateAgid(up: char -> string, value: string) returns (r: Validation)
    ensures r.normalized == Normalize(up, value)
    ensures r.ok <==> r.issues == []
    ensures r.ok <==> r.normalized.Some? && FormatOk(r.normalized.value)
    ensures "not-a-non-empty-string" in r.issues <==> r.normalized.None?
    ensures "invalid-length" in r.issues <==> r.normalized.Some? && Utf16Length(r.normalized.value) != 12
    ensures "invalid-format-or-alphabet" in r.issues <==> r.normalized.Some? && !r.ok
  {
    var normalized := Normalize(up, value);
    var issues := [];
    if normalized.None? {
      return Validation(false, normalized, ["not-a-non-empty-string"]);
    }
    hide Utf16Length;
    if Utf16Length(normalized.value) != 12 {
      issues := issues + ["invalid-length"];
    }
    if !FormatOk(normalized.value) {
      issues := issues + ["invalid-format-or-alphabet"];
    } else {
      FormatLength(normalized.value);
    }
    return Validation(issues == [], normalized, issues);
  }

  // The validator accepts everything that decodes, and exactly the non-canonical hashes more.
  lemma ValidatorGap(up: char -> string, value: string)
    requires UpperCases(up)
    ensures var n := Normalize(up, value);
            Decode(up, value).Some? <==>
            n.Some? && FormatOk(n.value) && n.value[2] == '0' && IndexOf(n.value[3]) <= 23
  {
    var n := Normalize(up, value);
    if n.Some? && FormatOk(n.value) {
      CanonicalHash(n.value[2..]);
    }
  }

  lemma ValidatorAcceptsMore(up: char -> string)
    requires UpperCases(up)
    ensures var n := Normalize(up, "US1000000000");
            n.Some? && FormatOk(n.value) && Decode(up, "US1000000000").None?
  {
    NormalizeKeeps(up, "US1000000000");
    ValidatorGap(up, "US1000000000");
  }
}
