/** The reference that commits to a text: a 32-bit FNV-1a hash over UTF-16 code units, in hexadecimal. */
module Commitment {
  import opened Arithmetic

  const MODULUS := 0x1_0000_0000
  const OFFSET := 0x811c9dc5
  const PRIME := 0x01000193

  type CodeUnit = u: nat | u < 0x10000

  type Word = w: nat | w < MODULUS

  // ---------- exclusive or ----------

  function Xor(a: nat, b: nat): (r: nat) {
    if a == 0 && b == 0 then 0 else
      (if a % 2 == b % 2 then 0 else 1) + 2 * Xor(a / 2, b / 2)
  }

  lemma {:induction false} XorCommutes(a: nat, b: nat)
    ensures Xor(a, b) == Xor(b, a)
  {
    if a != 0 || b != 0 {
      XorCommutes(a / 2, b / 2);
    }
  }

  // A second exclusive or with the same number undoes the first.
  lemma {:induction false} XorUndoes(a: nat, b: nat)
    ensures Xor(Xor(a, b), b) == a
  {
    if a != 0 || b != 0 {
      XorUndoes(a / 2, b / 2);
      assert Xor(a, b) / 2 == Xor(a / 2, b / 2);
    }
  }

  lemma {:induction false} XorBound(a: nat, b: nat, k: nat)
    requires a < Pow2(k) && b < Pow2(k)
    ensures Xor(a, b) < Pow2(k)
  {
    if k > 0 && (a != 0 || b != 0) {
      XorBound(a / 2, b / 2, k - 1);
    }
  }

  lemma XorWord(a: Word, u: CodeUnit)
    ensures Xor(a, u) < MODULUS
  {
    assert Pow2(32) == MODULUS by {
      assert Pow2(8) == 256 && Pow2(16) == 65536 && Pow2(24) == 16777216;
    }
    XorBound(a, u, 32);
  }

  // ---------- one step, in unsigned arithmetic ----------

  function Step(h: Word, u: CodeUnit): Word {
    XorWord(h, u);
    Xor(h, u) * PRIME % MODULUS
  }

  function Hash(h: Word, text: seq<CodeUnit>): Word {
    if text == [] then h else Step(Hash(h, text[..|text| - 1]), text[|text| - 1])
  }

  // The prime is invertible modulo 2^32: 0x01000193 * 0x359c449b is one more than a multiple of it.
  lemma NoMultipleOfPrime(d: int, k: int)
    requires d * 0x01000193 == k * 0x1_0000_0000 && -0x1_0000_0000 < d < 0x1_0000_0000
    ensures d == 0
  {
    assert 0x01000193 * 0x359c449b == 1 + 3513497 * 0x1_0000_0000;
    var t := k * 0x359c449b - 3513497 * d;
    assert d == t * 0x1_0000_0000;
  }

  lemma TimesPrimeIsInjective(a: Word, b: Word)
    requires a * PRIME % MODULUS == b * PRIME % MODULUS
    ensures a == b
  {
    var p, q := a * 0x01000193, b * 0x01000193;
    NoMultipleOfPrime(a - b, p / 0x1_0000_0000 - q / 0x1_0000_0000);
  }

  lemma StepIsInjective(a: Word, u: CodeUnit, b: Word, v: CodeUnit)
    requires Step(a, u) == Step(b, v)
    ensures Xor(a, u) == Xor(b, v)
    ensures u == v ==> a == b
    ensures a == b ==> u == v
  {
    hide Xor;
    XorWord(a, u);
    XorWord(b, v);
    TimesPrimeIsInjective(Xor(a, u), Xor(b, v));
    XorUndoes(a, u);
    XorUndoes(b, v);
    XorCommutes(a, u);
    XorCommutes(b, v);
    XorUndoes(u, a);
    XorUndoes(v, b);
  }

  // ---------- detection ----------

  // A text takes different hashes to different hashes.
  lemma {:induction false} HashIsInjective(a: Word, b: Word, text: seq<CodeUnit>)
    ensures Hash(a, text) == Hash(b, text) <==> a == b
  {
    if text != [] {
      hide Step;
      var n := |text| - 1;
      HashIsInjective(a, b, text[..n]);
      if Hash(a, text) == Hash(b, text) {
        StepIsInjective(Hash(a, text[..n]), text[n], Hash(b, text[..n]), text[n]);
      }
    }
  }

  lemma {:induction false} HashConcat(h: Word, a: seq<CodeUnit>, b: seq<CodeUnit>)
    ensures Hash(h, a + b) == Hash(Hash(h, a), b)
  {
    hide Step;
    if b == [] {
      assert a + b == a;
    } else {
      var n := |b| - 1;
      assert (a + b)[..|a| + n] == a + b[..n];
      HashConcat(h, a, b[..n]);
    }
  }

  // Two texts that differ in exactly one code unit have different hashes.
  lemma SingleChangeIsDetected(s: seq<CodeUnit>, t: seq<CodeUnit>, k: nat)
    requires |s| == |t| && k < |s| && s[k] != t[k]
    requires forall i :: 0 <= i < |s| && i != k ==> s[i] == t[i]
    ensures Hash(OFFSET, s) != Hash(OFFSET, t)
  {
    hide Hash, Step;
    var before, after := s[..k], s[k + 1..];
    assert s == before + [s[k]] + after && t == before + [t[k]] + after;
    var h := Hash(OFFSET, before);
    HashConcat(OFFSET, before + [s[k]], after);
    HashConcat(OFFSET, before + [t[k]], after);
    HashStep(OFFSET, before, s[k]);
    HashStep(OFFSET, before, t[k]);
    HashIsInjective(Step(h, s[k]), Step(h, t[k]), after);
    if Step(h, s[k]) == Step(h, t[k]) {
      StepIsInjective(h, s[k], h, t[k]);
    }
  }

  lemma HashStep(h: Word, text: seq<CodeUnit>, u: CodeUnit)
    ensures Hash(h, text + [u]) == Step(Hash(h, text), u)
  {
    hide Step;
    assert (text + [u])[..|text|] == text;
  }

  // ---------- hexadecimal ----------

  const HEX_DIGITS := "0123456789abcdef"

  predicate IsHexDigit(c: char) {
    '0' <= c <= '9' || 'a' <= c <= 'f'
  }

  predicate AllHex(s: string) {
    forall c :: c in s ==> IsHexDigit(c)
  }

  function HexDigit(d: nat): (c: char)
    requires d < 16
    ensures IsHexDigit(c) && HexValueOf(c) == d
  {
    HEX_DIGITS[d]
  }

  function HexValueOf(c: char): nat
    requires IsHexDigit(c)
  {
    if c <= '9' then c as int - '0' as int else c as int - 'a' as int + 10
  }

  // The digits of a number without leading zeros.
  function ToHex(n: nat): string {
    if n < 16 then [HexDigit(n)] else ToHex(n / 16) + [HexDigit(n % 16)]
  }

  function PadStart(s: string, width: nat): string
    decreases width - |s|
  {
    if |s| >= width then s else PadStart("0" + s, width)
  }

  function HexValue(s: string): nat
    requires AllHex(s)
  {
    if s == [] then 0 else
      assert s == s[..|s| - 1] + [s[|s| - 1]];
      16 * HexValue(s[..|s| - 1]) + HexValueOf(s[|s| - 1])
  }

  lemma {:induction false} HexRoundTrip(n: nat)
    ensures AllHex(ToHex(n)) && HexValue(ToHex(n)) == n && |ToHex(n)| > 0
  {
    if n >= 16 {
      HexRoundTrip(n / 16);
      var first := ToHex(n / 16);
      assert (first + [HexDigit(n % 16)])[..|first|] == first;
    } else {
      assert [HexDigit(n)][..0] == [];
    }
  }

  lemma {:induction false} HexLength(n: nat, k: nat)
    requires k > 0 && n < Pow4(2 * k)
    ensures |ToHex(n)| <= k
  {
    if n >= 16 {
      assert Pow4(2 * k) == 4 * Pow4(2 * k - 1) && Pow4(2 * k - 1) == 4 * Pow4(2 * k - 2);
      assert k > 1 by { assert Pow4(2) == 16; }
      assert n / 16 < Pow4(2 * (k - 1));
      HexLength(n / 16, k - 1);
    }
  }

  lemma {:induction false} LeadingZero(s: string)
    requires AllHex(s)
    ensures AllHex("0" + s) && HexValue("0" + s) == HexValue(s)
  {
    if s == [] {
      assert "0" + s == "0" && "0"[..0] == [];
    } else {
      assert s == s[..|s| - 1] + [s[|s| - 1]];
      assert ("0" + s)[..|s|] == "0" + s[..|s| - 1];
      LeadingZero(s[..|s| - 1]);
    }
  }

  lemma {:induction false} PadFacts(s: string, width: nat)
    requires AllHex(s) && |s| <= width
    ensures var padded := PadStart(s, width);
            |padded| == width && AllHex(padded) && HexValue(padded) == HexValue(s)
    decreases width - |s|
  {
    if |s| < width {
      LeadingZero(s);
      PadFacts("0" + s, width);
    }
  }

  function Hex8(h: Word): string {
    PadStart(ToHex(h), 8)
  }

  // A hash is written with exactly eight lower-case digits, from which it can be read back.
  lemma Hex8Facts(h: Word)
    ensures |Hex8(h)| == 8 && AllHex(Hex8(h)) && HexValue(Hex8(h)) == h
  {
    HexRoundTrip(h);
    assert Pow4(16) == MODULUS by {
      assert Pow4(4) == 256 && Pow4(8) == 65536 && Pow4(12) == 16777216;
    }
    HexLength(h, 8);
    PadFacts(ToHex(h), 8);
  }

  // ---------- the reference ----------

  function Reference(prefix: string, text: seq<CodeUnit>): string {
    prefix + "_" + Hex8(Hash(OFFSET, text))
  }

  // The format the artifact check demands of a reference with this prefix.
  predicate MatchesFormat(ref: string, prefix: string) {
    && |ref| == |prefix| + 9 && ref[..|prefix| + 1] == prefix + "_" && AllHex(ref[|prefix| + 1..])
  }

  lemma ReferenceMatchesFormat(prefix: string, text: seq<CodeUnit>)
    ensures MatchesFormat(Reference(prefix, text), prefix)
    ensures Reference(prefix, text)[|prefix| + 1..] == Hex8(Hash(OFFSET, text))
  {
    hide Hex8, Hash;
    Hex8Facts(Hash(OFFSET, text));
  }

  // References agree exactly when the hashes do.
  lemma ReferenceIsHash(prefix: string, s: seq<CodeUnit>, t: seq<CodeUnit>)
    ensures Reference(prefix, s) == Reference(prefix, t) <==> Hash(OFFSET, s) == Hash(OFFSET, t)
  {
    hide Hex8, Hash;
    ReferenceMatchesFormat(prefix, s);
    ReferenceMatchesFormat(prefix, t);
    Hex8Facts(Hash(OFFSET, s));
    Hex8Facts(Hash(OFFSET, t));
  }

  // Changing one code unit of a text changes its reference.
  lemma SingleChangeChangesReference(prefix: string, s: seq<CodeUnit>, t: seq<CodeUnit>, k: nat)
    requires |s| == |t| && k < |s| && s[k] != t[k]
    requires forall i :: 0 <= i < |s| && i != k ==> s[i] == t[i]
    ensures Reference(prefix, s) != Reference(prefix, t)
  {
    hide Reference, Hash;
    SingleChangeIsDetected(s, t, k);
    ReferenceIsHash(prefix, s, t);
  }

  // ---------- the loop, in signed 32-bit arithmetic ----------

  function Unsigned(n: int): Word { n % MODULUS }

  function Signed(n: int): (r: int)
    ensures -0x8000_0000 <= r < 0x8000_0000 && Unsigned(r) == Unsigned(n)
  {
    var u := n % MODULUS;
    if u >= 0x8000_0000 then u - MODULUS else u
  }

  // The operators ^ and Math.imul work on 32-bit words and give signed results.
  function SignedXor(a: int, u: CodeUnit): int {
    Signed(Xor(Unsigned(a), u))
  }

  function Imul(a: int, b: int): int {
    Signed(Signed(a) * Signed(b))
  }

  lemma SameRemainder(a: int, b: int, k: int)
    requires a == b + k * 0x1_0000_0000
    ensures a % 0x1_0000_0000 == b % 0x1_0000_0000
  {
  }

  lemma ImulByPrime(a: int)
    ensures Unsigned(Imul(a, PRIME)) == Unsigned(a) * PRIME % MODULUS
  {
    var s: int, u: int := Signed(a), Unsigned(a);
    assert Signed(PRIME) == PRIME;
    assert s == u || s == u - 0x1_0000_0000;
    SameRemainder(s * 0x01000193, u * 0x01000193, if s == u then 0 else -0x01000193);
    hide Signed;
  }

  method EvidenceCommitmentRef(prefix: string, text: seq<CodeUnit>) returns (ref: string)
    ensures ref == Reference(prefix, text)
  {
    hide Xor, Imul, Signed;
    var hash: int := OFFSET;
    for index := 0 to |text|
      invariant Unsigned(hash) == Hash(OFFSET, text[..index])
    {
      assert text[..index + 1][..index] == text[..index];
      ghost var h := Unsigned(hash);
      XorWord(h, text[index]);
      hash := SignedXor(hash, text[index]);
      assert Unsigned(hash) == Xor(h, text[index]);
      ImulByPrime(hash);
      hash := Imul(hash, PRIME);
    }
    assert text[..|text|] == text;
    ref := prefix + "_" + Hex8(Unsigned(hash));
  }
}
