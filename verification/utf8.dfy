/** UTF-8 (section 4 of RFC 3629): the two validators of the server, and what well-formed means. */
module Utf8 {
  import opened Bytes

  predicate IsContinuation(b: Byte) { 0x80 <= b < 0xC0 }

  // ---- The range table of scan_preview.cpp

  /** How many bytes a lead byte asks for, and the range of the second; 0 for no lead byte. */
  function LeadLength(b: Byte): nat {
    if b < 0x80 then 1
    else if 0xC2 <= b <= 0xDF then 2
    else if 0xE0 <= b <= 0xEF then 3
    else if 0xF0 <= b <= 0xF4 then 4
    else 0
  }

  predicate SecondInRange(b: Byte, c: Byte) {
    (if b == 0xE0 then 0xA0 else if b == 0xF0 then 0x90 else 0x80) <= c <=
    (if b == 0xED then 0x9F else if b == 0xF4 then 0x8F else 0xBF)
  }

  /** utf8_length: the length of the sequence at p, or 0 if it is invalid or cut off at `end`. */
  function SequenceLength(s: Text, p: nat, end: nat): (n: nat)
    requires p < end <= |s|
    ensures n <= 4 && p + n <= end
  {
    var n := LeadLength(s[p]);
    if n <= 1 then n
    else if end - p < n then 0
    else if !SecondInRange(s[p], s[p + 1]) then 0
    else if n >= 3 && !IsContinuation(s[p + 2]) then 0
    else if n == 4 && !IsContinuation(s[p + 3]) then 0
    else n
  }

  // ---- The decoding validator of json.cpp

  /** The length and the leading bits a first byte announces, by its high bits. */
  function Announced(b: Byte): (nat, nat) {
    if b < 0x80 then (1, b)
    else if b / 32 == 6 then (2, b % 32)
    else if b / 16 == 14 then (3, b % 16)
    else if b / 8 == 30 then (4, b % 8)
    else (0, 0)
  }

  function MinCodePoint(n: nat): nat {
    if n <= 1 then 0 else if n == 2 then 0x80 else if n == 3 then 0x800 else 0x10000
  }

  predicate IsScalar(cp: nat) { cp <= 0x10FFFF && !(0xD800 <= cp <= 0xDFFF) }

  /** The code point that n bytes at p make, if the bytes after the first are continuation bytes. */
  function Decoded(s: Text, p: nat, i: nat, n: nat, cp: nat): Option<nat>
    requires 1 <= i <= n && p + n <= |s|
    decreases n - i
  {
    if i == n then Some(cp)
    else if s[p + i] / 64 != 2 then None
    else Decoded(s, p, i + 1, n, cp * 64 + s[p + i] % 64)
  }

  /** utf8_char: how far it goes, 0 if it fails. */
  function DecodedLength(s: Text, p: nat): (n: nat)
    requires p < |s|
    ensures p + n <= |s|
  {
    var (n, cp) := Announced(s[p]);
    if n == 0 || |s| - p < n then 0
    else match Decoded(s, p, 1, n, cp)
      case None => 0
      case Some(cp) => if cp < MinCodePoint(n) || !IsScalar(cp) then 0 else n
  }

  /** Both accept the same sequences. */
  lemma ValidatorsAgree(s: Text, p: nat)
    requires p < |s|
    ensures DecodedLength(s, p) == SequenceLength(s, p, |s|)
  {
    var (n, cp) := Announced(s[p]);
    if n >= 2 && |s| - p >= n {
      var d2 := Decoded(s, p, 1, n, cp);
      assert s[p + 1] / 64 == 2 ==> d2 == Decoded(s, p, 2, n, cp * 64 + s[p + 1] % 64);
      if n >= 3 && s[p + 1] / 64 == 2 {
        var cp2 := cp * 64 + s[p + 1] % 64;
        assert s[p + 2] / 64 == 2 ==> d2 == Decoded(s, p, 3, n, cp2 * 64 + s[p + 2] % 64);
        if n == 4 && s[p + 2] / 64 == 2 {
          var cp3 := cp2 * 64 + s[p + 2] % 64;
          assert s[p + 3] / 64 == 2 ==> d2 == Decoded(s, p, 4, n, cp3 * 64 + s[p + 3] % 64);
        }
      }
    }
  }

  // ---- Well-formed text

  predicate WellFormedFrom(s: Text, p: nat)
    requires p <= |s|
    decreases |s| - p
  {
    p == |s| || (
      var n := SequenceLength(s, p, |s|);
      n > 0 && WellFormedFrom(s, p + n))
  }

  predicate WellFormed(s: Text) { WellFormedFrom(s, 0) }

  /** Only the bytes of the sequence itself matter. */
  lemma SequenceIsLocal(s: Text, p: nat, end: nat, t: Text, q: nat, end': nat)
    requires p < end <= |s| && q < end' <= |t|
    requires var n := SequenceLength(s, p, end); n > 0 && q + n <= end' && s[p..p + n] == t[q..q + n]
    ensures SequenceLength(t, q, end') == SequenceLength(s, p, end)
  {
    var n := SequenceLength(s, p, end);
    assert s[p..p + n][0] == t[q..q + n][0];
    if n >= 2 { assert s[p..p + n][1] == t[q..q + n][1]; }
    if n >= 3 { assert s[p..p + n][2] == t[q..q + n][2]; }
    if n >= 4 { assert s[p..p + n][3] == t[q..q + n][3]; }
  }

  /** Text after a well-formed text: the whole is well-formed exactly if the rest is. */
  lemma {:induction false} WellFormedAppend(a: Text, b: Text, p: nat)
    requires p <= |a| && WellFormedFrom(a, p)
    ensures WellFormedFrom(a + b, p) <==> WellFormed(b)
    decreases |a| - p
  {
    if p == |a| {
      WellFormedShift(a, b, 0);
    } else {
      var n := SequenceLength(a, p, |a|);
      assert (a + b)[p..p + n] == a[p..p + n];
      SequenceIsLocal(a, p, |a|, a + b, p, |a + b|);
      WellFormedAppend(a, b, p + n);
    }
  }

  lemma {:induction false} WellFormedShift(a: Text, b: Text, q: nat)
    requires q <= |b|
    ensures WellFormedFrom(a + b, |a| + q) <==> WellFormedFrom(b, q)
    decreases |b| - q
  {
    if q < |b| {
      SameSequence(a, b, q);
      var n := SequenceLength(b, q, |b|);
      if n > 0 { WellFormedShift(a, b, q + n); }
    }
  }

  lemma SameSequence(a: Text, b: Text, q: nat)
    requires q < |b|
    ensures SequenceLength(a + b, |a| + q, |a + b|) == SequenceLength(b, q, |b|)
  {
  }

  lemma WellFormedConcat(a: Text, b: Text)
    requires WellFormed(a)
    ensures WellFormed(a + b) <==> WellFormed(b)
  {
    WellFormedAppend(a, b, 0);
  }

  const ELLIPSIS: Text := [0xE2, 0x80, 0xA6]

  // ---- Encoding a code point

  /** append_utf8. */
  function Encode(cp: nat): Text
    requires cp <= 0x10FFFF
  {
    if cp < 0x80 then [cp]
    else if cp < 0x800 then [0xC0 + cp / 64, 0x80 + cp % 64]
    else if cp < 0x10000 then [0xE0 + cp / 4096, 0x80 + cp / 64 % 64, 0x80 + cp % 64]
    else [0xF0 + cp / 262144, 0x80 + cp / 4096 % 64, 0x80 + cp / 64 % 64, 0x80 + cp % 64]
  }

  lemma EncodeIsWellFormed(cp: nat)
    requires IsScalar(cp)
    ensures WellFormed(Encode(cp))
  {
    var e := Encode(cp);
    assert SequenceLength(e, 0, |e|) == |e|;
  }
}
