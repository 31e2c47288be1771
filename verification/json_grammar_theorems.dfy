/** The strict parser accepts exactly the texts of the grammar, and gives the values they spell. */
module JsonGrammarTheorems {
  import opened Bytes
  import opened Utf8
  import opened Json
  import opened JsonParse
  import opened JsonGrammar

  // ---- Characters

  /** A code point is written in its UTF-8 form. */
  lemma EncodeIsUtf8(cp: nat)
    requires IsScalar(cp)
    ensures IsUtf8Of(Encode(cp), cp)
  {
    InSixBits(cp);
    InSixBits(cp / 64);
    InSixBits(cp / 64 / 64);
  }

  lemma InSixBits(n: nat)
    ensures n == n / 64 * 64 + n % 64 && n / 64 / 64 == n / 4096 && n / 64 / 4096 == n / 262144
  {
  }

  lemma SixBits(high: int, low: int)
    requires 0 <= low < 64
    ensures (high * 64 + low) / 64 == high && (high * 64 + low) % 64 == low
  {
  }

  lemma TwoBytes(t: Text, cp: nat)
    requires |t| == 2 && IsUtf8Of(t, cp)
    ensures t == Encode(cp)
  {
    SixBits(Bits(t[0], 0xC0), Bits(t[1], 0x80));
  }

  lemma ThreeBytes(t: Text, cp: nat)
    requires |t| == 3 && IsUtf8Of(t, cp)
    ensures t == Encode(cp)
  {
    var a, b, c := Bits(t[0], 0xE0), Bits(t[1], 0x80), Bits(t[2], 0x80);
    SixBits(a, b);
    SixBits(a * 64 + b, c);
    assert cp / 64 == a * 64 + b && cp / 4096 == a;
  }

  lemma FourBytes(t: Text, cp: nat)
    requires |t| == 4 && IsUtf8Of(t, cp)
    ensures t == Encode(cp)
  {
    var a, b, c, d := Bits(t[0], 0xF0), Bits(t[1], 0x80), Bits(t[2], 0x80), Bits(t[3], 0x80);
    var high := a * 64 + b;
    SixBits(a, b);
    SixBits(high, c);
    SixBits(high * 64 + c, d);
    assert cp / 64 == high * 64 + c && cp / 4096 == high && cp / 262144 == a;
  }

  /** Which is the only one. */
  lemma Utf8IsEncode(t: Text, cp: nat)
    requires IsUtf8Of(t, cp)
    ensures IsScalar(cp) && t == Encode(cp)
  {
    if |t| == 2 {
      TwoBytes(t, cp);
    } else if |t| == 3 {
      ThreeBytes(t, cp);
    } else if |t| == 4 {
      FourBytes(t, cp);
    }
  }

  /** The decoding validator accepts n bytes exactly if they are the form of a code point. */
  lemma DecodedIsUtf8(s: Text, p: nat) returns (cp: nat)
    requires p < |s| && DecodedLength(s, p) > 0
    ensures IsUtf8Of(s[p..p + DecodedLength(s, p)], cp)
  {
    var (n, first) := Announced(s[p]);
    var t := s[p..p + n];
    cp := Decoded(s, p, 1, n, first).value;
    if n == 2 {
      assert Decoded(s, p, 2, n, first * 64 + s[p + 1] % 64).Some?;
    } else if n == 3 {
      var two := first * 64 + s[p + 1] % 64;
      assert Decoded(s, p, 2, n, two) == Decoded(s, p, 3, n, two * 64 + s[p + 2] % 64);
    } else if n == 4 {
      var two := first * 64 + s[p + 1] % 64;
      var three := two * 64 + s[p + 2] % 64;
      assert Decoded(s, p, 2, n, two) == Decoded(s, p, 3, n, three) == Decoded(s, p, 4, n, three * 64 + s[p + 3] % 64);
    }
    assert IsUtf8Of(t, cp);
  }

  lemma NextBits(b: Byte)
    ensures IsNext(b) <==> b / 64 == 2
    ensures IsNext(b) ==> b % 64 == Bits(b, 0x80)
  {
  }

  lemma DecodedTwo(s: Text, p: nat, first: nat)
    requires p + 2 <= |s| && IsNext(s[p + 1])
    ensures Decoded(s, p, 1, 2, first) == Some(first * 64 + Bits(s[p + 1], 0x80))
  {
    NextBits(s[p + 1]);
    assert Decoded(s, p, 1, 2, first) == Decoded(s, p, 2, 2, first * 64 + s[p + 1] % 64);
  }

  lemma DecodedThree(s: Text, p: nat, first: nat)
    requires p + 3 <= |s| && IsNext(s[p + 1]) && IsNext(s[p + 2])
    ensures Decoded(s, p, 1, 3, first) == Some((first * 64 + Bits(s[p + 1], 0x80)) * 64 + Bits(s[p + 2], 0x80))
  {
    NextBits(s[p + 1]);
    NextBits(s[p + 2]);
    var two := first * 64 + s[p + 1] % 64;
    assert Decoded(s, p, 1, 3, first) == Decoded(s, p, 2, 3, two) == Decoded(s, p, 3, 3, two * 64 + s[p + 2] % 64);
  }

  lemma DecodedFour(s: Text, p: nat, first: nat)
    requires p + 4 <= |s| && IsNext(s[p + 1]) && IsNext(s[p + 2]) && IsNext(s[p + 3])
    ensures var two := first * 64 + Bits(s[p + 1], 0x80);
      Decoded(s, p, 1, 4, first) == Some((two * 64 + Bits(s[p + 2], 0x80)) * 64 + Bits(s[p + 3], 0x80))
  {
    NextBits(s[p + 1]);
    NextBits(s[p + 2]);
    NextBits(s[p + 3]);
    var two := first * 64 + s[p + 1] % 64;
    var three := two * 64 + s[p + 2] % 64;
    assert Decoded(s, p, 1, 4, first) == Decoded(s, p, 2, 4, two) == Decoded(s, p, 3, 4, three);
    assert Decoded(s, p, 3, 4, three) == Decoded(s, p, 4, 4, three * 64 + s[p + 3] % 64);
  }

  lemma Leads(b: Byte)
    ensures 0xC0 <= b < 0xE0 ==> Announced(b) == (2, Bits(b, 0xC0))
    ensures 0xE0 <= b < 0xF0 ==> Announced(b) == (3, Bits(b, 0xE0))
    ensures 0xF0 <= b < 0xF8 ==> Announced(b) == (4, Bits(b, 0xF0))
  {
  }

  lemma SameBytes(s: Text, p: nat, t: Text)
    requires p + |t| <= |s| && s[p..p + |t|] == t
    ensures forall i :: 0 <= i < |t| ==> s[p + i] == t[i]
  {
    forall i | 0 <= i < |t|
      ensures s[p + i] == t[i]
    {
      assert s[p..p + |t|][i] == s[p + i];
    }
  }

  lemma Utf8IsDecoded(s: Text, p: nat, t: Text, cp: nat)
    requires p + |t| <= |s| && s[p..p + |t|] == t && IsUtf8Of(t, cp)
    ensures p < |s| && DecodedLength(s, p) == |t| && Announced(s[p]).0 == |t|
    ensures Decoded(s, p, 1, |t|, Announced(s[p]).1) == Some(cp)
  {
    SameBytes(s, p, t);
    assert s[p + 0] == t[0];
    Leads(s[p]);
    var first := Announced(s[p]).1;
    if |t| == 2 {
      assert s[p + 1] == t[1];
      DecodedTwo(s, p, first);
    } else if |t| == 3 {
      assert s[p + 1] == t[1] && s[p + 2] == t[2];
      DecodedThree(s, p, first);
    } else if |t| == 4 {
      assert s[p + 1] == t[1] && s[p + 2] == t[2] && s[p + 3] == t[3];
      DecodedFour(s, p, first);
    }
  }

  /** So the bytes of a code point decode to it. */
  lemma EncodeDecodes(cp: nat)
    requires IsScalar(cp)
    ensures var e := Encode(cp);
      && Announced(e[0]).0 == |e| && Decoded(e, 0, 1, |e|, Announced(e[0]).1) == Some(cp)
      && DecodedLength(e, 0) == |e|
  {
    EncodeIsUtf8(cp);
    assert Encode(cp)[0..|Encode(cp)|] == Encode(cp);
    Utf8IsDecoded(Encode(cp), 0, Encode(cp), cp);
  }

  // ---- Escapes

  lemma HexIs(b: Byte, d: nat)
    ensures HexValue(b) == Some(d) <==> IsHexOf(b, d)
  {
  }

  lemma FourDigits(s: Text, p: nat, a: nat, b: nat, c: nat, d: nat)
    requires p + 4 <= |s| && HexValue(s[p]) == Some(a) && HexValue(s[p + 1]) == Some(b)
    requires HexValue(s[p + 2]) == Some(c) && HexValue(s[p + 3]) == Some(d)
    ensures HexFrom(s, p, 0, 0) == Ok(a * 4096 + b * 256 + c * 16 + d, p + 4)
  {
    assert HexFrom(s, p, 0, 0) == HexFrom(s, p, 1, a);
    assert HexFrom(s, p, 1, a) == HexFrom(s, p, 2, a * 16 + b);
    assert HexFrom(s, p, 2, a * 16 + b) == HexFrom(s, p, 3, a * 256 + b * 16 + c);
    assert HexFrom(s, p, 3, a * 256 + b * 16 + c) == HexFrom(s, p, 4, a * 4096 + b * 256 + c * 16 + d);
  }

  lemma DigitsStand(s: Text, p: nat)
    requires p + 4 <= |s| && HexFrom(s, p, 0, 0).Ok?
    ensures HexValue(s[p]).Some? && HexValue(s[p + 1]).Some? && HexValue(s[p + 2]).Some? && HexValue(s[p + 3]).Some?
  {
    NextDigit(s, p, 0, 0);
    var a := HexValue(s[p]).value;
    NextDigit(s, p, 1, a);
    var b := a * 16 + HexValue(s[p + 1]).value;
    NextDigit(s, p, 2, b);
    NextDigit(s, p, 3, b * 16 + HexValue(s[p + 2]).value);
  }

  lemma UnitSound(s: Text, p: nat)
    requires p + 1 < |s| && s[p] == 92 && s[p + 1] == 117 && Hex4(s, p + 2).Ok?
    ensures UnitAt(s, p, Hex4(s, p + 2).value)
  {
    DigitsStand(s, p + 2);
    var a, b := HexValue(s[p + 2]).value, HexValue(s[p + 3]).value;
    var c, d := HexValue(s[p + 4]).value, HexValue(s[p + 5]).value;
    FourDigits(s, p + 2, a, b, c, d);
    assert UnitParts(s, p, a * 4096 + b * 256 + c * 16 + d, a, b, c, d);
  }

  lemma UnitComplete(s: Text, p: nat, v: nat)
    requires UnitAt(s, p, v)
    ensures p + 6 <= |s| && s[p] == 92 && s[p + 1] == 117 && v < 65536 && Hex4(s, p + 2) == Ok(v, p + 6)
  {
    var a, b, c, d :| UnitParts(s, p, v, a, b, c, d);
    FourDigits(s, p + 2, a, b, c, d);
  }

  lemma UnicodeSound(s: Text, p: nat)
    requires p + 1 < |s| && s[p] == 92 && s[p + 1] == 117 && Escape(s, p + 1).Ok?
    ensures var e := Escape(s, p + 1); EscapeAt(s, p, e.pos, e.value) || PairAt(s, p, e.pos, e.value)
  {
    var e, v := Escape(s, p + 1), Hex4(s, p + 2).value;
    UnitSound(s, p);
    if 0xD800 <= v <= 0xDBFF {
      var lo := Hex4(s, p + 8).value;
      UnitSound(s, p + 6);
      EncodeIsUtf8(0x10000 + (v - 0xD800) * 1024 + (lo - 0xDC00));
      assert PairParts(s, p, e.value, v, lo);
    } else {
      EncodeIsUtf8(v);
    }
  }

  lemma EscapeComplete(s: Text, p: nat, r: nat, t: Text)
    requires EscapeAt(s, p, r, t)
    ensures p < |s| && s[p] == 92 && Escape(s, p + 1) == Ok(t, r)
  {
    var v :| UnitAt(s, p, v) && !(0xD800 <= v <= 0xDFFF) && IsUtf8Of(t, v);
    UnitComplete(s, p, v);
    Utf8IsEncode(t, v);
  }

  lemma SurrogatesJoin(s: Text, q: nat, hi: nat, lo: nat)
    requires q + 6 <= |s| && s[q] == 92 && s[q + 1] == 117 && IsPair(hi, lo) && Hex4(s, q + 2) == Ok(lo, q + 6)
    ensures Surrogate(s, q, hi) == Ok(Encode(0x10000 + (hi - 0xD800) * 1024 + (lo - 0xDC00)), q + 6)
  {
  }

  lemma PairComplete(s: Text, p: nat, r: nat, t: Text)
    requires PairAt(s, p, r, t)
    ensures p < |s| && s[p] == 92 && Escape(s, p + 1) == Ok(t, r)
  {
    var hi: nat, lo: nat :| PairParts(s, p, t, hi, lo);
    UnitComplete(s, p, hi);
    UnitComplete(s, p + 6, lo);
    SurrogatesJoin(s, p + 6, hi, lo);
    Utf8IsEncode(t, 0x10000 + (hi - 0xD800) * 1024 + (lo - 0xDC00));
  }

  // ---- Strings

  lemma RawSound(s: Text, p: nat)
    requires p < |s| && s[p] != 34 && s[p] != 92 && Piece(s, p).Ok?
    ensures RawAt(s, p, Piece(s, p).pos, Piece(s, p).value)
  {
    var cp := DecodedIsUtf8(s, p);
    assert s[p..p + DecodedLength(s, p)][0] == s[p];
  }

  lemma PieceSound(s: Text, p: nat)
    requires p < |s| && s[p] != 34 && Piece(s, p).Ok?
    ensures CharAt(s, p, Piece(s, p).pos, Piece(s, p).value)
  {
    if s[p] != 92 {
      RawSound(s, p);
    } else if s[p + 1] == 117 {
      UnicodeSound(s, p);
    } else {
      assert ShortAt(s, p, p + 2, Piece(s, p).value);
    }
  }

  lemma RawComplete(s: Text, p: nat, r: nat, t: Text)
    requires RawAt(s, p, r, t)
    ensures p < |s| && s[p] != 34 && Piece(s, p) == Ok(t, r)
  {
    var cp :| cp >= 0x20 && cp != 34 && cp != 92 && IsUtf8Of(t, cp);
    Utf8IsDecoded(s, p, t, cp);
    assert s[p] == t[0];
  }

  lemma PieceComplete(s: Text, p: nat, r: nat, t: Text)
    requires CharAt(s, p, r, t)
    ensures p < r && p < |s| && s[p] != 34 && Piece(s, p) == Ok(t, r)
  {
    if RawAt(s, p, r, t) {
      RawComplete(s, p, r, t);
    } else if EscapeAt(s, p, r, t) {
      EscapeComplete(s, p, r, t);
    } else if PairAt(s, p, r, t) {
      PairComplete(s, p, r, t);
    } else {
      assert Escape(s, p + 1) == Ok(t, r) by { assert t == [t[0]]; }
    }
  }

  /** What is read after acc, up to the closing quote at q, spells the rest of t. */
  ghost predicate Continues(s: Text, p: nat, acc: Text, t: Text, q: nat) {
    |acc| <= |t| && t[..|acc|] == acc && p <= q < |s| && s[q] == 34 && CharsAt(s, p, q, t[|acc|..])
  }

  lemma NothingMore(s: Text, q: nat, acc: Text)
    requires q < |s| && s[q] == 34
    ensures Continues(s, q, acc, acc, q)
  {
    assert acc[..|acc|] == acc && acc[|acc|..] == [];
  }

  lemma {:induction false} StringSound(s: Text, p: nat, acc: Text)
    requires p <= |s| && StringFrom(s, p, acc).Ok?
    ensures var r := StringFrom(s, p, acc); r.pos > 0 && Continues(s, p, acc, r.value, r.pos - 1)
    decreases |s| - p
  {
    if s[p] == 34 {
      NothingMore(s, p, acc);
    } else {
      var piece, r := Piece(s, p), StringFrom(s, p, acc);
      PieceSound(s, p);
      StringSound(s, piece.pos, acc + piece.value);
      CharsCons(s, p, acc, piece.value, piece.pos, r.value, r.pos - 1);
    }
  }

  lemma CharsCons(s: Text, p: nat, acc: Text, piece: Text, r: nat, t: Text, q: nat)
    requires p < r && CharAt(s, p, r, piece) && Continues(s, r, acc + piece, t, q)
    ensures Continues(s, p, acc, t, q)
  {
    var rest, k := t[|acc|..], |piece|;
    assert t[..|acc|] == t[..|acc + piece|][..|acc|];
    assert rest[..k] == t[..|acc + piece|][|acc|..] == piece;
    assert rest[k..] == t[|acc + piece|..];
    assert CharThen(s, p, q, rest, r, k);
  }

  lemma {:induction false} StringComplete(s: Text, p: nat, q: nat, t: Text, acc: Text)
    requires CharsAt(s, p, q, t) && q < |s| && s[q] == 34
    ensures p <= q && StringFrom(s, p, acc) == Ok(acc + t, q + 1)
    decreases q - p
  {
    if p >= q {
      assert acc + t == acc;
    } else {
      var r: nat, k: nat :| CharThen(s, p, q, t, r, k);
      PieceComplete(s, p, r, t[..k]);
      StringComplete(s, r, q, t[k..], acc + t[..k]);
      assert acc + t[..k] + t[k..] == acc + t;
    }
  }

  lemma QuotedSound(s: Text, p: nat)
    requires p < |s| && s[p] == 34 && ParseString(s, p).Ok?
    ensures StringAt(s, p, ParseString(s, p).pos, ParseString(s, p).value)
  {
    StringSound(s, p + 1, []);
    var t := ParseString(s, p).value;
    assert t[0..] == t;
  }

  lemma QuotedComplete(s: Text, p: nat, q: nat, t: Text)
    requires StringAt(s, p, q, t)
    ensures ParseString(s, p) == Ok(t, q)
  {
    StringComplete(s, p + 1, q - 1, t, []);
    assert [] + t == t;
  }

  // ---- Space and numbers

  lemma {:induction false} SkipSound(s: Text, p: nat)
    requires p <= |s|
    ensures BlankAt(s, p, SkipSpace(s, p))
    decreases |s| - p
  {
    if p < |s| && IsSpace(s[p]) { SkipSound(s, p + 1); }
  }

  lemma {:induction false} SkipComplete(s: Text, p: nat, a: nat)
    requires BlankAt(s, p, a) && (a == |s| || !IsBlank(s[a]))
    ensures SkipSpace(s, p) == a
    decreases a - p
  {
    if p < a { SkipComplete(s, p + 1, a); }
  }

  lemma {:induction false} DigitsSound(s: Text, p: nat)
    requires p < |s| && IsDigit(s[p])
    ensures DigitsAt(s, p, DigitsEnd(s, p))
    decreases |s| - p
  {
    if p + 1 < |s| && IsDigit(s[p + 1]) {
      DigitsSound(s, p + 1);
    } else {
      assert DigitsEnd(s, p + 1) == p + 1;
    }
  }

  lemma {:induction false} DigitsComplete(s: Text, p: nat, q: nat)
    requires DigitsAt(s, p, q) && (q == |s| || !(48 <= s[q] <= 57))
    ensures IsDigit(s[p]) && DigitsEnd(s, p) == q
    decreases q - p
  {
    if p + 1 < q {
      DigitsComplete(s, p + 1, q);
    } else {
      assert DigitsEnd(s, q) == q;
    }
  }

  lemma NumberSound(s: Text, p: nat)
    requires p <= |s| && NumberEnd(s, p).Ok?
    ensures NumberAt(s, p, NumberEnd(s, p).pos)
  {
    var a := if s[p] == MINUS then p + 1 else p;
    var b := if s[a] == 48 then a + 1 else DigitsEnd(s, a);
    var c, q := Fraction(s, b).pos, NumberEnd(s, p).pos;
    DigitsSound(s, a);
    FractionSound(s, b);
    ExponentSound(s, c);
    assert NumberParts(s, p, a, b, c, q);
  }

  lemma FractionSound(s: Text, b: nat)
    requires b <= |s| && Fraction(s, b).Ok?
    ensures var c := Fraction(s, b).pos; b == c || (b < |s| && s[b] == 46 && DigitsAt(s, b + 1, c))
  {
    if b < |s| && s[b] == 46 { DigitsSound(s, b + 1); }
  }

  lemma ExponentSound(s: Text, c: nat)
    requires c <= |s| && Exponent(s, c).Ok?
    ensures var q := Exponent(s, c).pos; c == q || ExponentAt(s, c, q)
  {
    if c < |s| && (s[c] == 101 || s[c] == 69) {
      DigitsSound(s, if s[c + 1] == 43 || s[c + 1] == MINUS then c + 2 else c + 1);
    }
  }

  /** What comes after a value: the end, space, a comma, or a closing bracket or brace. */
  predicate Stops(s: Text, q: nat) {
    q == |s| || (q < |s| && (IsBlank(s[q]) || s[q] == 44 || s[q] == 93 || s[q] == 125))
  }

  lemma FractionComplete(s: Text, b: nat, c: nat)
    requires b <= c <= |s| && (b == c || (s[b] == 46 && DigitsAt(s, b + 1, c)))
    requires c == |s| || (!(48 <= s[c] <= 57) && s[c] != 46)
    ensures Fraction(s, b) == Ok((), c)
  {
    if b < c { DigitsComplete(s, b + 1, c); }
  }

  lemma ExponentComplete(s: Text, c: nat, q: nat)
    requires c <= q <= |s| && (c == q || ExponentAt(s, c, q))
    requires q == |s| || (!(48 <= s[q] <= 57) && s[q] != 101 && s[q] != 69)
    ensures Exponent(s, c) == Ok((), q)
  {
    if c < q { DigitsComplete(s, if DigitsAt(s, c + 1, q) then c + 1 else c + 2, q); }
  }

  lemma NumberComplete(s: Text, p: nat, q: nat)
    requires NumberAt(s, p, q) && Stops(s, q)
    ensures p < |s| && (s[p] == 45 || 48 <= s[p] <= 57) && NumberEnd(s, p) == Ok((), q)
  {
    var a: nat, b: nat, c: nat :| NumberParts(s, p, a, b, c, q);
    ExponentComplete(s, c, q);
    FractionComplete(s, b, c);
    DigitsComplete(s, a, b);
  }

  // ---- Members

  lemma {:induction false} FirstNamesAre(ms: seq<Member>, n: Text)
    ensures n in FirstNames(ms) <==> HasName(ms, n)
  {
    if ms != [] {
      var most, last := ms[..|ms| - 1], ms[|ms| - 1];
      FirstNamesAre(most, n);
      if HasName(ms, n) && last.name != n {
        var i :| 0 <= i < |ms| && ms[i].name == n;
        assert most[i].name == n;
      }
      if HasName(most, n) {
        var i :| 0 <= i < |most| && most[i].name == n;
        assert ms[i].name == n;
      }
    }
  }

  lemma {:induction false} FirstNamesDiffer(ms: seq<Member>)
    ensures NoDup(FirstNames(ms))
  {
    if ms != [] { FirstNamesDiffer(ms[..|ms| - 1]); }
  }

  lemma MeansNothing()
    ensures Means([], [])
  {
  }

  /** Members mean one thing. */
  lemma MeansOne(ms: seq<Member>, r: seq<Member>, t: seq<Member>)
    requires Means(ms, r) && Means(ms, t)
    ensures r == t
  {
    forall i | 0 <= i < |r|
      ensures r[i] == t[i]
    {
      FindIsLast(ms, r[i].name);
    }
  }

  lemma {:induction false} SetReplaces(r: seq<Member>, i: nat, v: Json)
    requires DistinctNames(r) && i < |r|
    ensures Set(r, r[i].name, v) == r[i := Member(r[i].name, v)]
  {
    if i > 0 {
      assert r[1..][i - 1] == r[i];
      SetReplaces(r[1..], i - 1, v);
      assert [r[0]] + r[1..][i - 1 := Member(r[i].name, v)] == r[i := Member(r[i].name, v)];
    }
  }

  /** One more member. */
  lemma MeansSet(ms: seq<Member>, r: seq<Member>, m: Member)
    requires Means(ms, r)
    ensures Means(ms + [m], Set(r, m.name, m.value))
  {
    var all, names := ms + [m], FirstNames(ms);
    assert all[..|all| - 1] == ms;
    FirstNamesDiffer(ms);
    NamesOf(ms, r);
    assert IsLastAt(all, m.name, m.value, |ms|);
    forall i | 0 <= i < |r| && r[i].name != m.name
      ensures LastNamed(all, r[i].name, r[i].value)
    {
      LastNamedBefore(all, r[i].name, r[i].value);
    }
    if m.name in names {
      var i :| 0 <= i < |names| && names[i] == m.name;
      SetReplaces(r, i, m.value);
    } else {
      SetNewAppends(r, m.name, m.value);
    }
  }

  lemma NamesOf(ms: seq<Member>, r: seq<Member>)
    requires Means(ms, r) && NoDup(FirstNames(ms))
    ensures DistinctNames(r) && forall n :: HasName(r, n) <==> n in FirstNames(ms)
  {
    var names := FirstNames(ms);
    forall n
      ensures HasName(r, n) <==> n in names
    {
      if n in names {
        var i :| 0 <= i < |names| && names[i] == n;
        assert r[i].name == n;
      }
    }
  }

  // ---- Values: what the parser accepts is in the grammar

  /** The parser's result at p is what a tree says that stands there. */
  ghost predicate Agrees(s: Text, p: nat, r: Result<Json>, t: Tree, depth: nat, max: nat) {
    r.Ok? && t.start == p && t.end == r.pos && Meaning(t) == r.value && Stands(t, s, depth, max)
  }

  lemma {:induction false} ValueSound(s: Text, p: nat, depth: nat, max: nat) returns (t: Tree)
    requires p <= |s| && Value(s, p, depth, max).Ok?
    ensures Agrees(s, p, Value(s, p, depth, max), t, depth, max)
    decreases |s| - p, 2
  {
    var r := Value(s, p, depth, max);
    if s[p] == 123 {
      t := ObjectSound(s, p, depth, max);
    } else if s[p] == 91 {
      t := ArraySound(s, p, depth, max);
    } else if s[p] == 34 {
      QuotedSound(s, p);
      t := Quoted(p, r.pos, r.value.text);
    } else if s[p] == 116 || s[p] == 102 || s[p] == 110 {
      AtSlice(s, p, if s[p] == 116 then TRUE else if s[p] == 102 then FALSE else NULL);
      t := Word(p, r.pos, r.value);
    } else {
      NumberSound(s, p);
      t := Numeral(p, r.pos, s[p..r.pos]);
    }
  }

  lemma EmptyBrackets(s: Text, p: nat, q: nat, depth: nat, max: nat)
    requires p < q < |s| && s[p] == 91 && BlankAt(s, p + 1, q) && s[q] == 93 && depth < max
    ensures Agrees(s, p, Ok(Array([]), q + 1), Bracketed(p, q + 1, []), depth, max)
  {
  }

  lemma Brackets(s: Text, p: nat, q: nat, r: Result<Json>, items: seq<Item>, depth: nat, max: nat)
    requires p < q <= |s| && s[p] == 91 && BlankAt(s, p + 1, q) && depth < max
    requires ItemsAgree(s, q, r, items, [], depth + 1, max) && p + 1 < r.pos
    ensures Agrees(s, p, r, Bracketed(p, r.pos, items), depth, max)
  {
    assert ItemStands(items[0], s, q, depth + 1, max);
    BlankBoth(s, p + 1, q, items[0].value.start);
    assert ItemStands(items[0], s, p + 1, depth + 1, max);
    assert [] + Meanings(items) == Meanings(items);
  }

  lemma {:induction false} ArraySound(s: Text, p: nat, depth: nat, max: nat) returns (t: Tree)
    requires p < |s| && s[p] == 91 && ParseArray(s, p, depth + 1, max).Ok?
    ensures Agrees(s, p, ParseArray(s, p, depth + 1, max), t, depth, max)
    decreases |s| - p, 1
  {
    var q := SkipSpace(s, p + 1);
    SkipSound(s, p + 1);
    if q < |s| && s[q] == 93 {
      EmptyBrackets(s, p, q, depth, max);
      t := Bracketed(p, q + 1, []);
    } else {
      var items := ItemsSound(s, q, depth + 1, max, []);
      var r := Items(s, q, depth + 1, max, []);
      Brackets(s, p, q, r, items, depth, max);
      t := Bracketed(p, r.pos, items);
    }
  }

  lemma BlankBoth(s: Text, p: nat, q: nat, a: nat)
    requires BlankAt(s, p, q) && BlankAt(s, q, a)
    ensures BlankAt(s, p, a)
  {
  }

  /** How the parser goes on after an item. */
  ghost predicate ItemsGoOn(s: Text, r: Result<Json>, more: seq<Json>, c: nat, depth: nat, max: nat) {
    && c < |s|
    && if s[c] == 44 then r == Items(s, c + 1, depth, max, more) else s[c] == 93 && r == Ok(Array(more), c + 1)
  }

  lemma ItemsUnfold(s: Text, p: nat, depth: nat, max: nat, acc: seq<Json>)
    requires p <= |s| && Items(s, p, depth, max, acc).Ok?
    ensures var v := Value(s, SkipSpace(s, p), depth, max);
      v.Ok? && ItemsGoOn(s, Items(s, p, depth, max, acc), acc + [v.value], SkipSpace(s, v.pos), depth, max)
  {
  }

  /** The items that are read after acc, and that they stand there, up to the closing bracket. */
  ghost predicate ItemsAgree(s: Text, p: nat, r: Result<Json>, items: seq<Item>, acc: seq<Json>, depth: nat, max: nat) {
    && r.Ok? && 0 < r.pos <= |s| && s[r.pos - 1] == 93 && items != []
    && r.value == Array(acc + Meanings(items)) && ItemsStand(items, s, p, r.pos - 1, depth, max)
  }

  lemma OneItem(s: Text, p: nat, first: Item, acc: seq<Json>, depth: nat, max: nat)
    requires ItemStands(first, s, p, depth, max) && first.next < |s| && s[first.next] == 93
    ensures ItemsAgree(s, p, Ok(Array(acc + [Meaning(first.value)]), first.next + 1), [first], acc, depth, max)
  {
    assert [first][1..] == [] && Meanings([first]) == [MeaningOf(first)];
  }

  lemma MoreItems(s: Text, p: nat, first: Item, rest: seq<Item>, r: Result<Json>, acc: seq<Json>, depth: nat, max: nat)
    requires ItemStands(first, s, p, depth, max) && first.next < |s| && s[first.next] == 44
    requires ItemsAgree(s, first.next + 1, r, rest, acc + [Meaning(first.value)], depth, max)
    ensures ItemsAgree(s, p, r, [first] + rest, acc, depth, max)
  {
    var items := [first] + rest;
    assert items[0] == first && items[1..] == rest;
    Regroup(acc, [Meaning(first.value)], Meanings(rest));
  }

  lemma {:induction false} OneItemSound(s: Text, p: nat, depth: nat, max: nat) returns (i: Item)
    requires p <= |s| && Value(s, SkipSpace(s, p), depth, max).Ok?
    ensures var v := Value(s, SkipSpace(s, p), depth, max);
      ItemStands(i, s, p, depth, max) && Meaning(i.value) == v.value && p < i.next == SkipSpace(s, v.pos)
    decreases |s| - p, 3
  {
    var v := Value(s, SkipSpace(s, p), depth, max);
    SkipSound(s, p);
    SkipSound(s, v.pos);
    var t := ValueSound(s, SkipSpace(s, p), depth, max);
    i := Item(t, SkipSpace(s, v.pos));
  }

  lemma {:induction false} FirstItemSound(s: Text, p: nat, depth: nat, max: nat, acc: seq<Json>) returns (i: Item)
    requires p <= |s| && Items(s, p, depth, max, acc).Ok?
    ensures p < i.next && ItemStands(i, s, p, depth, max)
    ensures ItemsGoOn(s, Items(s, p, depth, max, acc), acc + [Meaning(i.value)], i.next, depth, max)
    decreases |s| - p, 4
  {
    ItemsUnfold(s, p, depth, max, acc);
    i := OneItemSound(s, p, depth, max);
  }

  lemma {:induction false} ItemsSound(s: Text, p: nat, depth: nat, max: nat, acc: seq<Json>) returns (items: seq<Item>)
    requires p <= |s| && Items(s, p, depth, max, acc).Ok?
    ensures ItemsAgree(s, p, Items(s, p, depth, max, acc), items, acc, depth, max)
    decreases |s| - p, 5
  {
    var first := FirstItemSound(s, p, depth, max, acc);
    items := AfterItemSound(s, p, first, Items(s, p, depth, max, acc), depth, max, acc);
  }

  lemma {:induction false} AfterItemSound(
    s: Text, p: nat, first: Item, r: Result<Json>, depth: nat, max: nat, acc: seq<Json>) returns (items: seq<Item>)
    requires p <= first.next && ItemStands(first, s, p, depth, max) && r.Ok?
    requires ItemsGoOn(s, r, acc + [Meaning(first.value)], first.next, depth, max)
    ensures ItemsAgree(s, p, r, items, acc, depth, max)
    decreases |s| - first.next - 1, 7
  {
    if s[first.next] == 44 {
      items := ThenItemsSound(s, p, first, depth, max, acc);
    } else {
      OneItem(s, p, first, acc, depth, max);
      items := [first];
    }
  }

  lemma {:induction false} ThenItemsSound(s: Text, p: nat, first: Item, depth: nat, max: nat, acc: seq<Json>)
    returns (items: seq<Item>)
    requires p <= first.next < |s| && ItemStands(first, s, p, depth, max) && s[first.next] == 44
    requires Items(s, first.next + 1, depth, max, acc + [Meaning(first.value)]).Ok?
    ensures ItemsAgree(s, p, Items(s, first.next + 1, depth, max, acc + [Meaning(first.value)]), items, acc, depth, max)
    decreases |s| - first.next - 1, 6
  {
    var more := acc + [Meaning(first.value)];
    var rest := ItemsSound(s, first.next + 1, depth, max, more);
    MoreItems(s, p, first, rest, Items(s, first.next + 1, depth, max, more), acc, depth, max);
    items := [first] + rest;
  }

  /** The members as the parser collects them, after those in acc. */
  function Collected(acc: seq<Member>, entries: seq<Entry>): seq<Member>
    decreases |entries|
  {
    if entries == [] then acc
    else Collected(Set(acc, entries[0].name, Meaning(entries[0].value)), entries[1..])
  }

  lemma {:induction false} CollectedMeans(before: seq<Member>, acc: seq<Member>, entries: seq<Entry>)
    requires Means(before, acc)
    ensures Means(before + MembersOf(entries), Collected(acc, entries))
    decreases |entries|
  {
    if entries == [] {
      assert before + MembersOf(entries) == before;
    } else {
      var m, rest := MemberOf(entries[0]), entries[1..];
      MeansSet(before, acc, m);
      CollectedMeans(before + [m], Set(acc, m.name, m.value), rest);
      Regroup(before, [m], MembersOf(rest));
    }
  }

  lemma Collects(entries: seq<Entry>)
    ensures Means(MembersOf(entries), Collected([], entries))
  {
    CollectedMeans([], [], entries);
    assert [] + MembersOf(entries) == MembersOf(entries);
  }

  lemma EmptyBraces(s: Text, p: nat, q: nat, depth: nat, max: nat)
    requires p < q < |s| && s[p] == 123 && BlankAt(s, p + 1, q) && s[q] == 125 && depth < max
    ensures Agrees(s, p, Ok(Object([]), q + 1), Braced(p, q + 1, [], []), depth, max)
  {
  }

  lemma Braces(s: Text, p: nat, q: nat, r: Result<Json>, entries: seq<Entry>, depth: nat, max: nat)
    requires p < q <= |s| && s[p] == 123 && BlankAt(s, p + 1, q) && depth < max
    requires MembersAgree(s, q, r, entries, [], depth + 1, max) && p + 1 < r.pos
    ensures Agrees(s, p, r, Braced(p, r.pos, entries, r.value.members), depth, max)
  {
    assert EntryStands(entries[0], s, q, depth + 1, max);
    BlankBoth(s, p + 1, q, entries[0].start);
    assert EntryStands(entries[0], s, p + 1, depth + 1, max);
    Collects(entries);
  }

  lemma {:induction false} ObjectSound(s: Text, p: nat, depth: nat, max: nat) returns (t: Tree)
    requires p < |s| && s[p] == 123 && ParseObject(s, p, depth + 1, max).Ok?
    ensures Agrees(s, p, ParseObject(s, p, depth + 1, max), t, depth, max)
    decreases |s| - p, 1
  {
    var q := SkipSpace(s, p + 1);
    SkipSound(s, p + 1);
    if q < |s| && s[q] == 125 {
      EmptyBraces(s, p, q, depth, max);
      t := Braced(p, q + 1, [], []);
    } else {
      var entries := MembersSound(s, q, depth + 1, max, []);
      var r := Members(s, q, depth + 1, max, []);
      Braces(s, p, q, r, entries, depth, max);
      t := Braced(p, r.pos, entries, r.value.members);
    }
  }

  /** How the parser goes on after a member. */
  ghost predicate GoesOn(s: Text, r: Result<Json>, next: seq<Member>, f: nat, depth: nat, max: nat) {
    && f < |s|
    && if s[f] == 44 then r == Members(s, f + 1, depth, max, next)
       else s[f] == 125 && r == Ok(Object(next), f + 1)
  }

  lemma MembersUnfold(s: Text, p: nat, depth: nat, max: nat, acc: seq<Member>)
    requires p <= |s| && Members(s, p, depth, max, acc).Ok?
    ensures var one := OneMember(s, p, depth, max, acc);
      one.Ok? && GoesOn(s, Members(s, p, depth, max, acc), one.value, SkipSpace(s, one.pos), depth, max)
  {
  }

  lemma {:induction false} OneMemberSound(s: Text, p: nat, depth: nat, max: nat, acc: seq<Member>) returns (e: Entry)
    requires p <= |s| && OneMember(s, p, depth, max, acc).Ok?
    ensures var one := OneMember(s, p, depth, max, acc);
      && EntryStands(e, s, p, depth, max) && p < e.next == SkipSpace(s, one.pos)
      && one.value == Set(acc, e.name, Meaning(e.value))
    decreases |s| - p, 3
  {
    var name := Name(s, p);
    var a := SkipSpace(s, p);
    var b := ParseString(s, a).pos;
    var c, v := SkipSpace(s, b), Value(s, name.pos, depth, max);
    SkipSound(s, p);
    QuotedSound(s, a);
    SkipSound(s, b);
    SkipSound(s, c + 1);
    SkipSound(s, v.pos);
    var t := ValueSound(s, name.pos, depth, max);
    e := Entry(name.value, a, b, c, t, SkipSpace(s, v.pos));
  }

  /** The members that are read after acc, and that they stand there, up to the closing brace. */
  ghost predicate MembersAgree(
    s: Text, p: nat, r: Result<Json>, entries: seq<Entry>, acc: seq<Member>, depth: nat, max: nat)
  {
    && r.Ok? && 0 < r.pos <= |s| && s[r.pos - 1] == 125 && entries != []
    && r.value == Object(Collected(acc, entries)) && EntriesStand(entries, s, p, r.pos - 1, depth, max)
  }

  lemma OneEntry(s: Text, p: nat, e: Entry, acc: seq<Member>, depth: nat, max: nat)
    requires EntryStands(e, s, p, depth, max) && e.next < |s| && s[e.next] == 125
    ensures MembersAgree(s, p, Ok(Object(Set(acc, e.name, Meaning(e.value))), e.next + 1), [e], acc, depth, max)
  {
    assert [e][1..] == [] && Collected(acc, [e]) == Set(acc, e.name, Meaning(e.value));
  }

  lemma MoreEntries(
    s: Text, p: nat, e: Entry, rest: seq<Entry>, r: Result<Json>, acc: seq<Member>, depth: nat, max: nat)
    requires EntryStands(e, s, p, depth, max) && e.next < |s| && s[e.next] == 44
    requires MembersAgree(s, e.next + 1, r, rest, Set(acc, e.name, Meaning(e.value)), depth, max)
    ensures MembersAgree(s, p, r, [e] + rest, acc, depth, max)
  {
    var entries := [e] + rest;
    assert entries[0] == e && entries[1..] == rest;
  }

  lemma {:induction false} MembersSound(s: Text, p: nat, depth: nat, max: nat, acc: seq<Member>)
    returns (entries: seq<Entry>)
    requires p <= |s| && Members(s, p, depth, max, acc).Ok?
    ensures MembersAgree(s, p, Members(s, p, depth, max, acc), entries, acc, depth, max)
    decreases |s| - p, 5
  {
    var e := FirstMemberSound(s, p, depth, max, acc);
    entries := AfterMemberSound(s, p, e, Members(s, p, depth, max, acc), depth, max, acc);
  }

  lemma {:induction false} FirstMemberSound(s: Text, p: nat, depth: nat, max: nat, acc: seq<Member>) returns (e: Entry)
    requires p <= |s| && Members(s, p, depth, max, acc).Ok?
    ensures p < e.next && EntryStands(e, s, p, depth, max)
    ensures GoesOn(s, Members(s, p, depth, max, acc), Set(acc, e.name, Meaning(e.value)), e.next, depth, max)
    decreases |s| - p, 4
  {
    MembersUnfold(s, p, depth, max, acc);
    e := OneMemberSound(s, p, depth, max, acc);
  }

  lemma {:induction false} AfterMemberSound(
    s: Text, p: nat, e: Entry, r: Result<Json>, depth: nat, max: nat, acc: seq<Member>) returns (entries: seq<Entry>)
    requires p <= e.next && EntryStands(e, s, p, depth, max) && r.Ok?
    requires GoesOn(s, r, Set(acc, e.name, Meaning(e.value)), e.next, depth, max)
    ensures MembersAgree(s, p, r, entries, acc, depth, max)
    decreases |s| - e.next - 1, 7
  {
    if s[e.next] == 44 {
      entries := ThenMembersSound(s, p, e, depth, max, acc);
    } else {
      OneEntry(s, p, e, acc, depth, max);
      entries := [e];
    }
  }

  lemma {:induction false} ThenMembersSound(s: Text, p: nat, e: Entry, depth: nat, max: nat, acc: seq<Member>)
    returns (entries: seq<Entry>)
    requires p <= e.next < |s| && EntryStands(e, s, p, depth, max) && s[e.next] == 44
    requires Members(s, e.next + 1, depth, max, Set(acc, e.name, Meaning(e.value))).Ok?
    ensures var r := Members(s, e.next + 1, depth, max, Set(acc, e.name, Meaning(e.value)));
      MembersAgree(s, p, r, entries, acc, depth, max)
    decreases |s| - e.next - 1, 6
  {
    var next := Set(acc, e.name, Meaning(e.value));
    var rest := MembersSound(s, e.next + 1, depth, max, next);
    MoreEntries(s, p, e, rest, Members(s, e.next + 1, depth, max, next), acc, depth, max);
    entries := [e] + rest;
  }

  // ---- Values: what is in the grammar is accepted

  lemma TreeStarts(t: Tree, s: Text, depth: nat, max: nat)
    requires Stands(t, s, depth, max)
    ensures t.start < |s| && !IsBlank(s[t.start]) && s[t.start] != 93 && s[t.start] != 125
    ensures match t
      case Word(p, q, word) => s[p] == if word.Null? then 110 else if word == Bool(true) then 116 else 102
      case Numeral(p, _, _) => s[p] == 45 || 48 <= s[p] <= 57
      case Quoted(p, _, _) => s[p] == 34
      case Bracketed(p, _, _) => s[p] == 91
      case Braced(p, _, _, _) => s[p] == 123
  {
    match t
    case Word(p, q, word) => assert s[p..q][0] == s[p];
    case Numeral(p, q, digits) =>
      var a: nat, b: nat, c: nat :| NumberParts(s, p, a, b, c, q);
    case _ =>
  }

  lemma WordComplete(s: Text, p: nat, q: nat, word: Json, depth: nat, max: nat)
    requires p < q <= |s| && IsWord(s[p..q], word)
    ensures Value(s, p, depth, max) == Ok(word, q)
  {
    assert s[p..q][0] == s[p];
    assert At(s, p, s[p..q]);
  }

  lemma NumeralComplete(s: Text, p: nat, q: nat, depth: nat, max: nat)
    requires NumberAt(s, p, q) && p < q <= |s| && Stops(s, q)
    ensures Value(s, p, depth, max) == Ok(Number(s[p..q]), q)
  {
    NumberComplete(s, p, q);
  }

  lemma {:induction false} ValueComplete(t: Tree, s: Text, depth: nat, max: nat)
    requires Stands(t, s, depth, max) && Stops(s, t.end)
    ensures Value(s, t.start, depth, max) == Ok(Meaning(t), t.end)
    decreases t, 1
  {
    match t
    case Word(p, q, word) => WordComplete(s, p, q, word, depth, max);
    case Numeral(p, q, _) => NumeralComplete(s, p, q, depth, max);
    case Quoted(p, q, text) => QuotedComplete(s, p, q, text);
    case Bracketed(p, q, items) => ArrayComplete(t, s, depth, max);
    case Braced(p, q, entries, members) => ObjectComplete(t, s, depth, max);
  }

  lemma {:induction false} ArrayComplete(t: Tree, s: Text, depth: nat, max: nat)
    requires t.Bracketed? && Stands(t, s, depth, max)
    ensures ParseArray(s, t.start, depth + 1, max) == Ok(Meaning(t), t.end)
    decreases t, 0
  {
    var p, q, items := t.start, t.end, t.items;
    if items == [] {
      SkipComplete(s, p + 1, q - 1);
      assert Meanings(items) == [];
    } else {
      FirstItemStarts(items, s, p + 1, q - 1, depth + 1, max);
      ItemsComplete(items, s, items[0].value.start, q - 1, depth + 1, max, []);
      assert [] + Meanings(items) == Meanings(items);
    }
  }

  lemma FirstItemStarts(items: seq<Item>, s: Text, p: nat, q: nat, depth: nat, max: nat)
    requires items != [] && ItemsStand(items, s, p, q, depth, max)
    ensures var a := items[0].value.start;
      p <= |s| && SkipSpace(s, p) == a < |s| && s[a] != 93 && ItemsStand(items, s, a, q, depth, max)
  {
    assert ItemStands(items[0], s, p, depth, max);
    TreeStarts(items[0].value, s, depth, max);
    SkipComplete(s, p, items[0].value.start);
    assert ItemStands(items[0], s, items[0].value.start, depth, max);
  }

  /** After a value, and space, comes a byte that ends it. */
  lemma StopsBefore(s: Text, q: nat, next: nat)
    requires BlankAt(s, q, next) && next < |s| && (s[next] == 44 || s[next] == 93 || s[next] == 125)
    ensures Stops(s, q) && SkipSpace(s, q) == next
  {
    SkipComplete(s, q, next);
  }

  lemma {:induction false} ItemComplete(i: Item, s: Text, p: nat, depth: nat, max: nat)
    requires ItemStands(i, s, p, depth, max) && i.next < |s| && (s[i.next] == 44 || s[i.next] == 93)
    ensures SkipSpace(s, p) == i.value.start && SkipSpace(s, i.value.end) == i.next && i.value.end <= |s|
    ensures Value(s, i.value.start, depth, max) == Ok(Meaning(i.value), i.value.end)
    decreases i, 2
  {
    TreeStarts(i.value, s, depth, max);
    SkipComplete(s, p, i.value.start);
    StopsBefore(s, i.value.end, i.next);
    ValueComplete(i.value, s, depth, max);
  }

  /** Reading the items at p, after those already read, gives all of them. */
  ghost predicate ReadsItems(s: Text, p: nat, depth: nat, max: nat, acc: seq<Json>, all: seq<Json>, end: nat) {
    p <= |s| && Items(s, p, depth, max, acc) == Ok(Array(all), end)
  }

  lemma ItemsFold(s: Text, p: nat, depth: nat, max: nat, acc: seq<Json>, v: Json, u: nat, c: nat,
                  all: seq<Json>, end: nat)
    requires p <= |s| && Value(s, SkipSpace(s, p), depth, max) == Ok(v, u) && SkipSpace(s, u) == c < |s|
    requires if s[c] == 44 then ReadsItems(s, c + 1, depth, max, acc + [v], all, end)
             else s[c] == 93 && all == acc + [v] && end == c + 1
    ensures ReadsItems(s, p, depth, max, acc, all, end)
  {
  }

  /** The first of some items, and the others. */
  lemma ItemsSplit(items: seq<Item>, s: Text, p: nat, q: nat, depth: nat, max: nat)
    requires items != [] && ItemsStand(items, s, p, q, depth, max)
    ensures var first, rest := items[0], items[1..];
      && ItemStands(first, s, p, depth, max) && Meanings(items) == [Meaning(first.value)] + Meanings(rest)
      && if rest == [] then first.next == q
         else first.next < |s| && s[first.next] == 44 && ItemsStand(rest, s, first.next + 1, q, depth, max)
  {
  }

  lemma {:induction false} ItemsComplete(
    items: seq<Item>, s: Text, p: nat, q: nat, depth: nat, max: nat, acc: seq<Json>)
    requires items != [] && p <= |s| && ItemsStand(items, s, p, q, depth, max) && q < |s| && s[q] == 93
    ensures ReadsItems(s, p, depth, max, acc, acc + Meanings(items), q + 1)
    decreases items, 5
  {
    var first, rest := items[0], items[1..];
    ItemsSplit(items, s, p, q, depth, max);
    Regroup(acc, [Meaning(first.value)], Meanings(rest));
    ItemComplete(first, s, p, depth, max);
    ThenItems(rest, s, p, first.next, q, depth, max, acc, Meaning(first.value), first.value.end);
  }

  lemma {:induction false} ThenItems(
    rest: seq<Item>, s: Text, p: nat, c: nat, q: nat, depth: nat, max: nat, acc: seq<Json>, v: Json, u: nat)
    requires p <= |s| && q < |s| && s[q] == 93
    requires Value(s, SkipSpace(s, p), depth, max) == Ok(v, u) && SkipSpace(s, u) == c < |s|
    requires if rest == [] then c == q else s[c] == 44 && ItemsStand(rest, s, c + 1, q, depth, max)
    ensures ReadsItems(s, p, depth, max, acc, acc + [v] + Meanings(rest), q + 1)
    decreases rest, 7
  {
    OtherItemsComplete(rest, s, c, q, depth, max, acc + [v]);
    ItemsFold(s, p, depth, max, acc, v, u, c, acc + [v] + Meanings(rest), q + 1);
  }

  lemma {:induction false} OtherItemsComplete(
    rest: seq<Item>, s: Text, c: nat, q: nat, depth: nat, max: nat, acc: seq<Json>)
    requires q < |s| && s[q] == 93
    requires rest != [] ==> c < |s| && ItemsStand(rest, s, c + 1, q, depth, max)
    ensures if rest == [] then acc + Meanings(rest) == acc
            else ReadsItems(s, c + 1, depth, max, acc, acc + Meanings(rest), q + 1)
    decreases rest, 6
  {
    if rest != [] { ItemsComplete(rest, s, c + 1, q, depth, max, acc); }
  }

  lemma {:induction false} ObjectComplete(t: Tree, s: Text, depth: nat, max: nat)
    requires t.Braced? && Stands(t, s, depth, max)
    ensures ParseObject(s, t.start, depth + 1, max) == Ok(Meaning(t), t.end)
    decreases t, 0
  {
    var p, q, entries := t.start, t.end, t.entries;
    Collects(entries);
    MeansOne(MembersOf(entries), Collected([], entries), t.members);
    if entries == [] {
      SkipComplete(s, p + 1, q - 1);
    } else {
      FirstEntryStarts(entries, s, p + 1, q - 1, depth + 1, max);
      EntriesComplete(entries, s, entries[0].start, q - 1, depth + 1, max, []);
    }
  }

  lemma FirstEntryStarts(entries: seq<Entry>, s: Text, p: nat, q: nat, depth: nat, max: nat)
    requires entries != [] && EntriesStand(entries, s, p, q, depth, max)
    ensures var a := entries[0].start;
      p <= |s| && SkipSpace(s, p) == a < |s| && s[a] != 125 && EntriesStand(entries, s, a, q, depth, max)
  {
    assert EntryStands(entries[0], s, p, depth, max);
    SkipComplete(s, p, entries[0].start);
    assert EntryStands(entries[0], s, entries[0].start, depth, max);
  }

  lemma NameComplete(e: Entry, s: Text, p: nat, depth: nat, max: nat)
    requires p <= |s| && EntryStands(e, s, p, depth, max)
    ensures Name(s, p) == Ok(e.name, e.value.start)
  {
    SkipComplete(s, p, e.start);
    QuotedComplete(s, e.start, e.end, e.name);
    SkipComplete(s, e.end, e.colon);
    TreeStarts(e.value, s, depth, max);
    SkipComplete(s, e.colon + 1, e.value.start);
  }

  lemma {:induction false} EntryComplete(e: Entry, s: Text, p: nat, depth: nat, max: nat, acc: seq<Member>)
    requires p <= |s| && EntryStands(e, s, p, depth, max) && e.next < |s| && (s[e.next] == 44 || s[e.next] == 125)
    ensures e.value.end <= |s| && SkipSpace(s, e.value.end) == e.next
    ensures OneMember(s, p, depth, max, acc) == Ok(Set(acc, e.name, Meaning(e.value)), e.value.end)
    decreases e, 2
  {
    NameComplete(e, s, p, depth, max);
    StopsBefore(s, e.value.end, e.next);
    ValueComplete(e.value, s, depth, max);
  }

  /** Reading the members at p, after those already read, gives all of them. */
  ghost predicate ReadsAll(s: Text, p: nat, depth: nat, max: nat, acc: seq<Member>, all: seq<Member>, end: nat) {
    p <= |s| && Members(s, p, depth, max, acc) == Ok(Object(all), end)
  }

  lemma MembersFold(s: Text, p: nat, depth: nat, max: nat, acc: seq<Member>, next: seq<Member>, u: nat, f: nat,
                    all: seq<Member>, end: nat)
    requires p <= |s| && OneMember(s, p, depth, max, acc) == Ok(next, u) && SkipSpace(s, u) == f < |s|
    requires if s[f] == 44 then ReadsAll(s, f + 1, depth, max, next, all, end)
             else s[f] == 125 && all == next && end == f + 1
    ensures ReadsAll(s, p, depth, max, acc, all, end)
  {
  }

  lemma EntriesSplit(entries: seq<Entry>, s: Text, p: nat, q: nat, acc: seq<Member>, depth: nat, max: nat)
    requires entries != [] && EntriesStand(entries, s, p, q, depth, max)
    ensures var e, rest := entries[0], entries[1..];
      && EntryStands(e, s, p, depth, max)
      && Collected(acc, entries) == Collected(Set(acc, e.name, Meaning(e.value)), rest)
      && if rest == [] then e.next == q
         else e.next < |s| && s[e.next] == 44 && EntriesStand(rest, s, e.next + 1, q, depth, max)
  {
  }

  lemma {:induction false} EntriesComplete(
    entries: seq<Entry>, s: Text, p: nat, q: nat, depth: nat, max: nat, acc: seq<Member>)
    requires entries != [] && p <= |s| && EntriesStand(entries, s, p, q, depth, max) && q < |s| && s[q] == 125
    ensures ReadsAll(s, p, depth, max, acc, Collected(acc, entries), q + 1)
    decreases entries, 5
  {
    var e, rest := entries[0], entries[1..];
    EntriesSplit(entries, s, p, q, acc, depth, max);
    EntryComplete(e, s, p, depth, max, acc);
    ThenEntries(rest, s, p, e.next, q, depth, max, acc, Set(acc, e.name, Meaning(e.value)), e.value.end);
  }

  lemma {:induction false} ThenEntries(
    rest: seq<Entry>, s: Text, p: nat, f: nat, q: nat, depth: nat, max: nat,
    acc: seq<Member>, next: seq<Member>, u: nat)
    requires p <= |s| && q < |s| && s[q] == 125
    requires OneMember(s, p, depth, max, acc) == Ok(next, u) && SkipSpace(s, u) == f < |s|
    requires if rest == [] then f == q else s[f] == 44 && EntriesStand(rest, s, f + 1, q, depth, max)
    ensures ReadsAll(s, p, depth, max, acc, Collected(next, rest), q + 1)
    decreases rest, 7
  {
    OthersComplete(rest, s, f, q, depth, max, next);
    MembersFold(s, p, depth, max, acc, next, u, f, Collected(next, rest), q + 1);
  }

  lemma {:induction false} OthersComplete(
    rest: seq<Entry>, s: Text, f: nat, q: nat, depth: nat, max: nat, acc: seq<Member>)
    requires q < |s| && s[q] == 125
    requires rest != [] ==> f < |s| && EntriesStand(rest, s, f + 1, q, depth, max)
    ensures if rest == [] then Collected(acc, rest) == acc
            else ReadsAll(s, f + 1, depth, max, acc, Collected(acc, rest), q + 1)
    decreases rest, 6
  {
    if rest != [] { EntriesComplete(rest, s, f + 1, q, depth, max, acc); }
  }
}
