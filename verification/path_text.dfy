/** File names as text (scan_preview.cpp): any bytes as well-formed UTF-8, and back. */
module PathText {
  import opened Bytes
  import opened Utf8
  import Decimal
  import Json

  const LOWER_X: Byte := 120

  // ---- A name as text

  function UpperHex(n: nat): Byte
    requires n < 16
  {
    if n < 10 then 48 + n else 55 + n
  }

  function Escaped(b: Byte): Text { [Json.BACKSLASH, LOWER_X, UpperHex(b / 16), UpperHex(b % 16)] }

  /** scan_path_text: sequences of UTF-8 as they are, any other byte escaped. */
  function ToText(p: Text): Text {
    if p == [] then []
    else
      var n := SequenceLength(p, 0, |p|);
      if n > 0 then p[..n] + ToText(p[n..]) else Escaped(p[0]) + ToText(p[1..])
  }

  // ---- And back

  function UpperHexValue(b: Byte): Option<nat> {
    if 48 <= b <= 57 then Some(b - 48)
    else if 65 <= b <= 70 then Some(b - 55)
    else None
  }

  /** A backslash, an x and two upper-case hex digits are at the start. */
  predicate StartsWithEscape(t: Text) {
    && |t| >= 4 && t[0] == Json.BACKSLASH && t[1] == LOWER_X
    && UpperHexValue(t[2]).Some? && UpperHexValue(t[3]).Some?
  }

  function EscapedByte(t: Text): (b: Byte)
    requires StartsWithEscape(t)
  {
    UpperHexValue(t[2]).value * 16 + UpperHexValue(t[3]).value
  }

  /** scan_path_from_text: escapes undone, any other byte as it is. */
  function FromText(t: Text): (r: Text)
    ensures |r| <= |t|
  {
    if t == [] then []
    else if StartsWithEscape(t) then [EscapedByte(t)] + FromText(t[4..])
    else [t[0]] + FromText(t[1..])
  }

  ghost predicate HasEscape(p: Text) { exists i :: 0 <= i <= |p| && StartsWithEscape(p[i..]) }

  // ---- The text is well-formed

  lemma FirstAlone(p: Text)
    requires p != []
    ensures var n := SequenceLength(p, 0, |p|); n > 0 ==> WellFormed(p[..n])
  {
    var n := SequenceLength(p, 0, |p|);
    if n > 0 {
      assert p[..n] == p[0..n] == p[..n][0..n];
      SequenceIsLocal(p, 0, |p|, p[..n], 0, n);
    }
  }

  lemma {:induction false} ToTextIsWellFormed(p: Text)
    ensures WellFormed(ToText(p))
  {
    if p != [] {
      var n := SequenceLength(p, 0, |p|);
      if n > 0 {
        FirstAlone(p);
        ToTextIsWellFormed(p[n..]);
        WellFormedConcat(p[..n], ToText(p[n..]));
      } else {
        Decimal.AsciiIsWellFormed(Escaped(p[0]), 0);
        ToTextIsWellFormed(p[1..]);
        WellFormedConcat(Escaped(p[0]), ToText(p[1..]));
      }
    }
  }

  // ---- Round trip

  /** Bytes that no escape starts with are copied one by one. */
  lemma {:induction false} FromTextCopies(t: Text, a: Text, b: Text)
    requires t == a + b && forall i :: 0 <= i < |a| ==> a[i] != Json.BACKSLASH
    ensures FromText(t) == a + FromText(b)
    decreases |a|
  {
    if a == [] {
      assert t == b;
    } else {
      assert t[0] == a[0];
      assert t[1..] == a[1..] + b;
      FromTextCopies(t[1..], a[1..], b);
      assert a == [a[0]] + a[1..];
    }
  }

  lemma FromEscaped(b: Byte, rest: Text)
    ensures FromText(Escaped(b) + rest) == [b] + FromText(rest)
  {
    var t := Escaped(b) + rest;
    assert t[0] == Escaped(b)[0] && t[1] == Escaped(b)[1] && t[2] == Escaped(b)[2] && t[3] == Escaped(b)[3];
    assert t[4..] == rest;
  }

  /** The text of a name starts with its first byte if that is ASCII, and else with another or a backslash. */
  lemma ToTextStarts(p: Text)
    requires p != []
    ensures ToText(p) != []
    ensures p[0] < 0x80 ==> ToText(p) == [p[0]] + ToText(p[1..])
    ensures p[0] >= 0x80 ==> ToText(p)[0] >= 0x80 || ToText(p)[0] == Json.BACKSLASH
  {
    if p[0] < 0x80 { assert p[..1] == [p[0]]; }
  }

  /** A byte of the text that is ASCII and no backslash is the name's own. */
  lemma SameStart(p: Text, b: Byte)
    requires b < 0x80 && b != Json.BACKSLASH
    ensures (p != [] && p[0] == b) <==> (ToText(p) != [] && ToText(p)[0] == b)
    ensures p != [] && p[0] == b ==> ToText(p)[1..] == ToText(p[1..])
  {
    if p != [] { ToTextStarts(p); }
  }

  predicate StartsWithHex(t: Text) { t != [] && UpperHexValue(t[0]).Some? }

  lemma SameHex(p: Text)
    ensures StartsWithHex(ToText(p)) <==> StartsWithHex(p)
    ensures StartsWithHex(p) ==> ToText(p) == [p[0]] + ToText(p[1..])
  {
    if p != [] { ToTextStarts(p); }
  }

  predicate StartsWithTwoHex(t: Text) { StartsWithHex(t) && StartsWithHex(t[1..]) }

  lemma SameTwoHex(p: Text)
    ensures StartsWithTwoHex(ToText(p)) <==> StartsWithTwoHex(p)
    ensures StartsWithTwoHex(p) ==> ToText(p) == [p[0]] + ([p[1]] + ToText(p[2..]))
  {
    SameHex(p);
    if StartsWithHex(p) {
      var rest := p[1..];
      SameHex(rest);
      assert ToText(p)[1..] == ToText(rest);
      if StartsWithHex(rest) { assert rest[0] == p[1] && rest[1..] == p[2..]; }
    }
  }

  lemma EscapeInParts(t: Text)
    requires t != [] && t[0] == Json.BACKSLASH
    ensures StartsWithEscape(t) <==> |t| > 1 && t[1] == LOWER_X && StartsWithTwoHex(t[2..])
  {
    if |t| > 2 { assert t[2..][0] == t[2] && t[2..][1..] == t[3..]; }
    if |t| > 3 { assert t[3..][0] == t[3]; }
  }

  /** The text starts with an escape where the name itself has one. */
  lemma SameEscape(p: Text)
    requires p != [] && p[0] == Json.BACKSLASH
    ensures StartsWithEscape(ToText(p)) <==> StartsWithEscape(p)
    ensures StartsWithEscape(p) ==> ToText(p) == p[..4] + ToText(p[4..])
  {
    var rest := p[1..];
    ToTextStarts(p);
    EscapeInParts(p);
    EscapeInParts(ToText(p));
    SameStart(rest, LOWER_X);
    assert ToText(p)[1..] == ToText(rest);
    if rest != [] && rest[0] == LOWER_X {
      assert rest[1..] == p[2..];
      assert ToText(p)[2..] == ToText(rest)[1..];
      SameTwoHex(p[2..]);
      if StartsWithTwoHex(p[2..]) { EscapeIsCopied(p); }
    }
  }

  lemma EscapeIsCopied(p: Text)
    requires StartsWithEscape(p)
    ensures ToText(p) == p[..4] + ToText(p[4..])
  {
    var one, two := p[1..], p[2..];
    ToTextStarts(p);
    assert one[0] == p[1] && one[1..] == two;
    ToTextStarts(one);
    assert two[0] == p[2] && two[1] == p[3] && two[1..][0] == p[3] && two[2..] == p[4..];
    SameTwoHex(two);
    FourInFront(p[0], p[1], p[2], p[3], ToText(p[4..]));
    assert p[..4] == [p[0], p[1], p[2], p[3]];
  }

  lemma FourInFront(a: Byte, b: Byte, c: Byte, d: Byte, rest: Text)
    ensures [a] + ([b] + ([c] + ([d] + rest))) == [a, b, c, d] + rest
  {
  }

  /** Reading the text of a name back gives what reading the name itself as text gives. */
  lemma {:induction false} FromToText(p: Text)
    ensures FromText(ToText(p)) == FromText(p)
  {
    if p != [] {
      var n := SequenceLength(p, 0, |p|);
      if p[0] == Json.BACKSLASH {
        SameEscape(p);
        if StartsWithEscape(p) {
          FromToText(p[4..]);
          assert ToText(p)[4..] == ToText(p[4..]);
        } else {
          ToTextStarts(p);
          FromToText(p[1..]);
        }
      } else if n > 0 {
        FromToText(p[n..]);
        CharacterIsCopied(p, n);
      } else {
        FromToText(p[1..]);
        FromEscaped(p[0], ToText(p[1..]));
      }
    }
  }

  lemma NoBackslash(p: Text, n: nat)
    requires p != [] && n == SequenceLength(p, 0, |p|) > 0 && p[0] != Json.BACKSLASH
    ensures forall i :: 0 <= i < n ==> p[i] != Json.BACKSLASH
  {
  }

  /** The same for the first bytes of a text. */
  lemma FromTextSkips(p: Text, n: nat)
    requires n <= |p| && forall i :: 0 <= i < n ==> p[i] != Json.BACKSLASH
    ensures FromText(p) == p[..n] + FromText(p[n..])
  {
    FromTextCopies(p, p[..n], p[n..]);
  }

  lemma CharacterIsCopied(p: Text, n: nat)
    requires p != [] && n == SequenceLength(p, 0, |p|) > 0 && p[0] != Json.BACKSLASH
    ensures FromText(ToText(p)) == p[..n] + FromText(ToText(p[n..])) && FromText(p) == p[..n] + FromText(p[n..])
  {
    NoBackslash(p, n);
    FromTextSkips(p, n);
    FromTextCopies(ToText(p), p[..n], ToText(p[n..]));
  }

  lemma {:induction false} FromTextIsShorter(p: Text)
    ensures FromText(p) == p <==> !HasEscape(p)
    ensures HasEscape(p) ==> |FromText(p)| < |p|
  {
    if p == [] {
      assert forall i :: 0 <= i <= |p| ==> p[i..] == [];
    } else if StartsWithEscape(p) {
      assert p[0..] == p;
    } else {
      FromTextIsShorter(p[1..]);
      HasEscapeLater(p);
      assert p == [p[0]] + p[1..];
    }
  }

  lemma HasEscapeLater(p: Text)
    requires p != [] && !StartsWithEscape(p)
    ensures HasEscape(p) <==> HasEscape(p[1..])
  {
    if HasEscape(p) {
      var i :| 0 <= i <= |p| && StartsWithEscape(p[i..]);
      assert p[0..] == p;
      assert p[1..][i - 1..] == p[i..];
    }
    if HasEscape(p[1..]) {
      var i :| 0 <= i <= |p[1..]| && StartsWithEscape(p[1..][i..]);
      assert p[1..][i..] == p[i + 1..];
    }
  }

  /** The round trip holds for exactly the names that have no \xHH in them. */
  lemma RoundTrip(p: Text)
    ensures FromText(ToText(p)) == p <==> !HasEscape(p)
  {
    FromToText(p);
    FromTextIsShorter(p);
  }

  /** Two names without \xHH never have the same text. */
  lemma ToTextIsInjective(p: Text, q: Text)
    requires !HasEscape(p) && !HasEscape(q) && ToText(p) == ToText(q)
    ensures p == q
  {
    RoundTrip(p);
    RoundTrip(q);
  }

  // ---- The loops

  lemma LengthOfRest(p: Text, i: nat)
    requires i < |p|
    ensures SequenceLength(p, i, |p|) == SequenceLength(p[i..], 0, |p| - i)
  {
    assert p[..i] + p[i..] == p;
    SameSequence(p[..i], p[i..], 0);
  }

  /** The part of the text that the character or byte at i makes, and where the next one starts. */
  function Piece(p: Text, i: nat): (t: Text)
    requires i < |p|
  {
    var n := SequenceLength(p, i, |p|);
    if n > 0 then p[i..i + n] else Escaped(p[i])
  }

  function PieceEnd(p: Text, i: nat): (k: nat)
    requires i < |p|
    ensures i < k <= |p|
  {
    var n := SequenceLength(p, i, |p|);
    if n > 0 then i + n else i + 1
  }

  lemma ToTextStep(p: Text, i: nat)
    requires i < |p|
    ensures ToText(p[i..]) == Piece(p, i) + ToText(p[PieceEnd(p, i)..])
  {
    var n, rest := SequenceLength(p, i, |p|), p[i..];
    LengthOfRest(p, i);
    if n > 0 {
      assert rest[..n] == p[i..i + n];
      assert rest[n..] == p[i + n..];
    } else {
      assert rest[0] == p[i];
      assert rest[1..] == p[i + 1..];
    }
  }

  /** The text so far is that of the first bytes of the name. */
  ghost predicate IsTextOf(path: Text, p: nat, out: Text) {
    p <= |path| && exists rest :: IsRestOf(path, p, rest) && out + rest == ToText(path)
  }

  ghost predicate IsRestOf(path: Text, p: nat, rest: Text)
    requires p <= |path|
  {
    rest == ToText(path[p..])
  }

  lemma PieceGoesOn(path: Text, p: nat, out: Text, piece: Text, q: nat)
    requires IsTextOf(path, p, out) && p < |path| && piece == Piece(path, p) && q == PieceEnd(path, p)
    ensures IsTextOf(path, q, out + piece)
  {
    ToTextStep(path, p);
    Regroup(out, piece, ToText(path[q..]));
    assert IsRestOf(path, q, ToText(path[q..]));
  }

  lemma TextGoesOn(path: Text, p: nat, out: Text, len: nat)
    requires IsTextOf(path, p, out) && p < |path| && len == SequenceLength(path, p, |path|)
    ensures if len > 0 then IsTextOf(path, p + len, out + path[p..p + len])
            else IsTextOf(path, p + 1, out + Escaped(path[p]))
  {
    PieceGoesOn(path, p, out, Piece(path, p), PieceEnd(path, p));
  }

  lemma TextIsWhole(path: Text, out: Text)
    ensures IsTextOf(path, 0, [])
    ensures IsTextOf(path, |path|, out) ==> out == ToText(path)
  {
    assert path[0..] == path && path[|path|..] == [];
    assert IsRestOf(path, 0, ToText(path)) && [] + ToText(path) == ToText(path);
  }

  method PathToText(path: Text) returns (out: Text)
    ensures out == ToText(path)
  {
    out := [];
    var p := 0;
    TextIsWhole(path, []);
    while p < |path|
      invariant IsTextOf(path, p, out)
      decreases |path| - p
    {
      var len := SequenceLength(path, p, |path|);
      TextGoesOn(path, p, out, len);
      if len > 0 {
        out := out + path[p..p + len];
        p := p + len;
      } else {
        out := out + Escaped(path[p]);
        p := p + 1;
      }
    }
    TextIsWhole(path, out);
  }

  /** The name so far is what the first bytes of the text stand for. */
  ghost predicate IsNameOf(text: Text, i: nat, out: Text) {
    i <= |text| && out + FromText(text[i..]) == FromText(text)
  }

  lemma NameGoesOn(text: Text, i: nat, out: Text)
    requires IsNameOf(text, i, out) && i < |text|
    ensures if StartsWithEscape(text[i..]) then IsNameOf(text, i + 4, out + [EscapedByte(text[i..])])
            else IsNameOf(text, i + 1, out + [text[i]])
  {
    var t := text[i..];
    if StartsWithEscape(t) {
      assert t[4..] == text[i + 4..];
      Regroup(out, [EscapedByte(t)], FromText(text[i + 4..]));
    } else {
      assert t[1..] == text[i + 1..] && t[0] == text[i];
      Regroup(out, [text[i]], FromText(text[i + 1..]));
    }
  }

  method PathFromText(text: Text) returns (out: Text)
    ensures out == FromText(text)
  {
    out := [];
    var i := 0;
    assert text[0..] == text;
    while i < |text|
      invariant IsNameOf(text, i, out)
      decreases |text| - i
    {
      NameGoesOn(text, i, out);
      if text[i] == Json.BACKSLASH && i + 3 < |text| && text[i + 1] == LOWER_X &&
        UpperHexValue(text[i + 2]).Some? && UpperHexValue(text[i + 3]).Some? {
        out := out + [UpperHexValue(text[i + 2]).value * 16 + UpperHexValue(text[i + 3]).value];
        i := i + 4;
      } else {
        out := out + [text[i]];
        i := i + 1;
      }
    }
  }

  // ---- Short texts

  const REPLACEMENT: Text := [0xEF, 0xBF, 0xBD]

  /** The first character, or what stands for a first byte that is none; and how many bytes it takes. */
  function First(s: Text): (r: (Text, nat))
    requires s != []
    ensures 0 < r.1 <= |s| && |r.0| > 0
  {
    var n := SequenceLength(s, 0, |s|);
    if n > 0 then (s[..n], n) else (REPLACEMENT, 1)
  }

  /** The text with every byte that is not part of a character replaced. */
  function Repaired(s: Text): Text {
    if s == [] then [] else First(s).0 + Repaired(s[First(s).1..])
  }

  lemma FirstIsWellFormed(s: Text)
    requires s != []
    ensures WellFormed(First(s).0)
  {
    FirstAlone(s);
    assert SequenceLength(REPLACEMENT, 0, 3) == 3;
  }

  lemma {:induction false} RepairedIsWellFormed(s: Text)
    ensures WellFormed(Repaired(s))
  {
    if s != [] {
      FirstIsWellFormed(s);
      RepairedIsWellFormed(s[First(s).1..]);
      WellFormedConcat(First(s).0, Repaired(s[First(s).1..]));
    }
  }

  /** Well-formed texts, and only those, are left as they are. */
  lemma {:induction false} RepairedIsSame(s: Text)
    ensures Repaired(s) == s <==> WellFormed(s)
  {
    if s != [] {
      var n := SequenceLength(s, 0, |s|);
      var rest := s[First(s).1..];
      RepairedIsSame(rest);
      if n > 0 {
        FirstAlone(s);
        assert s == s[..n] + rest;
        WellFormedConcat(s[..n], rest);
      } else if Repaired(s) == s {
        RepairedIsWellFormed(s);
      }
    }
  }

  /** What is kept of a long text: whole characters, as many as fit. */
  ghost predicate CutAfter(s: Text, max: nat, kept: Text, next: Text, rest: Text) {
    && Repaired(s) == kept + next + rest
    && WellFormed(kept) && WellFormed(next) && |kept| <= max < |kept + next| && |next| <= 4
  }

  /** The character at p, or what stands for its byte. */
  function Unit(s: Text, p: nat): (u: Text)
    requires p < |s|
  {
    var n := SequenceLength(s, p, |s|);
    if n > 0 then s[p..p + n] else REPLACEMENT
  }

  function UnitEnd(s: Text, p: nat): (q: nat)
    requires p < |s|
    ensures p < q <= |s|
  {
    var n := SequenceLength(s, p, |s|);
    if n > 0 then p + n else p + 1
  }

  lemma UnitIsFirst(s: Text, p: nat)
    requires p < |s|
    ensures First(s[p..]) == (Unit(s, p), UnitEnd(s, p) - p)
    ensures Repaired(s[p..]) == Unit(s, p) + Repaired(s[UnitEnd(s, p)..])
    ensures WellFormed(Unit(s, p)) && 0 < |Unit(s, p)| <= 4
  {
    LengthOfRest(s, p);
    var n := SequenceLength(s, p, |s|);
    assert s[p..][..n] == s[p..p + n];
    assert s[p..][UnitEnd(s, p) - p..] == s[UnitEnd(s, p)..];
    FirstIsWellFormed(s[p..]);
  }

  /** The text so far is what is repaired of the first p bytes, and fits. */
  ghost predicate Fits(s: Text, max: nat, p: nat, out: Text) {
    p <= |s| && |out| <= max && WellFormed(out) && out + Repaired(s[p..]) == Repaired(s)
  }

  lemma FitsOrIsCut(s: Text, max: nat, p: nat, out: Text)
    requires Fits(s, max, p, out) && p < |s|
    ensures |out| + |Unit(s, p)| <= max ==> Fits(s, max, UnitEnd(s, p), out + Unit(s, p))
    ensures |out| + |Unit(s, p)| > max ==> CutAfter(s, max, out, Unit(s, p), Repaired(s[UnitEnd(s, p)..]))
  {
    UnitIsFirst(s, p);
    var unit, q := Unit(s, p), UnitEnd(s, p);
    var rest := Repaired(s[q..]);
    WellFormedConcat(out, unit);
    Regroup(out, unit, rest);
  }

  /** A round of the loop. */
  lemma ShortGoesOn(s: Text, max: nat, p: nat, out: Text, len: nat, unit: Text)
    requires Fits(s, max, p, out) && p < |s| && len == SequenceLength(s, p, |s|)
    requires unit == if len > 0 then s[p..p + len] else REPLACEMENT
    ensures |out| + |unit| <= max ==> Fits(s, max, if len > 0 then p + len else p + 1, out + unit)
    ensures |out| + |unit| > max ==>
      |Repaired(s)| > max && exists kept, next, rest :: CutAfter(s, max, kept, next, rest) && out == kept
  {
    FitsOrIsCut(s, max, p, out);
  }

  /** short_text: whole characters of the repaired text up to max bytes, marked if that is not all. */
  method ShortText(s: Text, max: nat) returns (out: Text)
    ensures |Repaired(s)| <= max ==> out == Repaired(s)
    ensures |Repaired(s)| > max ==>
      exists kept, next, rest :: CutAfter(s, max, kept, next, rest) && out == kept + ELLIPSIS
  {
    out := [];
    var p := 0;
    assert s[0..] == s;
    while p < |s|
      invariant Fits(s, max, p, out)
      decreases |s| - p
    {
      var len := SequenceLength(s, p, |s|);
      var unit := if len > 0 then s[p..p + len] else REPLACEMENT;
      ShortGoesOn(s, max, p, out, len, unit);
      if |out| + |unit| > max { return out + ELLIPSIS; }
      out := out + unit;
      p := if len > 0 then p + len else p + 1;
    }
    FitsWhole(s, max, out);
  }

  lemma FitsWhole(s: Text, max: nat, out: Text)
    requires Fits(s, max, |s|, out)
    ensures out == Repaired(s) && |Repaired(s)| <= max
  {
    assert s[|s|..] == [];
  }

  lemma {:induction false} RepairedLength(s: Text)
    ensures |Repaired(s)| <= 3 * |s|
  {
    if s != [] { RepairedLength(s[First(s).1..]); }
  }

  /** scan_valid_utf8: the room it gives is never used up. */
  method ValidUtf8(s: Text) returns (out: Text)
    ensures out == Repaired(s)
  {
    RepairedLength(s);
    out := ShortText(s, |s| + 1 + 3 * |s|);
  }

  // ---- By their bytes

  /** The upper-case hex digit of a number. */
  predicate IsUpperHexOf(b: Byte, d: nat) { if d < 10 then b == 48 + d else d < 16 && b == 55 + d }

  /** A byte that starts no character is written \xHH. */
  lemma BytesAreWritten(p: Text)
    requires p != [] && SequenceLength(p, 0, |p|) == 0
    ensures var t := ToText(p);
      && |t| >= 4 && t[0] == 92 && t[1] == 120 && IsUpperHexOf(t[2], p[0] / 16) && IsUpperHexOf(t[3], p[0] % 16)
      && t[4..] == ToText(p[1..])
  {
  }

  /** And read back, wherever it stands. */
  lemma EscapesAreRead(t: Text, b: Byte)
    requires |t| >= 4 && t[0] == 92 && t[1] == 120 && IsUpperHexOf(t[2], b / 16) && IsUpperHexOf(t[3], b % 16)
    ensures FromText(t) == [b] + FromText(t[4..])
  {
  }

  /** What stands for a byte that is no character, and for what was cut off: U+FFFD and U+2026. */
  lemma SignsAre()
    ensures REPLACEMENT == Encode(0xFFFD) && ELLIPSIS == Encode(0x2026)
  {
  }
}
