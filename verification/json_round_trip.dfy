/** Printing and parsing are inverse to each other. */
module JsonRoundTrip {
  import opened Bytes
  import opened Utf8
  import opened Json
  import opened JsonParse

  // ---- What the parser accepts is proper

  lemma {:induction false} ValueIsProper(s: Text, p: nat, depth: nat, max: nat)
    requires p <= |s| && Value(s, p, depth, max).Ok?
    ensures Proper(Value(s, p, depth, max).value, depth, max)
    decreases |s| - p, 2
  {
    if s[p] == OPEN_BRACE {
      ObjectIsProper(s, p, depth, max);
    } else if s[p] == OPEN_BRACKET {
      ArrayIsProper(s, p, depth, max);
    } else if s[p] == QUOTE {
      StringIsWellFormed(s, p + 1, []);
    } else if s[p] != TRUE[0] && s[p] != FALSE[0] && s[p] != NULL[0] {
      NumberIsGrammatical(s, p);
    }
  }

  lemma {:induction false} ObjectIsProper(s: Text, p: nat, depth: nat, max: nat)
    requires p < |s| && ParseObject(s, p, depth + 1, max).Ok?
    ensures Proper(ParseObject(s, p, depth + 1, max).value, depth, max)
    decreases |s| - p, 1
  {
    var q := SkipSpace(s, p + 1);
    if !(q < |s| && s[q] == CLOSE_BRACE) { MembersAreProper(s, q, depth, max, []); }
  }

  lemma {:induction false} MembersAreProper(s: Text, p: nat, depth: nat, max: nat, acc: seq<Member>)
    requires p <= |s| && depth < max && DistinctNames(acc) && ProperMembers(acc, depth + 1, max)
    requires Members(s, p, depth + 1, max, acc).Ok?
    ensures Proper(Members(s, p, depth + 1, max, acc).value, depth, max)
    decreases |s| - p, 4
  {
    var one := OneMember(s, p, depth + 1, max, acc);
    OneMemberIsProper(s, p, depth, max, acc);
    var w := SkipSpace(s, one.pos);
    if s[w] == COMMA { MembersAreProper(s, w + 1, depth, max, one.value); }
  }

  lemma {:induction false} OneMemberIsProper(s: Text, p: nat, depth: nat, max: nat, acc: seq<Member>)
    requires p <= |s| && DistinctNames(acc) && ProperMembers(acc, depth + 1, max)
    requires OneMember(s, p, depth + 1, max, acc).Ok?
    ensures var next := OneMember(s, p, depth + 1, max, acc).value;
      DistinctNames(next) && ProperMembers(next, depth + 1, max)
    decreases |s| - p, 3
  {
    var name := Name(s, p);
    var v := Value(s, name.pos, depth + 1, max);
    ValueIsProper(s, name.pos, depth + 1, max);
    StringIsWellFormed(s, SkipSpace(s, p) + 1, []);
    SetKeepsDistinct(acc, name.value, v.value);
    SetKeepsProper(acc, name.value, v.value, depth + 1, max);
  }

  lemma {:induction false} SetKeepsProper(members: seq<Member>, name: Text, v: Json, depth: nat, max: nat)
    requires ProperMembers(members, depth, max) && WellFormed(name) && Proper(v, depth, max)
    ensures ProperMembers(Set(members, name, v), depth, max)
  {
    if members != [] && members[0].name != name {
      SetKeepsProper(members[1..], name, v, depth, max);
    }
  }

  lemma {:induction false} ArrayIsProper(s: Text, p: nat, depth: nat, max: nat)
    requires p < |s| && ParseArray(s, p, depth + 1, max).Ok?
    ensures Proper(ParseArray(s, p, depth + 1, max).value, depth, max)
    decreases |s| - p, 1
  {
    var q := SkipSpace(s, p + 1);
    if !(q < |s| && s[q] == CLOSE_BRACKET) { ItemsAreProper(s, q, depth, max, []); }
  }

  lemma {:induction false} ItemsAreProper(s: Text, p: nat, depth: nat, max: nat, acc: seq<Json>)
    requires p <= |s| && depth < max && ProperItems(acc, depth + 1, max)
    requires Items(s, p, depth + 1, max, acc).Ok?
    ensures Proper(Items(s, p, depth + 1, max, acc).value, depth, max)
    decreases |s| - p, 3
  {
    var q := SkipSpace(s, p);
    var v := Value(s, q, depth + 1, max);
    ValueIsProper(s, q, depth + 1, max);
    if s[SkipSpace(s, v.pos)] == COMMA {
      ItemsAreProper(s, SkipSpace(s, v.pos) + 1, depth, max, acc + [v.value]);
    }
  }

  /** Every accepted text gives a proper value. */
  lemma AcceptedIsProper(s: Text, max: nat)
    requires ParseJson(s, max).Ok?
    ensures Proper(ParseJson(s, max).value, 0, max)
  {
    ValueIsProper(s, SkipSpace(s, 0), 0, max);
  }

  // ---- Numbers read back

  /** After a value in a dump comes the end, or a byte that no number goes on with. */
  predicate Ends(s: Text, q: nat) {
    q == |s| || (q < |s| && (s[q] == COMMA || s[q] == CLOSE_BRACKET || s[q] == CLOSE_BRACE))
  }

  lemma {:induction false} DigitsEndIs(s: Text, p: nat, w: Text)
    requires At(s, p, w) && AllDigits(w) && (p + |w| == |s| || !IsDigit(s[p + |w|]))
    ensures DigitsEnd(s, p) == p + |w|
    decreases |w|
  {
    if w != [] {
      assert s[p] == w[0];
      AtConcat(s, p, [w[0]], w[1..]) by { assert w == [w[0]] + w[1..]; }
      DigitsEndIs(s, p + 1, w[1..]);
    }
  }

  lemma FractionReadsBack(s: Text, b: nat, f: Text)
    requires At(s, b, f) && IsFraction(f)
    requires b + |f| == |s| || (!IsDigit(s[b + |f|]) && s[b + |f|] != PERIOD)
    ensures Fraction(s, b) == Ok((), b + |f|)
  {
    if f != [] {
      assert s[b] == f[0] && s[b + 1] == f[1] && f[1] == f[1..][0];
      assert f == [f[0]] + f[1..];
      AtConcat(s, b, [f[0]], f[1..]);
      DigitsEndIs(s, b + 1, f[1..]);
    }
  }

  lemma ExponentReadsBack(s: Text, c: nat, e: Text)
    requires At(s, c, e) && IsExponent(e)
    requires c + |e| == |s| || (!IsDigit(s[c + |e|]) && s[c + |e|] != 101 && s[c + |e|] != 69)
    ensures Exponent(s, c) == Ok((), c + |e|)
  {
    if e != [] {
      assert s[c] == e[0] && s[c + 1] == e[1] && e[1] == e[1..][0];
      if AllDigits(e[1..]) {
        assert e == [e[0]] + e[1..];
        AtConcat(s, c, [e[0]], e[1..]);
        DigitsEndIs(s, c + 1, e[1..]);
      } else {
        assert s[c + 2] == e[2] && e[2] == e[2..][0];
        assert e == [e[0], e[1]] + e[2..];
        AtConcat(s, c, [e[0], e[1]], e[2..]);
        DigitsEndIs(s, c + 2, e[2..]);
      }
    }
  }

  /** At the end of a part of a number, the next part starts or the number ends. */
  lemma PartStarts(s: Text, q: nat, part: Text, lead: Byte, lead2: Byte)
    requires At(s, q, part) && (part != [] ==> part[0] == lead || part[0] == lead2)
    ensures part != [] ==> s[q] == lead || s[q] == lead2
  {
    if part != [] { assert s[q + 0] == part[0]; }
  }

  lemma TailReadsBack(s: Text, b: nat, frac: Text, exp: Text)
    requires IsFraction(frac) && IsExponent(exp) && At(s, b, frac) && At(s, b + |frac|, exp)
    requires Ends(s, b + |frac| + |exp|)
    ensures Fraction(s, b) == Ok((), b + |frac|) && Exponent(s, b + |frac|) == Ok((), b + |frac| + |exp|)
    ensures b == |s| || !IsDigit(s[b])
  {
    PartStarts(s, b + |frac|, exp, 101, 69);
    PartStarts(s, b, frac, PERIOD, PERIOD);
    FractionReadsBack(s, b, frac);
    ExponentReadsBack(s, b + |frac|, exp);
  }

  lemma HeadReadsBack(s: Text, p: nat, sign: Text, whole: Text)
    requires IsSign(sign) && IsIntPart(whole) && At(s, p, sign) && At(s, p + |sign|, whole)
    requires var b := p + |sign| + |whole|; b == |s| || !IsDigit(s[b])
    ensures NumberEnd(s, p) == match Fraction(s, p + |sign| + |whole|)
                               case Err(e, at) => Err(e, at)
                               case Ok(_, c) => Exponent(s, c)
  {
    assert s[p + |sign| + 0] == whole[0];
    if sign != [] { assert s[p + 0] == sign[0]; }
    DigitsEndIs(s, p + |sign|, whole);
  }

  lemma AtFour(s: Text, p: nat, a: Text, b: Text, c: Text, d: Text)
    requires At(s, p, a + b + c + d)
    ensures At(s, p, a) && At(s, p + |a|, b) && At(s, p + |a| + |b|, c) && At(s, p + |a| + |b| + |c|, d)
  {
    AtConcat(s, p, a + b + c, d);
    AtConcat(s, p, a + b, c);
    AtConcat(s, p, a, b);
  }

  lemma PartsReadBack(s: Text, p: nat, sign: Text, whole: Text, frac: Text, exp: Text)
    requires IsSign(sign) && IsIntPart(whole) && IsFraction(frac) && IsExponent(exp)
    requires At(s, p, sign) && At(s, p + |sign|, whole) && At(s, p + |sign| + |whole|, frac)
    requires At(s, p + |sign| + |whole| + |frac|, exp) && Ends(s, p + |sign| + |whole| + |frac| + |exp|)
    ensures NumberEnd(s, p) == Ok((), p + |sign| + |whole| + |frac| + |exp|)
  {
    var b := p + |sign| + |whole|;
    TailReadsBack(s, b, frac, exp);
    HeadReadsBack(s, p, sign, whole);
  }

  lemma ConcatReadsBack(s: Text, p: nat, sign: Text, whole: Text, frac: Text, exp: Text)
    requires IsSign(sign) && IsIntPart(whole) && IsFraction(frac) && IsExponent(exp)
    requires At(s, p, sign + whole + frac + exp) && Ends(s, p + |sign + whole + frac + exp|)
    ensures NumberEnd(s, p) == Ok((), p + |sign + whole + frac + exp|)
  {
    AtFour(s, p, sign, whole, frac, exp);
    PartsReadBack(s, p, sign, whole, frac, exp);
  }

  lemma NumberReadsBack(s: Text, p: nat, t: Text)
    requires At(s, p, t) && IsNumber(t) && Ends(s, p + |t|)
    ensures ParseNumber(s, p) == Ok(Number(t), p + |t|)
  {
    var sign: Text, whole: Text, frac: Text, exp: Text :|
      IsSign(sign) && IsIntPart(whole) && IsFraction(frac) && IsExponent(exp) && t == sign + whole + frac + exp;
    NumberOfParts(s, p, t, sign, whole, frac, exp);
  }

  lemma NumberOfParts(s: Text, p: nat, t: Text, sign: Text, whole: Text, frac: Text, exp: Text)
    requires IsSign(sign) && IsIntPart(whole) && IsFraction(frac) && IsExponent(exp) && t == sign + whole + frac + exp
    requires At(s, p, t) && Ends(s, p + |t|)
    ensures ParseNumber(s, p) == Ok(Number(t), p + |t|)
  {
    ConcatReadsBack(s, p, sign, whole, frac, exp);
    AtSlice(s, p, t);
  }

  lemma NumberStarts(t: Text)
    requires IsNumber(t)
    ensures t != [] && (t[0] == MINUS || IsDigit(t[0]))
  {
    var sign: Text, whole: Text, frac: Text, exp: Text :|
      IsSign(sign) && IsIntPart(whole) && IsFraction(frac) && IsExponent(exp) && t == sign + whole + frac + exp;
    assert t[0] == (sign + whole)[0];
  }

  // ---- Strings read back

  lemma HexReadsBack(s: Text, p: nat, b: Byte)
    requires b < 128 && At(s, p, [48, 48, HexDigit(b / 16), HexDigit(b % 16)])
    ensures Hex4(s, p) == Ok(b, p + 4)
  {
    var t := [48, 48, HexDigit(b / 16), HexDigit(b % 16)];
    assert s[p + 0] == t[0] && s[p + 1] == t[1] && s[p + 2] == t[2] && s[p + 3] == t[3];
    assert HexFrom(s, p, 1, 0) == HexFrom(s, p, 2, 0) == HexFrom(s, p, 3, b / 16) == HexFrom(s, p, 4, b);
  }

  lemma EscapeReadsBack(s: Text, q: nat, b: Byte)
    requires b < 128 && |EscapeByte(b)| > 1 && At(s, q, EscapeByte(b))
    ensures s[q] == BACKSLASH && Escape(s, q + 1) == Ok([b], q + |EscapeByte(b)|)
  {
    var e := EscapeByte(b);
    assert s[q + 0] == e[0] && s[q + 1] == e[1];
    if e[1] == LOWER_U {
      assert e == [BACKSLASH, LOWER_U] + [48, 48, HexDigit(b / 16), HexDigit(b % 16)];
      AtConcat(s, q, [BACKSLASH, LOWER_U], [48, 48, HexDigit(b / 16), HexDigit(b % 16)]);
      HexReadsBack(s, q + 2, b);
    }
  }

  lemma OneMoreByte(t: Text, i: nat, k: nat, rest: Text)
    requires i < k <= |t|
    ensures [t[i]] + (t[i + 1..k] + rest) == t[i..k] + rest
  {
    assert [t[i]] + t[i + 1..k] == t[i..k];
  }

  lemma {:induction false} RawBytes(t: Text, i: nat, k: nat)
    requires i <= k <= |t| && forall j :: i <= j < k ==> t[j] >= 0x80
    ensures EscapeFrom(t, i) == t[i..k] + EscapeFrom(t, k)
    decreases k - i
  {
    if i < k {
      RawBytes(t, i + 1, k);
      assert EscapeByte(t[i]) == [t[i]];
      OneMoreByte(t, i, k, EscapeFrom(t, k));
    }
  }

  /** Reading goes on from q, after what has been read, and ends with the whole. */
  ghost predicate ReadsTo(s: Text, q: nat, acc: Text, t: Text, end: nat) {
    q <= |s| && StringFrom(s, q, acc) == Ok(t, end)
  }

  /** What is left of the text of a string, from byte i on, is at q, up to the end. */
  ghost predicate RestStands(s: Text, q: nat, t: Text, i: nat, end: nat) {
    i <= |t| && At(s, q, EscapeFrom(t, i) + [QUOTE]) && end == q + |EscapeFrom(t, i)| + 1
  }

  /** How many bytes of the text the character at i takes. */
  function Taken(t: Text, i: nat): nat
    requires i < |t|
  {
    if t[i] < 0x80 then |EscapeByte(t[i])| else SequenceLength(t, i, |t|)
  }

  /** The text of the character at i stands at q. */
  ghost predicate CharacterStands(s: Text, q: nat, t: Text, i: nat) {
    i < |t| && At(s, q, if t[i] < 0x80 then EscapeByte(t[i]) else t[i..i + SequenceLength(t, i, |t|)])
  }

  lemma FirstByte(s: Text, q: nat, t: Text, i: nat, end: nat)
    requires i < |t| && t[i] < 0x80 && RestStands(s, q, t, i, end)
    ensures At(s, q, EscapeByte(t[i])) && RestStands(s, q + |EscapeByte(t[i])|, t, i + 1, end)
  {
    PieceStands(s, q, EscapeByte(t[i]), EscapeFrom(t, i + 1));
  }

  lemma FirstSequence(s: Text, q: nat, t: Text, i: nat, n: nat, end: nat)
    requires i < |t| && t[i] >= 0x80 && n == SequenceLength(t, i, |t|) > 0 && RestStands(s, q, t, i, end)
    ensures At(s, q, t[i..i + n]) && RestStands(s, q + n, t, i + n, end)
  {
    RawBytes(t, i, i + n);
    PieceStands(s, q, t[i..i + n], EscapeFrom(t, i + n));
  }

  lemma FirstCharacter(s: Text, q: nat, t: Text, i: nat, n: nat, end: nat)
    requires i < |t| && n == SequenceLength(t, i, |t|) > 0 && RestStands(s, q, t, i, end)
    ensures CharacterStands(s, q, t, i) && RestStands(s, q + Taken(t, i), t, i + n, end)
  {
    if t[i] < 0x80 {
      FirstByte(s, q, t, i, end);
    } else {
      FirstSequence(s, q, t, i, n, end);
    }
  }

  /** The parser takes the text of a character for that character. */
  lemma CharacterReadsBack(s: Text, q: nat, t: Text, i: nat, n: nat)
    requires i < |t| && n == SequenceLength(t, i, |t|) > 0 && CharacterStands(s, q, t, i)
    ensures q < |s| && s[q] != QUOTE && Piece(s, q) == Ok(t[i..i + n], q + Taken(t, i))
  {
    if t[i] < 0x80 {
      assert t[i..i + n] == [t[i]];
      ByteReadsBack(s, q, t[i]);
    } else {
      SequenceReadsBack(s, q, t, i, n);
    }
  }

  lemma PieceThenRest(s: Text, q: nat, acc: Text, piece: Text, r: nat, more: Text, t: Text, end: nat)
    requires q < |s| && s[q] != QUOTE && Piece(s, q) == Ok(piece, r)
    requires more == acc + piece && ReadsTo(s, r, more, t, end)
    ensures ReadsTo(s, q, acc, t, end)
  {
  }

  lemma {:induction false} StringReadsBack(s: Text, q: nat, t: Text, i: nat, end: nat)
    requires i <= |t| && WellFormedFrom(t, i) && RestStands(s, q, t, i, end)
    ensures ReadsTo(s, q, t[..i], t, end)
    decreases |t| - i
  {
    if i == |t| {
      LastReadsBack(s, q, t);
    } else {
      var n := SequenceLength(t, i, |t|);
      FirstCharacter(s, q, t, i, n, end);
      StringReadsBack(s, q + Taken(t, i), t, i + n, end);
      CharacterThenRest(s, q, t, i, n, end);
    }
  }

  lemma CharacterThenRest(s: Text, q: nat, t: Text, i: nat, n: nat, end: nat)
    requires i < |t| && n == SequenceLength(t, i, |t|) > 0 && CharacterStands(s, q, t, i)
    requires ReadsTo(s, q + Taken(t, i), t[..i + n], t, end)
    ensures ReadsTo(s, q, t[..i], t, end)
  {
    CharacterReadsBack(s, q, t, i, n);
    Slices(t, i, i + n);
    PieceThenRest(s, q, t[..i], t[i..i + n], q + Taken(t, i), t[..i + n], t, end);
  }

  lemma LastReadsBack(s: Text, q: nat, t: Text)
    requires At(s, q, EscapeFrom(t, |t|) + [QUOTE])
    ensures ReadsTo(s, q, t[..|t|], t, q + 1)
  {
    assert t[..|t|] == t;
    assert EscapeFrom(t, |t|) + [QUOTE] == [QUOTE];
    ClosingQuote(s, q, t);
  }

  lemma ClosingQuote(s: Text, q: nat, acc: Text)
    requires At(s, q, [QUOTE])
    ensures StringFrom(s, q, acc) == Ok(acc, q + 1)
  {
    assert s[q + 0] == [QUOTE][0];
  }

  /** One piece of the text of a string: the rest of it stands behind. */
  lemma PieceStands(s: Text, q: nat, piece: Text, rest: Text)
    requires At(s, q, piece + rest + [QUOTE])
    ensures At(s, q, piece) && At(s, q + |piece|, rest + [QUOTE])
  {
    Regroup(piece, rest, [QUOTE]);
    AtConcat(s, q, piece, rest + [QUOTE]);
  }

  lemma ByteReadsBack(s: Text, q: nat, b: Byte)
    requires b < 0x80 && At(s, q, EscapeByte(b))
    ensures q < |s| && s[q] != QUOTE && Piece(s, q) == Ok([b], q + |EscapeByte(b)|)
  {
    var e := EscapeByte(b);
    if |e| > 1 {
      EscapeReadsBack(s, q, b);
    } else {
      assert s[q + 0] == e[0];
      assert s[q..q + 1] == [b];
    }
  }

  lemma SequenceReadsBack(s: Text, q: nat, t: Text, i: nat, n: nat)
    requires i < |t| && t[i] >= 0x80 && n == SequenceLength(t, i, |t|) > 0 && At(s, q, t[i..i + n])
    ensures q < |s| && s[q] != QUOTE && Piece(s, q) == Ok(t[i..i + n], q + n)
  {
    AtSlice(s, q, t[i..i + n]);
    SequenceIsLocal(t, i, |t|, s, q, |s|);
    ValidatorsAgree(s, q);
    assert s[q + 0] == t[i..i + n][0];
  }

  lemma Slices(t: Text, i: nat, k: nat)
    requires i <= k <= |t|
    ensures t[..i] + t[i..k] == t[..k]
    ensures k == i + 1 ==> t[i..k] == [t[i]]
  {
  }

  lemma QuoteReadsBack(s: Text, p: nat, t: Text)
    requires WellFormed(t) && At(s, p, Quote(t))
    ensures s[p] == QUOTE && ParseString(s, p) == Ok(t, p + |Quote(t)|)
  {
    assert Quote(t) == [QUOTE] + (EscapeFrom(t, 0) + [QUOTE]);
    AtConcat(s, p, [QUOTE], EscapeFrom(t, 0) + [QUOTE]);
    assert s[p + 0] == [QUOTE][0];
    StringReadsBack(s, p + 1, t, 0, p + |Quote(t)|);
    assert t[..0] == [];
  }

  // ---- Values read back

  /** The text of a value starts with a byte that tells its kind, and with no space. */
  lemma DumpStarts(j: Json, depth: nat, max: nat)
    requires Proper(j, depth, max)
    ensures var d := Dump(j); d != [] && !IsSpace(d[0]) && d[0] != CLOSE_BRACKET && d[0] != CLOSE_BRACE
    ensures j.Number? ==> Dump(j)[0] == MINUS || IsDigit(Dump(j)[0])
  {
    if j.Number? { NumberStarts(j.number); }
  }

  lemma NoSpaceHere(s: Text, p: nat, t: Text)
    requires At(s, p, t) && t != [] && !IsSpace(t[0])
    ensures p < |s| && s[p] == t[0] && SkipSpace(s, p) == p
  {
    assert s[p + 0] == t[0];
  }

  lemma {:induction false} ReadsBack(j: Json, s: Text, p: nat, depth: nat, max: nat)
    requires Proper(j, depth, max) && At(s, p, Dump(j)) && Ends(s, p + |Dump(j)|)
    ensures p < |s| && Value(s, p, depth, max) == Ok(j, p + |Dump(j)|)
    decreases j, 1
  {
    DumpStarts(j, depth, max);
    NoSpaceHere(s, p, Dump(j));
    match j
    case Null =>
    case Bool(_) =>
    case Number(t) => NumberReadsBack(s, p, t);
    case String(t) => QuoteReadsBack(s, p, t);
    case Array(items) => ArrayReadsBack(items, s, p, depth, max);
    case Object(members) => ObjectReadsBack(members, s, p, depth, max);
  }

  lemma Opened(s: Text, p: nat, open: Byte, body: Text, close: Byte)
    requires At(s, p, [open] + body + [close])
    ensures At(s, p + 1, body + [close])
  {
    assert [open] + body + [close] == [open] + (body + [close]);
    AtConcat(s, p, [open], body + [close]);
  }

  lemma {:induction false} ArrayReadsBack(items: seq<Json>, s: Text, p: nat, depth: nat, max: nat)
    requires depth < max && ProperItems(items, depth + 1, max)
    requires At(s, p, [OPEN_BRACKET] + DumpItems(items) + [CLOSE_BRACKET])
    ensures p < |s| && ParseArray(s, p, depth + 1, max) == Ok(Array(items), p + |DumpItems(items)| + 2)
    decreases items, 4
  {
    Opened(s, p, OPEN_BRACKET, DumpItems(items), CLOSE_BRACKET);
    if items == [] {
      assert DumpItems(items) + [CLOSE_BRACKET] == [CLOSE_BRACKET];
      NoSpaceHere(s, p + 1, [CLOSE_BRACKET]);
    } else {
      DumpStarts(items[0], depth + 1, max);
      NoSpaceHere(s, p + 1, DumpItems(items) + [CLOSE_BRACKET]);
      ItemsReadBack(items, s, p + 1, depth + 1, max, []);
      assert [] + items == items;
    }
  }

  /** What follows the first of some items in the text of an array. */
  function AfterItem(rest: seq<Json>): Text {
    if rest == [] then [CLOSE_BRACKET] else [COMMA] + (DumpItems(rest) + [CLOSE_BRACKET])
  }

  lemma ItemsText(items: seq<Json>)
    requires items != []
    ensures DumpItems(items) + [CLOSE_BRACKET] == Dump(items[0]) + AfterItem(items[1..])
  {
  }

  lemma ItemsStep(s: Text, p: nat, depth: nat, max: nat, acc: seq<Json>, v: Json, u: nat)
    requires p < |s| && !IsSpace(s[p]) && Value(s, p, depth, max) == Ok(v, u) && u < |s|
    ensures s[u] == CLOSE_BRACKET ==> Items(s, p, depth, max, acc) == Ok(Array(acc + [v]), u + 1)
    ensures s[u] == COMMA ==> Items(s, p, depth, max, acc) == Items(s, u + 1, depth, max, acc + [v])
  {
    assert SkipSpace(s, p) == p;
  }

  /** The first item's text stands from p to u, and then what is after it. */
  lemma FirstItem(items: seq<Json>, s: Text, p: nat, depth: nat, max: nat) returns (u: nat)
    requires items != [] && ProperItems(items, depth, max) && At(s, p, DumpItems(items) + [CLOSE_BRACKET])
    ensures u == p + |Dump(items[0])| < |s| && At(s, p, Dump(items[0])) && Ends(s, u) && !IsSpace(s[p])
    ensures At(s, u, AfterItem(items[1..])) && s[u] == AfterItem(items[1..])[0]
    ensures p + |DumpItems(items) + [CLOSE_BRACKET]| == u + |AfterItem(items[1..])|
  {
    u := p + |Dump(items[0])|;
    ItemsText(items);
    AtConcat(s, p, Dump(items[0]), AfterItem(items[1..]));
    DumpStarts(items[0], depth, max);
    NoSpaceHere(s, p, Dump(items[0]));
    NoSpaceHere(s, u, AfterItem(items[1..]));
  }

  /** Reading the items at p, after those already read, gives all of them. */
  ghost predicate ItemsRead(s: Text, p: nat, depth: nat, max: nat, acc: seq<Json>, all: seq<Json>, end: nat) {
    p <= |s| && Items(s, p, depth, max, acc) == Ok(Array(all), end)
  }

  lemma ItemsGoOn(first: Json, rest: seq<Json>, s: Text, p: nat, depth: nat, max: nat, acc: seq<Json>, u: nat)
    requires p < |s| && !IsSpace(s[p]) && Value(s, p, depth, max) == Ok(first, u)
    requires u < |s| && s[u] == AfterItem(rest)[0]
    requires rest != [] ==>
      ItemsRead(s, u + 1, depth, max, acc + [first], acc + [first] + rest, u + 1 + |DumpItems(rest) + [CLOSE_BRACKET]|)
    ensures ItemsRead(s, p, depth, max, acc, acc + [first] + rest, u + |AfterItem(rest)|)
  {
    ItemsStep(s, p, depth, max, acc, first, u);
    if rest == [] { assert acc + [first] + rest == acc + [first]; }
  }

  lemma {:induction false} ItemsReadBack(items: seq<Json>, s: Text, p: nat, depth: nat, max: nat, acc: seq<Json>)
    requires items != [] && ProperItems(items, depth, max) && At(s, p, DumpItems(items) + [CLOSE_BRACKET])
    ensures ItemsRead(s, p, depth, max, acc, acc + items, p + |DumpItems(items) + [CLOSE_BRACKET]|)
    decreases items, 2
  {
    var first, rest := items[0], items[1..];
    var u := FirstItem(items, s, p, depth, max);
    ReadsBack(first, s, p, depth, max);
    OtherItemsReadBack(rest, s, u, depth, max, acc + [first]);
    assert acc + [first] + rest == acc + items;
    ItemsGoOn(first, rest, s, p, depth, max, acc, u);
  }

  lemma {:induction false} OtherItemsReadBack(rest: seq<Json>, s: Text, u: nat, depth: nat, max: nat, acc: seq<Json>)
    requires ProperItems(rest, depth, max) && At(s, u, AfterItem(rest))
    ensures rest != [] ==>
      ItemsRead(s, u + 1, depth, max, acc, acc + rest, u + 1 + |DumpItems(rest) + [CLOSE_BRACKET]|)
    decreases rest, 3
  {
    if rest != [] {
      AtConcat(s, u, [COMMA], DumpItems(rest) + [CLOSE_BRACKET]);
      ItemsReadBack(rest, s, u + 1, depth, max, acc);
    }
  }

  lemma NameReadsBack(s: Text, p: nat, name: Text, value: Text)
    requires WellFormed(name) && At(s, p, Quote(name) + [COLON] + value)
    requires value != [] && !IsSpace(value[0])
    ensures Name(s, p) == Ok(name, p + |Quote(name)| + 1) && At(s, p + |Quote(name)| + 1, value)
  {
    AtConcat(s, p, Quote(name) + [COLON], value);
    AtConcat(s, p, Quote(name), [COLON]);
    NoSpaceHere(s, p, Quote(name));
    NoSpaceHere(s, p + |Quote(name)|, [COLON]);
    NoSpaceHere(s, p + |Quote(name)| + 1, value);
    QuoteReadsBack(s, p, name);
  }

  lemma {:induction false} ObjectReadsBack(members: seq<Member>, s: Text, p: nat, depth: nat, max: nat)
    requires depth < max && ProperMembers(members, depth + 1, max) && DistinctNames(members)
    requires At(s, p, [OPEN_BRACE] + DumpMembers(members) + [CLOSE_BRACE])
    ensures p < |s| && ParseObject(s, p, depth + 1, max) == Ok(Object(members), p + |DumpMembers(members)| + 2)
    decreases members, 4
  {
    Opened(s, p, OPEN_BRACE, DumpMembers(members), CLOSE_BRACE);
    if members == [] {
      assert DumpMembers(members) + [CLOSE_BRACE] == [CLOSE_BRACE];
      NoSpaceHere(s, p + 1, [CLOSE_BRACE]);
    } else {
      MembersStart(members, s, p + 1);
      assert [] + members == members;
      MembersReadBack(members, s, p + 1, depth + 1, max, []);
    }
  }

  lemma MembersStart(members: seq<Member>, s: Text, p: nat)
    requires members != [] && At(s, p, DumpMembers(members) + [CLOSE_BRACE])
    ensures p < |s| && s[p] == QUOTE && SkipSpace(s, p) == p
  {
    MembersText(members);
    NoSpaceHere(s, p, DumpMembers(members) + [CLOSE_BRACE]);
  }

  function AfterMember(rest: seq<Member>): Text {
    if rest == [] then [CLOSE_BRACE] else [COMMA] + (DumpMembers(rest) + [CLOSE_BRACE])
  }

  lemma MembersText(members: seq<Member>)
    requires members != []
    ensures var m := members[0];
      DumpMembers(members) + [CLOSE_BRACE] == Quote(m.name) + [COLON] + (Dump(m.value) + AfterMember(members[1..]))
    ensures (DumpMembers(members) + [CLOSE_BRACE])[0] == QUOTE
  {
    var m, rest := members[0], members[1..];
    var name, value, others := Quote(m.name) + [COLON], Dump(m.value), DumpMembers(rest);
    assert DumpMember(m) == name + value;
    if rest == [] {
      Regroup(name, value, [CLOSE_BRACE]);
    } else {
      Regroup(name + value, [COMMA], others);
      Regroup(name + value, [COMMA] + others, [CLOSE_BRACE]);
      Regroup([COMMA], others, [CLOSE_BRACE]);
      Regroup(name, value, [COMMA] + (others + [CLOSE_BRACE]));
    }
  }

  lemma MembersStep(s: Text, p: nat, depth: nat, max: nat, acc: seq<Member>, name: Text, q: nat, v: Json, u: nat)
    requires p <= |s| && Name(s, p) == Ok(name, q) && Value(s, q, depth, max) == Ok(v, u) && u < |s|
    requires !HasName(acc, name)
    ensures s[u] == CLOSE_BRACE ==> Members(s, p, depth, max, acc) == Ok(Object(acc + [Member(name, v)]), u + 1)
    ensures s[u] == COMMA ==>
      Members(s, p, depth, max, acc) == Members(s, u + 1, depth, max, acc + [Member(name, v)])
  {
    SetNewAppends(acc, name, v);
    NoSpaceBefore(s, u);
  }

  lemma NoSpaceBefore(s: Text, u: nat)
    requires u < |s|
    ensures s[u] == CLOSE_BRACE || s[u] == COMMA ==> SkipSpace(s, u) == u
  {
  }

  /** A name is read from p to q, and the text of its value stands from q to u, before what is after it. */
  ghost predicate NameAndText(name: Text, value: Text, after: Text, s: Text, p: nat, q: nat, u: nat) {
    && p <= |s| && Name(s, p) == Ok(name, q) && At(s, q, value) && u == q + |value|
    && At(s, u, after) && u < |s| && after != [] && s[u] == after[0] && Ends(s, u)
  }

  ghost predicate MemberStands(m: Member, after: Text, s: Text, p: nat, q: nat, u: nat) {
    NameAndText(m.name, Dump(m.value), after, s, p, q, u)
  }

  lemma FirstMember(m: Member, after: Text, s: Text, p: nat, depth: nat, max: nat)
    requires WellFormed(m.name) && Proper(m.value, depth, max)
    requires after != [] && (after[0] == COMMA || after[0] == CLOSE_BRACE)
    requires At(s, p, Quote(m.name) + [COLON] + (Dump(m.value) + after))
    ensures MemberStands(m, after, s, p, ValueStart(m, p), ValueEnd(m, p))
  {
    DumpStarts(m.value, depth, max);
    TextOfMember(m, Dump(m.value), after, s, p);
  }

  lemma TextOfMember(m: Member, value: Text, after: Text, s: Text, p: nat)
    requires value == Dump(m.value) && value != [] && !IsSpace(value[0])
    requires WellFormed(m.name) && after != [] && (after[0] == COMMA || after[0] == CLOSE_BRACE)
    requires At(s, p, Quote(m.name) + [COLON] + (value + after))
    ensures MemberStands(m, after, s, p, ValueStart(m, p), ValueEnd(m, p))
  {
    NameAndAfter(s, p, m.name, value, after);
  }

  lemma NameAndAfter(s: Text, p: nat, name: Text, value: Text, after: Text)
    requires WellFormed(name) && At(s, p, Quote(name) + [COLON] + (value + after))
    requires value != [] && !IsSpace(value[0]) && after != [] && (after[0] == COMMA || after[0] == CLOSE_BRACE)
    ensures var q := p + |Quote(name)| + 1; NameAndText(name, value, after, s, p, q, q + |value|)
  {
    var q := p + |Quote(name)| + 1;
    NameReadsBack(s, p, name, value + after);
    AtConcat(s, q, value, after);
    assert s[q + |value| + 0] == after[0];
  }

  /** Reading the members at p, after those already read, gives all of them. */
  ghost predicate MembersRead(s: Text, p: nat, depth: nat, max: nat, acc: seq<Member>, all: seq<Member>, end: nat) {
    p <= |s| && Members(s, p, depth, max, acc) == Ok(Object(all), end)
  }

  lemma MembersGoOn(
    m: Member, rest: seq<Member>, s: Text, p: nat, depth: nat, max: nat, acc: seq<Member>, q: nat, u: nat)
    requires MemberStands(m, AfterMember(rest), s, p, q, u) && Value(s, q, depth, max) == Ok(m.value, u)
    requires DistinctNames(acc + [m] + rest)
    requires rest != [] ==>
      MembersRead(s, u + 1, depth, max, acc + [m], acc + [m] + rest, u + 1 + |DumpMembers(rest) + [CLOSE_BRACE]|)
    ensures MembersRead(s, p, depth, max, acc, acc + [m] + rest, u + |AfterMember(rest)|)
  {
    NewName(acc, m, rest);
    MembersStep(s, p, depth, max, acc, m.name, q, m.value, u);
    assert m == Member(m.name, m.value);
    if rest == [] { assert acc + [m] + rest == acc + [m]; }
  }

  lemma {:induction false} MembersReadBack(
    members: seq<Member>, s: Text, p: nat, depth: nat, max: nat, acc: seq<Member>)
    requires members != [] && ProperMembers(members, depth, max) && DistinctNames(acc + members)
    requires At(s, p, DumpMembers(members) + [CLOSE_BRACE])
    ensures MembersRead(s, p, depth, max, acc, acc + members, p + |DumpMembers(members) + [CLOSE_BRACE]|)
    decreases members, 2
  {
    var m, rest := members[0], members[1..];
    FirstStands(members, s, p, depth, max);
    FirstIsProper(members, depth, max);
    assert acc + [m] + rest == acc + members && [m] + rest == members;
    FirstAndOthers(m, rest, s, p, ValueStart(m, p), ValueEnd(m, p), depth, max, acc);
  }

  /** Where the value of the first member starts, and where it ends. */
  function ValueStart(m: Member, p: nat): nat { p + |Quote(m.name)| + 1 }

  function ValueEnd(m: Member, p: nat): nat { ValueStart(m, p) + |Dump(m.value)| }

  lemma FirstStands(members: seq<Member>, s: Text, p: nat, depth: nat, max: nat)
    requires members != [] && ProperMembers(members, depth, max)
    requires At(s, p, DumpMembers(members) + [CLOSE_BRACE])
    ensures var m, after := members[0], AfterMember(members[1..]);
      && MemberStands(m, after, s, p, ValueStart(m, p), ValueEnd(m, p))
      && p + |DumpMembers(members) + [CLOSE_BRACE]| == ValueEnd(m, p) + |after|
  {
    MembersTextAt(members, s, p);
    FirstIsProper(members, depth, max);
    AfterStarts(members[1..]);
    FirstMember(members[0], AfterMember(members[1..]), s, p, depth, max);
  }

  lemma MembersTextAt(members: seq<Member>, s: Text, p: nat)
    requires members != [] && At(s, p, DumpMembers(members) + [CLOSE_BRACE])
    ensures var m, after := members[0], AfterMember(members[1..]);
      && At(s, p, Quote(m.name) + [COLON] + (Dump(m.value) + after))
      && |DumpMembers(members) + [CLOSE_BRACE]| == |Quote(m.name)| + 1 + |Dump(m.value)| + |after|
  {
    MembersText(members);
  }

  lemma FirstIsProper(members: seq<Member>, depth: nat, max: nat)
    requires members != [] && ProperMembers(members, depth, max)
    ensures WellFormed(members[0].name) && Proper(members[0].value, depth, max)
  {
  }

  lemma AfterStarts(rest: seq<Member>)
    ensures AfterMember(rest) != [] && (AfterMember(rest)[0] == COMMA || AfterMember(rest)[0] == CLOSE_BRACE)
  {
  }

  lemma {:induction false} FirstAndOthers(
    m: Member, rest: seq<Member>, s: Text, p: nat, q: nat, u: nat, depth: nat, max: nat, acc: seq<Member>)
    requires MemberStands(m, AfterMember(rest), s, p, q, u) && Proper(m.value, depth, max)
    requires ProperMembers(rest, depth, max) && DistinctNames(acc + [m] + rest)
    ensures MembersRead(s, p, depth, max, acc, acc + [m] + rest, u + |AfterMember(rest)|)
    decreases [m] + rest, 1
  {
    assert ([m] + rest)[0] == m && ([m] + rest)[1..] == rest;
    MemberValueReadsBack(m, AfterMember(rest), s, p, q, u, depth, max);
    OthersReadBack(rest, s, u, depth, max, acc + [m]);
    MembersGoOn(m, rest, s, p, depth, max, acc, q, u);
  }

  lemma {:induction false} MemberValueReadsBack(
    m: Member, after: Text, s: Text, p: nat, q: nat, u: nat, depth: nat, max: nat)
    requires MemberStands(m, after, s, p, q, u) && Proper(m.value, depth, max)
    ensures q <= |s| && Value(s, q, depth, max) == Ok(m.value, u)
    decreases m.value, 2
  {
    ReadsBack(m.value, s, q, depth, max);
  }

  lemma {:induction false} OthersReadBack(rest: seq<Member>, s: Text, u: nat, depth: nat, max: nat, acc: seq<Member>)
    requires ProperMembers(rest, depth, max) && DistinctNames(acc + rest) && At(s, u, AfterMember(rest))
    ensures rest != [] ==>
      MembersRead(s, u + 1, depth, max, acc, acc + rest, u + 1 + |DumpMembers(rest) + [CLOSE_BRACE]|)
    decreases rest, 3
  {
    if rest != [] {
      AtConcat(s, u, [COMMA], DumpMembers(rest) + [CLOSE_BRACE]);
      MembersReadBack(rest, s, u + 1, depth, max, acc);
    }
  }

  lemma NewName(acc: seq<Member>, m: Member, rest: seq<Member>)
    requires DistinctNames(acc + [m] + rest)
    ensures !HasName(acc, m.name)
  {
    var all := acc + [m] + rest;
    assert all[|acc|] == m;
    assert forall i :: 0 <= i < |acc| ==> all[i] == acc[i];
  }

  /** Parsing what a proper value prints gives the value back. */
  lemma ParseOfDump(j: Json, max: nat)
    requires Proper(j, 0, max)
    ensures ParseJson(Dump(j), max) == Ok(j, |Dump(j)|)
  {
    DumpStarts(j, 0, max);
    NoSpaceHere(Dump(j), 0, Dump(j));
    ReadsBack(j, Dump(j), 0, 0, max);
  }

  /** Hence parsing, printing and parsing again is the same as parsing once. */
  lemma ParseDumpParse(s: Text, max: nat)
    requires ParseJson(s, max).Ok?
    ensures ParseJson(Dump(ParseJson(s, max).value), max).Ok?
    ensures ParseJson(Dump(ParseJson(s, max).value), max).value == ParseJson(s, max).value
  {
    AcceptedIsProper(s, max);
    ParseOfDump(ParseJson(s, max).value, max);
  }

  /** A value that prints as another one's text is that value. */
  lemma DumpIsInjective(i: Json, j: Json, max: nat)
    requires Proper(i, 0, max) && Proper(j, 0, max) && Dump(i) == Dump(j)
    ensures i == j
  {
    ParseOfDump(i, max);
    ParseOfDump(j, max);
  }
}
