/** Every text the strict parser accepts is one value for the preview reader. */
module JsonReaders {
  import opened Bytes
  import opened Utf8
  import opened Json
  import Strict = JsonParse
  import Tolerant = JsonPrefix

  lemma NumbersAgree(s: Text, p: nat)
    requires p < |s| && Strict.NumberEnd(s, p).Ok?
    requires var q := Strict.NumberEnd(s, p).pos; q == |s| || !IsDigit(s[q])
    ensures Tolerant.ReadNumber(s, false, p) == Tolerant.Done(Strict.NumberEnd(s, p).pos)
  {
    var a := if s[p] == MINUS then p + 1 else p;
    ZeroAlone(s, a);
    var b := if s[a] == 48 then a + 1 else Strict.DigitsEnd(s, a);
    assert Strict.DigitsEnd(s, a) == b;
    assert Tolerant.Whole(s, false, p) == Tolerant.Done(b);
    PartsAgree(s, b);
  }

  /** A zero with a digit after it is a number that ends there, for the strict parser. */
  lemma ZeroAlone(s: Text, a: nat)
    ensures a + 1 < |s| && IsDigit(s[a + 1]) ==>
      Strict.Fraction(s, a + 1) == Strict.Exponent(s, a + 1) == Strict.Ok((), a + 1)
  {
  }

  lemma PartsAgree(s: Text, b: nat)
    requires b <= |s| && Strict.Fraction(s, b).Ok? && Strict.Exponent(s, Strict.Fraction(s, b).pos).Ok?
    ensures Tolerant.FractionAndExponent(s, false, b) ==
            Tolerant.Done(Strict.Exponent(s, Strict.Fraction(s, b).pos).pos)
  {
    var c := Strict.Fraction(s, b).pos;
    assert Tolerant.Fraction(s, false, b) == Tolerant.Done(c);
  }

  lemma {:induction false} HexAgrees(s: Text, p: nat, i: nat, v: nat)
    requires p + 4 <= |s| && i <= 4
    requires Strict.HasDigits(v, i)
    requires Strict.HexFrom(s, p, i, v).Ok?
    ensures Tolerant.HexFrom(s, p, i) == Tolerant.Done(p + 4)
    decreases 4 - i
  {
    if i < 4 { HexAgrees(s, p, i + 1, v * 16 + Strict.HexValue(s[p + i]).value); }
  }

  /** Four digits after \u, in a text where the strict parser accepts them. */
  lemma UnicodeAgrees(s: Text, p: nat)
    requires p + 1 < |s| && s[p] == BACKSLASH && s[p + 1] == LOWER_U && Strict.Hex4(s, p + 2).Ok?
    ensures Tolerant.Piece(s, false, p) == Tolerant.Done(p + 6)
    ensures p + 6 <= |s| && Tolerant.StringFrom(s, false, p) == Tolerant.StringFrom(s, false, p + 6)
  {
    HexAgrees(s, p + 2, 0, 0);
  }

  /** After an escape the strict parser accepts, the preview reader stands at the same place. */
  lemma EscapesAgree(s: Text, p: nat)
    requires p < |s| && s[p] == BACKSLASH && Strict.Escape(s, p + 1).Ok?
    ensures Tolerant.StringFrom(s, false, p) == Tolerant.StringFrom(s, false, Strict.Escape(s, p + 1).pos)
  {
    if s[p + 1] == LOWER_U {
      UnicodeAgrees(s, p);
      if 0xD800 <= Strict.Hex4(s, p + 2).value <= 0xDBFF { UnicodeAgrees(s, p + 6); }
    } else {
      assert Tolerant.Piece(s, false, p) == Tolerant.Done(p + 2);
    }
  }

  /** After a piece the strict parser accepts, the preview reader stands at the same place. */
  lemma PiecesAgree(s: Text, p: nat)
    requires p < |s| && s[p] != QUOTE && Strict.Piece(s, p).Ok?
    ensures Tolerant.StringFrom(s, false, p) == Tolerant.StringFrom(s, false, Strict.Piece(s, p).pos)
  {
    if s[p] == BACKSLASH {
      EscapesAgree(s, p);
    } else {
      ValidatorsAgree(s, p);
      assert Tolerant.Piece(s, false, p) == Tolerant.Done(p + DecodedLength(s, p));
    }
  }

  lemma {:induction false} StringsAgree(s: Text, p: nat, acc: Text)
    requires p <= |s| && Strict.StringFrom(s, p, acc).Ok?
    ensures Tolerant.StringFrom(s, false, p) == Tolerant.Done(Strict.StringFrom(s, p, acc).pos)
    decreases |s| - p
  {
    if s[p] != QUOTE {
      var piece := Strict.Piece(s, p);
      PiecesAgree(s, p);
      StringsAgree(s, piece.pos, acc + piece.value);
    }
  }

  lemma LiteralsAgree(s: Text, p: nat, word: Text, j: Json)
    requires p <= |s| && Strict.Literal(s, p, word, j).Ok?
    ensures Tolerant.Literal(s, false, p, word) == Tolerant.Done(p + |word|)
  {
  }

  predicate NoDigitAt(s: Text, q: nat) { q < |s| ==> !IsDigit(s[q]) }

  lemma {:induction false} ValuesAgree(s: Text, p: nat, depth: nat, max: nat)
    requires p <= |s| && depth <= max <= Tolerant.MAX_DEPTH && (p < |s| ==> !Strict.IsSpace(s[p]))
    requires Strict.Value(s, p, depth, max).Ok? && NoDigitAt(s, Strict.Value(s, p, depth, max).pos)
    ensures Tolerant.Value(s, false, p, depth) == Tolerant.Done(Strict.Value(s, p, depth, max).pos)
    decreases |s| - p, 2
  {
    assert Strict.SkipSpace(s, p) == p;
    if s[p] == OPEN_BRACE {
      ObjectsAgree(s, p, depth, max);
    } else if s[p] == OPEN_BRACKET {
      ArraysAgree(s, p, depth, max);
    } else {
      ScalarsAgree(s, p, depth, max);
    }
  }

  lemma ScalarsAgree(s: Text, p: nat, depth: nat, max: nat)
    requires p < |s| && s[p] != OPEN_BRACE && s[p] != OPEN_BRACKET
    requires Strict.Value(s, p, depth, max).Ok? && NoDigitAt(s, Strict.Value(s, p, depth, max).pos)
    ensures Tolerant.Scalar(s, false, p) == Tolerant.Done(Strict.Value(s, p, depth, max).pos)
  {
    if s[p] == QUOTE {
      StringsAgree(s, p + 1, []);
    } else if s[p] == TRUE[0] {
      LiteralsAgree(s, p, TRUE, Bool(true));
    } else if s[p] == FALSE[0] {
      LiteralsAgree(s, p, FALSE, Bool(false));
    } else if s[p] == NULL[0] {
      LiteralsAgree(s, p, NULL, Null);
    } else {
      NumbersAgree(s, p);
    }
  }

  lemma {:induction false} ObjectsAgree(s: Text, p: nat, depth: nat, max: nat)
    requires p < |s| && max <= Tolerant.MAX_DEPTH && Strict.ParseObject(s, p, depth + 1, max).Ok?
    ensures Tolerant.ReadObject(s, false, p, depth) == Tolerant.Done(Strict.ParseObject(s, p, depth + 1, max).pos)
    decreases |s| - p, 1
  {
    var q := Strict.SkipSpace(s, p + 1);
    if !(q < |s| && s[q] == CLOSE_BRACE) { MembersAgree(s, q, depth, max, []); }
  }

  lemma NamesAgree(s: Text, p: nat)
    requires p <= |s| && Strict.Name(s, p).Ok?
    ensures var v := Tolerant.Name(s, false, p); v.Done? && Strict.SkipSpace(s, v.pos) == Strict.Name(s, p).pos
  {
    var q := Strict.SkipSpace(s, p);
    StringsAgree(s, q + 1, []);
  }

  lemma {:induction false} MembersAgree(s: Text, p: nat, depth: nat, max: nat, acc: seq<Member>)
    requires p <= |s| && depth < max <= Tolerant.MAX_DEPTH && Strict.Members(s, p, depth + 1, max, acc).Ok?
    ensures Tolerant.Members(s, false, p, depth) == Tolerant.Done(Strict.Members(s, p, depth + 1, max, acc).pos)
    decreases |s| - p, 6
  {
    var next, w := FirstMemberAgrees(s, p, depth, max, acc);
    if s[w] == COMMA { MembersAgree(s, w + 1, depth, max, next); }
  }

  /** Both readers go on behind the first member in the same way. */
  lemma {:induction false} FirstMemberAgrees(s: Text, p: nat, depth: nat, max: nat, acc: seq<Member>)
    returns (next: seq<Member>, w: nat)
    requires p <= |s| && depth < max <= Tolerant.MAX_DEPTH && Strict.Members(s, p, depth + 1, max, acc).Ok?
    ensures p < w < |s|
    ensures s[w] == COMMA ==>
      && Strict.Members(s, p, depth + 1, max, acc) == Strict.Members(s, w + 1, depth + 1, max, next)
      && Tolerant.Members(s, false, p, depth) == Tolerant.Members(s, false, w + 1, depth)
    ensures s[w] != COMMA ==>
      && Strict.Members(s, p, depth + 1, max, acc).pos == w + 1
      && Tolerant.Members(s, false, p, depth) == Tolerant.Done(w + 1)
    decreases |s| - p, 5
  {
    next, w := StrictMembersGoOn(s, p, depth + 1, max, acc);
    TolerantAfter(s, p, depth, max, w);
  }

  /** The strict parser reads a name and its value up to u, and space up to w. */
  ghost predicate MemberUpTo(s: Text, p: nat, depth: nat, max: nat, u: nat, w: nat) {
    && p <= |s| && Strict.Name(s, p).Ok? && Strict.Value(s, Strict.Name(s, p).pos, depth, max).Ok?
    && Strict.Value(s, Strict.Name(s, p).pos, depth, max).pos == u && NoDigitAt(s, u) && Strict.SkipSpace(s, u) == w
  }

  ghost predicate HasMember(s: Text, p: nat, depth: nat, max: nat, w: nat) {
    exists u :: MemberUpTo(s, p, depth, max, u, w)
  }

  lemma {:induction false} TolerantAfter(s: Text, p: nat, depth: nat, max: nat, w: nat)
    requires p <= |s| && w < |s| && depth < max <= Tolerant.MAX_DEPTH && HasMember(s, p, depth + 1, max, w)
    ensures s[w] == COMMA ==> Tolerant.Members(s, false, p, depth) == Tolerant.Members(s, false, w + 1, depth)
    ensures s[w] == CLOSE_BRACE ==> Tolerant.Members(s, false, p, depth) == Tolerant.Done(w + 1)
    decreases |s| - p, 4
  {
    var u: nat :| MemberUpTo(s, p, depth + 1, max, u, w);
    OneMemberAgrees(s, p, depth, max, u, w);
    TolerantMembersGoOn(s, p, depth, u);
  }

  /** A member the strict parser accepts, with no digit next, ends where the preview reader's does. */
  lemma {:induction false} OneMemberAgrees(s: Text, p: nat, depth: nat, max: nat, u: nat, w: nat)
    requires depth < max <= Tolerant.MAX_DEPTH && MemberUpTo(s, p, depth + 1, max, u, w)
    ensures Tolerant.Name(s, false, p).Done?
    ensures Tolerant.Value(s, false, Tolerant.Name(s, false, p).pos, depth + 1) == Tolerant.Done(u)
    decreases |s| - p, 3
  {
    NamesAgree(s, p);
    NameEnds(s, p);
    ValuesAgree(s, Strict.Name(s, p).pos, depth + 1, max);
    SpaceFirst(s, Tolerant.Name(s, false, p).pos, depth + 1);
  }

  lemma NameEnds(s: Text, p: nat)
    requires p <= |s| && Strict.Name(s, p).Ok?
    ensures var q := Strict.Name(s, p).pos; q < |s| ==> !Strict.IsSpace(s[q])
  {
  }

  /** After the first of accepted members comes a comma, and the others are accepted, or the closing brace. */
  lemma StrictMembersGoOn(s: Text, p: nat, depth: nat, max: nat, acc: seq<Member>) returns (next: seq<Member>, w: nat)
    requires p <= |s| && Strict.Members(s, p, depth, max, acc).Ok?
    ensures p < w < |s| && HasMember(s, p, depth, max, w)
    ensures if s[w] == COMMA then Strict.Members(s, p, depth, max, acc) == Strict.Members(s, w + 1, depth, max, next)
            else s[w] == CLOSE_BRACE && Strict.Members(s, p, depth, max, acc).pos == w + 1
  {
    var one := Strict.OneMember(s, p, depth, max, acc);
    next, w := one.value, Strict.SkipSpace(s, one.pos);
    Followed(s, one.pos);
    assert MemberUpTo(s, p, depth, max, one.pos, w);
  }

  lemma TolerantMembersGoOn(s: Text, p: nat, depth: nat, u: nat)
    requires p <= |s| && Tolerant.Name(s, false, p).Done?
    requires Tolerant.Value(s, false, Tolerant.Name(s, false, p).pos, depth + 1) == Tolerant.Done(u)
    ensures var w := Strict.SkipSpace(s, u);
      && (w < |s| && s[w] == COMMA ==> Tolerant.Members(s, false, p, depth) == Tolerant.Members(s, false, w + 1, depth))
      && (w < |s| && s[w] == CLOSE_BRACE ==> Tolerant.Members(s, false, p, depth) == Tolerant.Done(w + 1))
  {
  }

  /** Space before a value makes no difference. */
  lemma SpaceFirst(s: Text, p: nat, depth: nat)
    requires p <= |s|
    ensures Tolerant.Value(s, false, p, depth) == Tolerant.Value(s, false, Strict.SkipSpace(s, p), depth)
  {
    assert Strict.SkipSpace(s, Strict.SkipSpace(s, p)) == Strict.SkipSpace(s, p);
  }

  /** If the next byte but space is no digit, the next byte is none. */
  lemma Followed(s: Text, q: nat)
    requires q <= |s| && NoDigitAt(s, Strict.SkipSpace(s, q))
    ensures NoDigitAt(s, q)
  {
  }

  lemma {:induction false} ArraysAgree(s: Text, p: nat, depth: nat, max: nat)
    requires p < |s| && max <= Tolerant.MAX_DEPTH && Strict.ParseArray(s, p, depth + 1, max).Ok?
    ensures Tolerant.ReadArray(s, false, p, depth) == Tolerant.Done(Strict.ParseArray(s, p, depth + 1, max).pos)
    decreases |s| - p, 1
  {
    var q := Strict.SkipSpace(s, p + 1);
    if !(q < |s| && s[q] == CLOSE_BRACKET) { ItemsAgree(s, q, depth, max, []); }
  }

  /** In accepted items, the first one is accepted. */
  lemma ItemStands(s: Text, p: nat, depth: nat, max: nat, acc: seq<Json>)
    requires p <= |s| && Strict.Items(s, p, depth, max, acc).Ok?
    ensures var q := Strict.SkipSpace(s, p);
      var v := Strict.Value(s, q, depth, max);
      q < |s| && v.Ok? && NoDigitAt(s, v.pos)
  {
    var q := Strict.SkipSpace(s, p);
    Followed(s, Strict.Value(s, q, depth, max).pos);
  }

  /** How the strict parser goes on after the first item of accepted items. */
  lemma StrictGoesOn(s: Text, p: nat, depth: nat, max: nat, acc: seq<Json>, v: Json, u: nat)
    requires p <= |s| && Strict.Value(s, Strict.SkipSpace(s, p), depth, max) == Strict.Ok(v, u)
    requires Strict.Items(s, p, depth, max, acc).Ok?
    ensures var w := Strict.SkipSpace(s, u);
      && p < u <= w < |s|
      && (if s[w] == COMMA then Strict.Items(s, p, depth, max, acc) == Strict.Items(s, w + 1, depth, max, acc + [v])
          else s[w] == CLOSE_BRACKET && Strict.Items(s, p, depth, max, acc).pos == w + 1)
  {
  }

  /** And how the preview reader does. */
  lemma TolerantGoesOn(s: Text, p: nat, depth: nat, u: nat)
    requires p <= |s| && Tolerant.Value(s, false, p, depth + 1) == Tolerant.Done(u)
    ensures var w := Strict.SkipSpace(s, u);
      && (w < |s| && s[w] == COMMA ==> Tolerant.Items(s, false, p, depth) == Tolerant.Items(s, false, w + 1, depth))
      && (w < |s| && s[w] == CLOSE_BRACKET ==> Tolerant.Items(s, false, p, depth) == Tolerant.Done(w + 1))
  {
  }

  lemma {:induction false} ItemsAgree(s: Text, p: nat, depth: nat, max: nat, acc: seq<Json>)
    requires p <= |s| && depth < max <= Tolerant.MAX_DEPTH && Strict.Items(s, p, depth + 1, max, acc).Ok?
    ensures Tolerant.Items(s, false, p, depth) == Tolerant.Done(Strict.Items(s, p, depth + 1, max, acc).pos)
    decreases |s| - p, 4
  {
    var q := Strict.SkipSpace(s, p);
    var v := Strict.Value(s, q, depth + 1, max);
    FirstItemAgrees(s, p, depth, max, acc);
    StrictGoesOn(s, p, depth + 1, max, acc, v.value, v.pos);
    TolerantGoesOn(s, p, depth, v.pos);
    var w := Strict.SkipSpace(s, v.pos);
    if s[w] == COMMA { ItemsAgree(s, w + 1, depth, max, acc + [v.value]); }
  }

  lemma {:induction false} FirstItemAgrees(s: Text, p: nat, depth: nat, max: nat, acc: seq<Json>)
    requires p <= |s| && depth < max <= Tolerant.MAX_DEPTH && Strict.Items(s, p, depth + 1, max, acc).Ok?
    ensures var v := Strict.Value(s, Strict.SkipSpace(s, p), depth + 1, max);
      v.Ok? && Tolerant.Value(s, false, p, depth + 1) == Tolerant.Done(v.pos)
    decreases |s| - p, 3
  {
    ItemStands(s, p, depth + 1, max, acc);
    ValuesAgree(s, Strict.SkipSpace(s, p), depth + 1, max);
    SpaceFirst(s, p, depth + 1);
  }

  /** The byte order mark, by its bytes. */
  lemma MarkIs(s: Text)
    ensures Tolerant.AfterBom(s) == if |s| >= 3 && s[..3] == [0xEF, 0xBB, 0xBF] then 3 else 0
  {
    if |s| >= 3 {
      assert s[0 + 0] == s[..3][0] && s[0 + 1] == s[..3][1] && s[0 + 2] == s[..3][2];
      if At(s, 0, Tolerant.BOM) {
        assert s[0 + 0] == Tolerant.BOM[0] && s[0 + 1] == Tolerant.BOM[1] && s[0 + 2] == Tolerant.BOM[2];
      }
    }
  }

  /** What the strict parser accepts does not start with a byte order mark. */
  lemma NoMark(s: Text, max: nat)
    ensures Strict.ParseJson(s, max).Ok? ==> Tolerant.AfterBom(s) == 0
  {
    if At(s, 0, Tolerant.BOM) {
      assert s[0 + 0] == Tolerant.BOM[0];
      assert Strict.SkipSpace(s, 0) == 0;
    }
  }

  /** The two readers agree: a text the strict parser accepts is read as exactly one value, without a problem. */
  lemma AcceptedByBoth(s: Text)
    requires Strict.ParseJson(s, Strict.MAX_DEPTH).Ok?
    ensures Tolerant.Run(s, false) == Tolerant.Outcome(1, false, None)
  {
    NoMark(s, Strict.MAX_DEPTH);
    var p := Strict.SkipSpace(s, 0);
    var v := Strict.Value(s, p, 0, Strict.MAX_DEPTH);
    Followed(s, v.pos);
    ValuesAgree(s, p, 0, Strict.MAX_DEPTH);
    assert Tolerant.Values(s, false, v.pos, 1) == Tolerant.Outcome(1, false, None);
  }

  /** The preview reader accepts more: a lone surrogate escape is one value to it. */
  lemma OnlyOneAcceptsLoneSurrogates()
    ensures var s: Text := [QUOTE, BACKSLASH, LOWER_U, 100, 56, 48, 48, QUOTE];
      && Strict.ParseJson(s, Strict.MAX_DEPTH) == Strict.Err(Strict.UnpairedSurrogate, 7)
      && Tolerant.Run(s, false) == Tolerant.Outcome(1, false, None)
  {
    var s: Text := [QUOTE, BACKSLASH, LOWER_U, 100, 56, 48, 48, QUOTE];
    assert Strict.SkipSpace(s, 0) == 0 && Strict.SkipSpace(s, 8) == 8;
    assert Strict.HexFrom(s, 3, 4, 0xd800) == Strict.HexFrom(s, 3, 3, 0xd80) == Strict.HexFrom(s, 3, 2, 0xd8);
    assert Strict.HexFrom(s, 3, 2, 0xd8) == Strict.HexFrom(s, 3, 1, 0xd) == Strict.HexFrom(s, 3, 0, 0);
    assert Strict.StringFrom(s, 1, []) == Strict.Err(Strict.UnpairedSurrogate, 7);
    UnicodeAgrees(s, 1);
    assert Tolerant.StringFrom(s, false, 7) == Tolerant.Done(8);
    assert Tolerant.Value(s, false, 0, 0) == Tolerant.Done(8);
    assert !At(s, 0, Tolerant.BOM) by { assert s[0 + 0] != Tolerant.BOM[0]; }
    assert Tolerant.Values(s, false, 8, 1) == Tolerant.Outcome(1, false, None);
  }
}
