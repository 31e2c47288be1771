/** What the preview reader says of the first bytes of a file holds for the file. */
module JsonPrefixTheorems {
  import opened Bytes
  import opened Json
  import JsonParse
  import opened JsonPrefix

  ghost predicate Begins(t: Text, d: Text) {
    |t| <= |d| && forall i :: 0 <= i < |t| ==> t[i] == d[i]
  }

  /** The same problem; a bad \u escape may be placed at its first digit or at the bad one. */
  predicate SamePlace(kind: Kind, at: nat, at': nat) {
    at == at' || (kind == MalformedUnicode && at <= at' < at + 4)
  }

  /** What is read of the first bytes is read of the whole, unless the reading was cut. */
  predicate Agree(first: Read, whole: Read) {
    match first
    case Done(_) => whole == first
    case Cut => true
    case Fault(kind, at) => whole.Fault? && whole.kind == kind && SamePlace(kind, at, whole.at)
  }

  lemma {:induction false} SpaceAgrees(t: Text, d: Text, p: nat)
    requires Begins(t, d) && p <= |t|
    ensures JsonParse.SkipSpace(t, p) <= JsonParse.SkipSpace(d, p)
    ensures JsonParse.SkipSpace(t, p) < |t| ==> JsonParse.SkipSpace(d, p) == JsonParse.SkipSpace(t, p)
    decreases |t| - p
  {
    if p < |t| && JsonParse.IsSpace(t[p]) { SpaceAgrees(t, d, p + 1); }
  }

  lemma {:induction false} DigitsEndAgrees(t: Text, d: Text, p: nat)
    requires Begins(t, d) && p <= |t|
    ensures JsonParse.DigitsEnd(t, p) <= JsonParse.DigitsEnd(d, p)
    ensures JsonParse.DigitsEnd(t, p) < |t| ==> JsonParse.DigitsEnd(d, p) == JsonParse.DigitsEnd(t, p)
    decreases |t| - p
  {
    if p < |t| && IsDigit(t[p]) { DigitsEndAgrees(t, d, p + 1); }
  }

  lemma LiteralAgrees(t: Text, d: Text, truncated: bool, p: nat, word: Text)
    requires Begins(t, d) && p <= |t|
    ensures Agree(Literal(t, true, p, word), Literal(d, truncated, p, word))
  {
    if Differs(t, p, word) {
      var i :| 0 <= i < |word| && p + i < |t| && t[p + i] != word[i];
      assert d[p + i] == t[p + i];
    } else if |t| - p >= |word| {
      forall i | 0 <= i < |word|
        ensures d[p + i] == word[i]
      {
        assert t[p + i] == d[p + i];
      }
    }
  }

  /** A part of a number: if it does not end with the first bytes, it is the same in the whole. */
  lemma PartsAgree(t: Text, d: Text, truncated: bool, p: nat)
    requires Begins(t, d) && p <= |t|
    ensures Fraction(t, true, p) != Done(|t|) ==> Agree(Fraction(t, true, p), Fraction(d, truncated, p))
    ensures Exponent(t, true, p) != Done(|t|) ==> Agree(Exponent(t, true, p), Exponent(d, truncated, p))
  {
    if p + 1 <= |t| { DigitsEndAgrees(t, d, p + 1); }
    if p + 2 <= |t| { DigitsEndAgrees(t, d, p + 2); }
  }

  lemma TailAgrees(t: Text, d: Text, truncated: bool, p: nat)
    requires Begins(t, d) && p <= |t|
    ensures Agree(FractionAndExponent(t, true, p), FractionAndExponent(d, truncated, p))
  {
    var f := Fraction(t, true, p);
    PartsAgree(t, d, truncated, p);
    if f.Done? { PartsAgree(t, d, truncated, f.pos); }
  }

  lemma NumberAgrees(t: Text, d: Text, truncated: bool, p: nat)
    requires Begins(t, d) && p < |t|
    ensures Agree(ReadNumber(t, true, p), ReadNumber(d, truncated, p))
  {
    var a := if t[p] == MINUS then p + 1 else p;
    DigitsEndAgrees(t, d, a);
    var w := Whole(t, true, p);
    if w.Done? {
      if w.pos == |t| {
        assert FractionAndExponent(t, true, |t|) == Cut;
      } else {
        TailAgrees(t, d, truncated, w.pos);
      }
    }
  }

  lemma {:induction false} HexFromAgrees(t: Text, d: Text, p: nat, i: nat)
    requires Begins(t, d) && p + 4 <= |t| && i <= 4
    ensures HexFrom(d, p, i) == HexFrom(t, p, i)
    decreases 4 - i
  {
    if i < 4 && IsHex(t[p + i]) { HexFromAgrees(t, d, p, i + 1); }
  }

  lemma {:induction false} HexFromFinds(s: Text, p: nat, i: nat, bad: nat)
    requires p + 4 <= |s| && i <= bad < 4 && !IsHex(s[p + bad])
    ensures HexFrom(s, p, i).Fault? && HexFrom(s, p, i).kind == MalformedUnicode && p <= HexFrom(s, p, i).at <= p + bad
    decreases 4 - i
  {
    if IsHex(s[p + i]) { HexFromFinds(s, p, i + 1, bad); }
  }

  lemma HexAgrees(t: Text, d: Text, truncated: bool, p: nat)
    requires Begins(t, d) && p <= |t|
    ensures Agree(Hex4(t, true, p), Hex4(d, truncated, p))
  {
    if |t| - p >= 4 {
      HexFromAgrees(t, d, p, 0);
    } else if exists i :: p <= i < |t| && !IsHex(t[i]) {
      var i :| p <= i < |t| && !IsHex(t[i]);
      assert !IsHex(d[i]);
      if |d| - p >= 4 { HexFromFinds(d, p, 0, i - p); }
    }
  }

  lemma PieceAgrees(t: Text, d: Text, truncated: bool, p: nat)
    requires Begins(t, d) && p < |t|
    ensures Agree(Piece(t, true, p), Piece(d, truncated, p))
  {
    if p + 2 <= |t| { HexAgrees(t, d, truncated, p + 2); }
  }

  lemma {:induction false} StringAgrees(t: Text, d: Text, truncated: bool, p: nat)
    requires Begins(t, d) && p <= |t|
    ensures Agree(StringFrom(t, true, p), StringFrom(d, truncated, p))
    decreases |t| - p
  {
    if p < |t| && t[p] != QUOTE {
      PieceAgrees(t, d, truncated, p);
      var r := Piece(t, true, p);
      if r.Done? { StringAgrees(t, d, truncated, r.pos); }
    }
  }

  lemma ScalarAgrees(t: Text, d: Text, truncated: bool, q: nat)
    requires Begins(t, d) && q < |t|
    ensures Agree(Scalar(t, true, q), Scalar(d, truncated, q))
  {
    StringAgrees(t, d, truncated, q + 1);
    LiteralAgrees(t, d, truncated, q, TRUE);
    LiteralAgrees(t, d, truncated, q, FALSE);
    LiteralAgrees(t, d, truncated, q, NULL);
    NumberAgrees(t, d, truncated, q);
  }

  lemma NameAgrees(t: Text, d: Text, truncated: bool, p: nat)
    requires Begins(t, d) && p <= |t|
    ensures Agree(Name(t, true, p), Name(d, truncated, p))
  {
    SpaceAgrees(t, d, p);
    var q := Expect(t, true, p, QUOTE, ExpectedName);
    if q.Done? {
      StringAgrees(t, d, truncated, q.pos);
      var u := StringFrom(t, true, q.pos);
      if u.Done? { SpaceAgrees(t, d, u.pos); }
    }
  }

  lemma SeparatorAgrees(t: Text, d: Text, truncated: bool, p: nat, close: Byte, kind: Kind)
    requires Begins(t, d) && p <= |t|
    ensures var a, b := Separator(t, true, p, close, kind), Separator(d, truncated, p, close, kind);
      a == b || a == Stop(Cut)
  {
    SpaceAgrees(t, d, p);
  }

  lemma {:induction false} ValueAgrees(t: Text, d: Text, truncated: bool, p: nat, depth: nat)
    requires Begins(t, d) && p <= |t|
    ensures Agree(Value(t, true, p, depth), Value(d, truncated, p, depth))
    decreases |t| - p, 3
  {
    SpaceAgrees(t, d, p);
    var q := JsonParse.SkipSpace(t, p);
    if q < |t| && depth <= MAX_DEPTH {
      if t[q] == OPEN_BRACE {
        ObjectAgrees(t, d, truncated, q, depth);
      } else if t[q] == OPEN_BRACKET {
        ArrayAgrees(t, d, truncated, q, depth);
      } else {
        ScalarAgrees(t, d, truncated, q);
      }
    }
  }

  lemma {:induction false} ObjectAgrees(t: Text, d: Text, truncated: bool, p: nat, depth: nat)
    requires Begins(t, d) && p < |t|
    ensures Agree(ReadObject(t, true, p, depth), ReadObject(d, truncated, p, depth))
    decreases |t| - p, 2
  {
    SpaceAgrees(t, d, p + 1);
    MembersAgree(t, d, truncated, JsonParse.SkipSpace(t, p + 1), depth);
  }

  lemma {:induction false} MembersAgree(t: Text, d: Text, truncated: bool, p: nat, depth: nat)
    requires Begins(t, d) && p <= |t|
    ensures Agree(Members(t, true, p, depth), Members(d, truncated, p, depth))
    decreases |t| - p, 4
  {
    NameAgrees(t, d, truncated, p);
    var n := Name(t, true, p);
    if n.Done? {
      ValueAgrees(t, d, truncated, n.pos, depth + 1);
      var v := Value(t, true, n.pos, depth + 1);
      if v.Done? {
        SeparatorAgrees(t, d, truncated, v.pos, CLOSE_BRACE, ExpectedCommaOrBrace);
        var w := Separator(t, true, v.pos, CLOSE_BRACE, ExpectedCommaOrBrace);
        if w.Comma? { MembersAgree(t, d, truncated, w.pos, depth); }
      }
    }
  }

  lemma {:induction false} ArrayAgrees(t: Text, d: Text, truncated: bool, p: nat, depth: nat)
    requires Begins(t, d) && p < |t|
    ensures Agree(ReadArray(t, true, p, depth), ReadArray(d, truncated, p, depth))
    decreases |t| - p, 2
  {
    SpaceAgrees(t, d, p + 1);
    ItemsAgree(t, d, truncated, JsonParse.SkipSpace(t, p + 1), depth);
  }

  lemma {:induction false} ItemsAgree(t: Text, d: Text, truncated: bool, p: nat, depth: nat)
    requires Begins(t, d) && p <= |t|
    ensures Agree(Items(t, true, p, depth), Items(d, truncated, p, depth))
    decreases |t| - p, 4
  {
    ValueAgrees(t, d, truncated, p, depth + 1);
    var v := Value(t, true, p, depth + 1);
    if v.Done? {
      SeparatorAgrees(t, d, truncated, v.pos, CLOSE_BRACKET, ExpectedCommaOrBracket);
      var w := Separator(t, true, v.pos, CLOSE_BRACKET, ExpectedCommaOrBracket);
      if w.Comma? { ItemsAgree(t, d, truncated, w.pos, depth); }
    }
  }

  /** The same of the values one after the other: the first bytes show no more values, and no other problem. */
  lemma {:induction false} ValuesAgree(t: Text, d: Text, truncated: bool, p: nat, n: nat)
    requires Begins(t, d) && p <= |t|
    ensures var first, whole := Values(t, true, p, n), Values(d, truncated, p, n);
      && first.values <= whole.values
      && (first.problem.Some? ==> SameProblem(first, whole))
    ensures JsonParse.SkipSpace(t, p) < |t| ==>
      var o := Values(t, true, p, n); o.values > n || o.cut || o.problem.Some?
    decreases |t| - p
  {
    SpaceAgrees(t, d, p);
    var q := JsonParse.SkipSpace(t, p);
    if q < |t| {
      ValueAgrees(t, d, truncated, q, 0);
      var v := Value(t, true, q, 0);
      if v.Done? { ValuesAgree(t, d, truncated, v.pos, n + 1); }
    }
  }

  /** The file has the problem that its first bytes show, after as many values. */
  predicate SameProblem(first: Outcome, whole: Outcome)
    requires first.problem.Some?
  {
    && whole.problem.Some? && !whole.cut && whole.values == first.values
    && match first.problem.value
       case NoValue => whole.problem.value.NoValue?
       case Wrong(kind, at) =>
         whole.problem.value.Wrong? && whole.problem.value.kind == kind && SamePlace(kind, at, whole.problem.value.at)
  }

  predicate Accepted(d: Text) { Run(d, false).problem.None? }

  lemma AcceptedHasValue(d: Text)
    requires Accepted(d)
    ensures FirstByte(d) < |d|
  {
  }

  lemma BomStands(t: Text, d: Text)
    requires Begins(t, d) && |t| >= 3
    ensures AfterBom(t) == AfterBom(d)
  {
    assert t[0] == d[0] && t[1] == d[1] && t[2] == d[2];
    assert At(t, 0, BOM) <==> t[0 + 0] == BOM[0] && t[0 + 1] == BOM[1] && t[0 + 2] == BOM[2];
    assert At(d, 0, BOM) <==> d[0 + 0] == BOM[0] && d[0 + 1] == BOM[1] && d[0 + 2] == BOM[2];
  }

  /** Only the first one or two bytes of a byte order mark are read otherwise than with the rest of it. */
  predicate PartOfBom(t: Text) { 0 < |t| < 3 && At(BOM, 0, t) }

  lemma StartOfBom(t: Text, d: Text)
    requires Begins(t, d) && AfterBom(d) == 3
    ensures 0 < |t| < 3 ==> PartOfBom(t)
  {
    assert forall i :: 0 <= i < 3 ==> d[0 + i] == BOM[i];
  }

  lemma BomAgrees(t: Text, d: Text)
    requires Begins(t, d) && !(PartOfBom(t) && AfterBom(d) == 3)
    ensures t == [] || AfterBom(t) == AfterBom(d)
  {
    if |t| >= 3 { BomStands(t, d); }
    if AfterBom(d) == 3 { StartOfBom(t, d); }
  }

  lemma PartOfBomIsWrong(t: Text)
    requires PartOfBom(t)
    ensures Run(t, true).problem == Some(Wrong(UnexpectedCharacter, 0))
  {
    assert BOM[0 + 0] == t[0];
    assert JsonParse.SkipSpace(t, 0) == 0 && JsonParse.DigitsEnd(t, 0) == 0;
    assert ReadNumber(t, true, 0) == Fault(UnexpectedCharacter, 0);
    assert Value(t, true, 0, 0) == Scalar(t, true, 0);
  }

  /** The space before the first value, alone, holds no value. */
  lemma SpaceIsNoValue(t: Text)
    requires FirstByte(t) == |t|
    ensures Run(t, true) == Outcome(0, false, Some(NoValue))
  {
  }

  /**
   * No false error on a cut file: of a file that is accepted, the first n bytes are read without an error
   * exactly if they reach the first byte of its first value.
   */
  lemma NoFalseError(d: Text, n: nat)
    requires Accepted(d) && n <= |d|
    ensures Run(d[..n], true).problem.None? <==> n > FirstByte(d)
  {
    var t := d[..n];
    AcceptedHasValue(d);
    if PartOfBom(t) && AfterBom(d) == 3 {
      PartOfBomIsWrong(t);
    } else {
      BomAgrees(t, d);
      ReachesFirst(t, d);
    }
  }

  lemma ReachesFirst(t: Text, d: Text)
    requires Accepted(d) && Begins(t, d) && (t == [] || AfterBom(t) == AfterBom(d))
    ensures Run(t, true).problem.None? <==> |t| > FirstByte(d)
  {
    if t == [] {
      SpaceIsNoValue(t);
    } else {
      SpaceAgrees(t, d, AfterBom(t));
      ValuesAgree(t, d, false, AfterBom(t), 0);
      if FirstByte(t) == |t| { SpaceIsNoValue(t); }
    }
  }

  /** A problem of the first bytes is one of every file that starts with them. */
  ghost predicate Final(t: Text) {
    && Run(t, true).problem.Some?
    && forall more: Text, truncated: bool ::
         Run(t + more, truncated).problem.Some? && SameProblem(Run(t, true), Run(t + more, truncated))
  }

  /** Exactly the problems of a text that has a value, and is not just the start of a byte order mark, are final. */
  lemma ProblemsAreFinal(t: Text)
    requires Run(t, true).problem.Some?
    ensures Final(t) <==> FirstByte(t) < |t| && !PartOfBom(t)
  {
    if PartOfBom(t) {
      var more := BOM[|t|..] + [48];
      MarkAndZero(t, more);
      PartOfBomIsWrong(t);
    } else if FirstByte(t) == |t| {
      SpaceIsNoValue(t);
      SpaceAndZero(t);
    } else {
      forall more: Text, truncated: bool
        ensures Run(t + more, truncated).problem.Some? && SameProblem(Run(t, true), Run(t + more, truncated))
      {
        ProblemStands(t, t + more, truncated);
      }
    }
  }

  lemma ProblemStands(t: Text, d: Text, truncated: bool)
    requires Begins(t, d) && Run(t, true).problem.Some? && FirstByte(t) < |t| && !PartOfBom(t)
    ensures Run(d, truncated).problem.Some? && SameProblem(Run(t, true), Run(d, truncated))
  {
    BomAgrees(t, d);
    ValuesAgree(t, d, truncated, AfterBom(t), 0);
  }

  lemma ZeroIsValue(d: Text, p: nat)
    requires p + 1 == |d| && d[p] == 48
    ensures Values(d, false, p, 0) == Outcome(1, false, None)
  {
    assert JsonParse.SkipSpace(d, p) == p;
    assert JsonParse.DigitsEnd(d, p) == p + 1;
    assert ReadNumber(d, false, p) == Done(p + 1);
    assert Value(d, false, p, 0) == Scalar(d, false, p) == Done(p + 1);
  }

  lemma MarkAndZero(t: Text, more: Text)
    requires PartOfBom(t) && more == BOM[|t|..] + [48]
    ensures Run(t + more, false).problem.None?
  {
    var d := t + more;
    forall i | 0 <= i < 3
      ensures d[0 + i] == BOM[i]
    {
      if i < |t| { assert BOM[0 + i] == t[i]; }
    }
    assert AfterBom(d) == 3;
    ZeroIsValue(d, 3);
  }

  lemma {:induction false} SpaceThenZero(t: Text, p: nat)
    requires p <= |t| && JsonParse.SkipSpace(t, p) == |t|
    ensures Values(t + [48], false, p, 0) == Outcome(1, false, None)
    decreases |t| - p
  {
    var d := t + [48];
    if p == |t| {
      ZeroIsValue(d, p);
    } else {
      SpaceThenZero(t, p + 1);
      assert JsonParse.SkipSpace(d, p) == JsonParse.SkipSpace(d, p + 1);
    }
  }

  lemma SpaceAndZero(t: Text)
    requires FirstByte(t) == |t| && !PartOfBom(t)
    ensures Run(t + [48], false).problem.None?
  {
    var d := t + [48];
    if t != [] {
      BomAgrees(t, d);
    } else {
      assert d == [48];
    }
    SpaceThenZero(t, AfterBom(t));
  }

  /** The place of a bad \u escape does move: of five bytes it is the first digit, of the whole the bad one. */
  lemma BadEscapeMoves()
    ensures var t: Text := [QUOTE, BACKSLASH, LOWER_U, 49, 71];
      && Run(t, true) == Outcome(0, false, Some(Wrong(MalformedUnicode, 3)))
      && Run(t + [48, 48, QUOTE], false) == Outcome(0, false, Some(Wrong(MalformedUnicode, 4)))
  {
    var t: Text := [QUOTE, BACKSLASH, LOWER_U, 49, 71];
    assert !IsHex(t[4]);
    BadEscapeIsRead(t, true, 3);
    var d := t + [48, 48, QUOTE];
    assert HexFrom(d, 3, 0) == HexFrom(d, 3, 1) == Fault(MalformedUnicode, 4);
    BadEscapeIsRead(d, false, 4);
  }

  lemma BadEscapeIsRead(s: Text, truncated: bool, at: nat)
    requires |s| >= 5 && s[0] == QUOTE && s[1] == BACKSLASH && s[2] == LOWER_U
    requires Hex4(s, truncated, 3) == Fault(MalformedUnicode, at)
    ensures Run(s, truncated) == Outcome(0, false, Some(Wrong(MalformedUnicode, at)))
  {
    assert !At(s, 0, BOM) by { assert s[0 + 0] != BOM[0]; }
    assert JsonParse.SkipSpace(s, 0) == 0;
    assert Piece(s, truncated, 1) == Escape(s, truncated, 2) == Hex4(s, truncated, 3);
    assert StringFrom(s, truncated, 1) == Fault(MalformedUnicode, at);
    assert Value(s, truncated, 0, 0) == Scalar(s, truncated, 0) == StringFrom(s, truncated, 1);
  }
}
