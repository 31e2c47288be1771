/** Exactly which of the texts that are one value to the preview reader the strict parser accepts. */
module JsonAcceptance {
  import opened Bytes
  import opened Utf8
  import opened Json
  import opened JsonReaders
  import Strict = JsonParse
  import Tolerant = JsonPrefix

  // ---- What the strict parser asks for besides

  /** Between tokens, or in a string, inside so many brackets and braces. */
  datatype Place = Outside(depth: nat) | Inside(depth: nat)

  /** The value of the \u escape at p, if there is one. */
  function Unit(s: Text, p: nat): Option<nat> {
    if p + 6 <= |s| && s[p] == BACKSLASH && s[p + 1] == LOWER_U && Strict.HexFrom(s, p + 2, 0, 0).Ok?
    then Some(Strict.HexFrom(s, p + 2, 0, 0).value) else None
  }

  predicate IsHigh(v: nat) { 0xD800 <= v <= 0xDBFF }
  predicate IsLow(v: nat) { 0xDC00 <= v <= 0xDFFF }

  /**
    * From p on, byte by byte and without regard to any grammar: no more than 64 brackets and braces are
    * open at once, and in strings each high surrogate escape is followed by a low one, which stands
    * nowhere else.
    */
  predicate Clean(s: Text, p: nat, at: Place)
    decreases if p < |s| then |s| - p else 0
  {
    p >= |s| ||
    match at
    case Outside(d) =>
      if s[p] == QUOTE then Clean(s, p + 1, Inside(d))
      else if s[p] == OPEN_BRACE || s[p] == OPEN_BRACKET then d < Strict.MAX_DEPTH && Clean(s, p + 1, Outside(d + 1))
      else if s[p] == CLOSE_BRACE || s[p] == CLOSE_BRACKET then Clean(s, p + 1, Outside(if d > 0 then d - 1 else 0))
      else Clean(s, p + 1, at)
    case Inside(d) =>
      if s[p] == QUOTE then Clean(s, p + 1, Outside(d))
      else if s[p] != BACKSLASH then Clean(s, p + 1, at)
      else match Unit(s, p)
        case None => Clean(s, p + 2, at)
        case Some(v) =>
          if IsHigh(v) then Unit(s, p + 6).Some? && IsLow(Unit(s, p + 6).value) && Clean(s, p + 12, at)
          else !IsLow(v) && Clean(s, p + 6, at)
  }

  /** A result of the strict parser for what the preview reader read up to q: the same end, or not clean. */
  ghost predicate Judges<T>(r: Strict.Result<T>, q: nat, before: bool, after: bool) {
    if r.Ok? then r.pos == q && before == after else !before
  }

  // ---- What is passed over

  predicate Ordinary(b: Byte) {
    b != QUOTE && b != OPEN_BRACE && b != OPEN_BRACKET && b != CLOSE_BRACE && b != CLOSE_BRACKET
  }

  lemma {:induction false} PassOrdinary(s: Text, p: nat, q: nat, d: nat)
    requires p <= q <= |s| && forall i :: p <= i < q ==> Ordinary(s[i])
    ensures Clean(s, p, Outside(d)) == Clean(s, q, Outside(d))
    decreases q - p
  {
    if p < q { PassOrdinary(s, p + 1, q, d); }
  }

  lemma {:induction false} PassSpace(s: Text, p: nat, d: nat)
    requires p <= |s|
    ensures Clean(s, p, Outside(d)) == Clean(s, Strict.SkipSpace(s, p), Outside(d))
    decreases |s| - p
  {
    if p < |s| && Strict.IsSpace(s[p]) { PassSpace(s, p + 1, d); }
  }

  lemma {:induction false} PassDigits(s: Text, p: nat, d: nat)
    requires p <= |s|
    ensures Clean(s, p, Outside(d)) == Clean(s, Strict.DigitsEnd(s, p), Outside(d))
    decreases |s| - p
  {
    if p < |s| && IsDigit(s[p]) { PassDigits(s, p + 1, d); }
  }

  // ---- Numbers and words

  lemma FractionJudged(s: Text, p: nat, d: nat)
    requires p <= |s| && Tolerant.Fraction(s, false, p).Done?
    ensures var q := Tolerant.Fraction(s, false, p).pos;
      Strict.Fraction(s, p) == Strict.Ok((), q) && Clean(s, p, Outside(d)) == Clean(s, q, Outside(d))
  {
    if p < |s| && s[p] == PERIOD { PassDigits(s, p + 1, d); }
  }

  lemma ExponentJudged(s: Text, p: nat, d: nat)
    requires p <= |s| && Tolerant.Exponent(s, false, p).Done?
    ensures var q := Tolerant.Exponent(s, false, p).pos;
      Strict.Exponent(s, p) == Strict.Ok((), q) && Clean(s, p, Outside(d)) == Clean(s, q, Outside(d))
  {
    if p < |s| && (s[p] == 101 || s[p] == 69) {
      var q := if p + 1 < |s| && (s[p + 1] == 43 || s[p + 1] == MINUS) then p + 2 else p + 1;
      PassOrdinary(s, p, q, d);
      PassDigits(s, q, d);
    }
  }

  lemma WholeJudged(s: Text, p: nat, d: nat)
    requires p < |s| && Tolerant.Whole(s, false, p).Done?
    ensures var a, b := if s[p] == MINUS then p + 1 else p, Tolerant.Whole(s, false, p).pos;
      && a < b && IsDigit(s[a]) && b == (if s[a] == 48 then a + 1 else Strict.DigitsEnd(s, a))
      && Clean(s, p, Outside(d)) == Clean(s, b, Outside(d))
  {
    var a := if s[p] == MINUS then p + 1 else p;
    PassDigits(s, a, d);
  }

  lemma NumberJudged(s: Text, p: nat, d: nat)
    requires p < |s| && Tolerant.ReadNumber(s, false, p).Done?
    ensures var q := Tolerant.ReadNumber(s, false, p).pos;
      Strict.NumberEnd(s, p) == Strict.Ok((), q) && Clean(s, p, Outside(d)) == Clean(s, q, Outside(d))
  {
    WholeJudged(s, p, d);
    var b := Tolerant.Whole(s, false, p).pos;
    FractionJudged(s, b, d);
    ExponentJudged(s, Tolerant.Fraction(s, false, b).pos, d);
  }

  lemma LiteralJudged(s: Text, p: nat, word: Text, j: Json, d: nat)
    requires p <= |s| && Tolerant.Literal(s, false, p, word).Done? && forall i :: 0 <= i < |word| ==> Ordinary(word[i])
    ensures Judges(Strict.Literal(s, p, word, j), Tolerant.Literal(s, false, p, word).pos,
                   Clean(s, p, Outside(d)), Clean(s, p + |word|, Outside(d)))
  {
    forall i | p <= i < p + |word|
      ensures Ordinary(s[i])
    {
      assert s[p + (i - p)] == word[i - p];
    }
    PassOrdinary(s, p, p + |word|, d);
  }

  // ---- Strings

  lemma {:induction false} HexJudged(s: Text, p: nat, i: nat, v: nat)
    requires p + 4 <= |s| && i <= 4
    requires Strict.HasDigits(v, i)
    requires Tolerant.HexFrom(s, p, i).Done?
    ensures Strict.HexFrom(s, p, i, v).Ok?
    decreases 4 - i
  {
    if i < 4 { HexJudged(s, p, i + 1, v * 16 + Strict.HexValue(s[p + i]).value); }
  }

  /** A \u escape in a string the preview reader reads whole has four digits. */
  lemma UnitStands(s: Text, p: nat)
    requires p + 1 < |s| && s[p] == BACKSLASH && s[p + 1] == LOWER_U && Tolerant.StringFrom(s, false, p).Done?
    ensures p + 6 <= |s| && Unit(s, p).Some? && Strict.Hex4(s, p + 2) == Strict.Ok(Unit(s, p).value, p + 6)
    ensures Tolerant.StringFrom(s, false, p) == Tolerant.StringFrom(s, false, p + 6)
  {
    assert Tolerant.Piece(s, false, p) == Tolerant.Hex4(s, false, p + 2);
    assert Tolerant.Piece(s, false, p).Done?;
    HexJudged(s, p + 2, 0, 0);
  }

  /** What the strict parser makes of an escape that the preview reader has passed. */
  ghost predicate EscapeJudged(s: Text, p: nat, d: nat)
    requires p < |s|
  {
    var e := Strict.Escape(s, p + 1);
    if e.Ok? then
      && Tolerant.StringFrom(s, false, p) == Tolerant.StringFrom(s, false, e.pos)
      && Clean(s, p, Inside(d)) == Clean(s, e.pos, Inside(d))
    else !Clean(s, p, Inside(d))
  }

  lemma UnicodeJudged(s: Text, p: nat, d: nat)
    requires p + 1 < |s| && s[p] == BACKSLASH && s[p + 1] == LOWER_U && Tolerant.StringFrom(s, false, p).Done?
    ensures EscapeJudged(s, p, d)
  {
    UnitStands(s, p);
    if p + 7 < |s| && s[p + 6] == BACKSLASH && s[p + 7] == LOWER_U { UnitStands(s, p + 6); }
  }

  lemma EscapesJudged(s: Text, p: nat, d: nat)
    requires p < |s| && s[p] == BACKSLASH && Tolerant.StringFrom(s, false, p).Done?
    ensures EscapeJudged(s, p, d)
  {
    assert Tolerant.Piece(s, false, p).Done?;
    if s[p + 1] == LOWER_U { UnicodeJudged(s, p, d); }
  }

  lemma PassSequence(s: Text, p: nat, d: nat)
    requires p < |s| && s[p] != QUOTE && s[p] != BACKSLASH && SequenceLength(s, p, |s|) > 0
    ensures Clean(s, p, Inside(d)) == Clean(s, p + SequenceLength(s, p, |s|), Inside(d))
  {
    var n := SequenceLength(s, p, |s|);
    if n > 1 { assert Clean(s, p + 1, Inside(d)) == Clean(s, p + 2, Inside(d)); }
    if n > 2 { assert Clean(s, p + 2, Inside(d)) == Clean(s, p + 3, Inside(d)); }
    if n > 3 { assert Clean(s, p + 3, Inside(d)) == Clean(s, p + 4, Inside(d)); }
  }

  lemma CharacterJudged(s: Text, p: nat, d: nat)
    requires p < |s| && s[p] != QUOTE && s[p] != BACKSLASH && Tolerant.StringFrom(s, false, p).Done?
    ensures var piece := Strict.Piece(s, p);
      && piece.Ok? && Tolerant.StringFrom(s, false, p) == Tolerant.StringFrom(s, false, piece.pos)
      && Clean(s, p, Inside(d)) == Clean(s, piece.pos, Inside(d))
  {
    assert Tolerant.Piece(s, false, p).Done?;
    ValidatorsAgree(s, p);
    PassSequence(s, p, d);
  }

  lemma {:induction false} StringJudged(s: Text, p: nat, acc: Text, d: nat)
    requires p <= |s| && Tolerant.StringFrom(s, false, p).Done?
    ensures var q := Tolerant.StringFrom(s, false, p).pos;
      Judges(Strict.StringFrom(s, p, acc), q, Clean(s, p, Inside(d)), Clean(s, q, Outside(d)))
    decreases |s| - p
  {
    if s[p] != QUOTE {
      var piece := Strict.Piece(s, p);
      if s[p] == BACKSLASH {
        EscapesJudged(s, p, d);
      } else {
        CharacterJudged(s, p, d);
      }
      if piece.Ok? { StringJudged(s, piece.pos, acc + piece.value, d); }
    }
  }

  // ---- Values

  ghost predicate ValueJudged(s: Text, p: nat, d: nat)
    requires p <= |s|
  {
    var r := Tolerant.Value(s, false, p, d);
    r.Done? ==>
      Judges(Strict.Value(s, p, d, Strict.MAX_DEPTH), r.pos, Clean(s, p, Outside(d)), Clean(s, r.pos, Outside(d)))
  }

  lemma ScalarJudged(s: Text, p: nat, d: nat)
    requires p < |s| && s[p] != OPEN_BRACE && s[p] != OPEN_BRACKET && Tolerant.Scalar(s, false, p).Done?
    ensures var q := Tolerant.Scalar(s, false, p).pos;
      Judges(Strict.Value(s, p, d, Strict.MAX_DEPTH), q, Clean(s, p, Outside(d)), Clean(s, q, Outside(d)))
  {
    if s[p] == QUOTE {
      StringJudged(s, p + 1, [], d);
    } else if s[p] == TRUE[0] {
      LiteralJudged(s, p, TRUE, Bool(true), d);
    } else if s[p] == FALSE[0] {
      LiteralJudged(s, p, FALSE, Bool(false), d);
    } else if s[p] == NULL[0] {
      LiteralJudged(s, p, NULL, Null, d);
    } else {
      NumberJudged(s, p, d);
    }
  }

  lemma {:induction false} ValuesJudged(s: Text, p: nat, d: nat)
    requires p <= |s| && d <= Strict.MAX_DEPTH && (p < |s| ==> !Strict.IsSpace(s[p]))
    ensures ValueJudged(s, p, d)
    decreases |s| - p, 2
  {
    assert Strict.SkipSpace(s, p) == p;
    if Tolerant.Value(s, false, p, d).Done? {
      if s[p] == OPEN_BRACE {
        ObjectJudged(s, p, d);
      } else if s[p] == OPEN_BRACKET {
        ArrayJudged(s, p, d);
      } else {
        ScalarJudged(s, p, d);
      }
    }
  }

  lemma {:induction false} ObjectJudged(s: Text, p: nat, d: nat)
    requires p < |s| && s[p] == OPEN_BRACE && Tolerant.ReadObject(s, false, p, d).Done?
    ensures var q := Tolerant.ReadObject(s, false, p, d).pos;
      Judges(Strict.ParseObject(s, p, d + 1, Strict.MAX_DEPTH), q, Clean(s, p, Outside(d)), Clean(s, q, Outside(d)))
    decreases |s| - p, 1
  {
    var q := Strict.SkipSpace(s, p + 1);
    OpensOne(s, p, d);
    if d < Strict.MAX_DEPTH {
      if s[q] != CLOSE_BRACE { MembersJudged(s, q, d, []); }
    }
  }

  /** An opening byte, and perhaps the closing one at once. */
  lemma OpensOne(s: Text, p: nat, d: nat)
    requires p < |s| && (s[p] == OPEN_BRACE || s[p] == OPEN_BRACKET)
    ensures var q := Strict.SkipSpace(s, p + 1);
      && Clean(s, p, Outside(d)) == (d < Strict.MAX_DEPTH && Clean(s, q, Outside(d + 1)))
      && (q < |s| && (s[q] == CLOSE_BRACE || s[q] == CLOSE_BRACKET) ==>
            Clean(s, q, Outside(d + 1)) == Clean(s, q + 1, Outside(d)))
  {
    PassSpace(s, p + 1, d + 1);
  }

  lemma ColonJudged(s: Text, u: nat, d: nat)
    requires u <= |s| && Tolerant.Expect(s, false, u, COLON, Tolerant.ExpectedColon).Done?
    ensures var v := Strict.SkipSpace(s, u);
      && v < |s| && s[v] == COLON && Tolerant.Expect(s, false, u, COLON, Tolerant.ExpectedColon).pos == v + 1
      && Clean(s, u, Outside(d)) == Clean(s, Strict.SkipSpace(s, v + 1), Outside(d))
  {
    PassSpace(s, u, d);
    PassSpace(s, Strict.SkipSpace(s, u) + 1, d);
  }

  /** The string of a name: where it starts and ends in both. */
  lemma NameReads(s: Text, p: nat)
    requires p <= |s| && Tolerant.Name(s, false, p).Done?
    ensures var q := Strict.SkipSpace(s, p);
      && q < |s| && s[q] == QUOTE && Tolerant.StringFrom(s, false, q + 1).Done?
      && Tolerant.Name(s, false, p) ==
         Tolerant.Expect(s, false, Tolerant.StringFrom(s, false, q + 1).pos, COLON, Tolerant.ExpectedColon)
  {
  }

  /** A name and its colon: the value starts at the same place. */
  lemma NameJudged(s: Text, p: nat, d: nat)
    requires p <= |s| && Tolerant.Name(s, false, p).Done?
    ensures Judges(Strict.Name(s, p), Strict.SkipSpace(s, Tolerant.Name(s, false, p).pos), Clean(s, p, Outside(d)),
                   Clean(s, Strict.SkipSpace(s, Tolerant.Name(s, false, p).pos), Outside(d)))
  {
    NameReads(s, p);
    var q := Strict.SkipSpace(s, p);
    var u := Tolerant.StringFrom(s, false, q + 1).pos;
    PassSpace(s, p, d);
    StringJudged(s, q + 1, [], d);
    ColonJudged(s, u, d);
    StrictName(s, p, u);
  }

  lemma StrictName(s: Text, p: nat, u: nat)
    requires p <= |s| && u <= |s| && Strict.SkipSpace(s, p) < |s| && s[Strict.SkipSpace(s, p)] == QUOTE
    ensures var r, v := Strict.StringFrom(s, Strict.SkipSpace(s, p) + 1, []), Strict.SkipSpace(s, u);
      && (r.Err? ==> Strict.Name(s, p).Err?)
      && (r.Ok? && r.pos == u && v < |s| && s[v] == COLON ==>
            Strict.Name(s, p) == Strict.Ok(r.value, Strict.SkipSpace(s, v + 1)))
  {
  }

  /** What comes after a member or an item, in both readers. */
  lemma SeparatorJudged(s: Text, u: nat, close: Byte, kind: Tolerant.Kind, d: nat)
    requires u <= |s| && (close == CLOSE_BRACE || close == CLOSE_BRACKET)
    ensures var a, w := Tolerant.Separator(s, false, u, close, kind), Strict.SkipSpace(s, u);
      && (a.Comma? ==> a.pos == w + 1 && w < |s| && s[w] == COMMA &&
                       Clean(s, u, Outside(d + 1)) == Clean(s, w + 1, Outside(d + 1)))
      && (a.Last? ==> a.pos == w + 1 && w < |s| && s[w] == close &&
                      Clean(s, u, Outside(d + 1)) == Clean(s, w + 1, Outside(d)))
  {
    PassSpace(s, u, d + 1);
  }

  /** The value of a member, or an item, after space. */
  lemma {:induction false} SpacedValueJudged(s: Text, p: nat, d: nat)
    requires p <= |s| && d <= Strict.MAX_DEPTH && Tolerant.Value(s, false, p, d).Done?
    ensures var q := Tolerant.Value(s, false, p, d).pos;
      Judges(Strict.Value(s, Strict.SkipSpace(s, p), d, Strict.MAX_DEPTH), q,
             Clean(s, p, Outside(d)), Clean(s, q, Outside(d)))
    decreases |s| - p, 3
  {
    SpaceFirst(s, p, d);
    PassSpace(s, p, d);
    ValuesJudged(s, Strict.SkipSpace(s, p), d);
  }

  lemma {:induction false} OneMemberJudged(s: Text, p: nat, d: nat, acc: seq<Member>)
    requires p <= |s| && d < Strict.MAX_DEPTH && Tolerant.Members(s, false, p, d).Done?
    ensures Tolerant.Name(s, false, p).Done? && Tolerant.Value(s, false, Tolerant.Name(s, false, p).pos, d + 1).Done?
    ensures var u := Tolerant.Value(s, false, Tolerant.Name(s, false, p).pos, d + 1).pos;
      Judges(Strict.OneMember(s, p, d + 1, Strict.MAX_DEPTH, acc), u,
             Clean(s, p, Outside(d + 1)), Clean(s, u, Outside(d + 1)))
    decreases |s| - p, 4
  {
    var n := Tolerant.Name(s, false, p).pos;
    NameJudged(s, p, d + 1);
    PassSpace(s, n, d + 1);
    SpacedValueJudged(s, n, d + 1);
  }

  /** What the strict parser makes of members, by what it makes of the first and of the others. */
  lemma FirstJudges(s: Text, p: nat, d: nat, acc: seq<Member>, u: nat, q: nat, before: bool, between: bool, after: bool)
    requires p <= |s| && u <= |s| && Judges(Strict.OneMember(s, p, d, Strict.MAX_DEPTH, acc), u, before, between)
    requires var one, w := Strict.OneMember(s, p, d, Strict.MAX_DEPTH, acc), Strict.SkipSpace(s, u);
      && w < |s|
      && if s[w] == COMMA then
           one.Ok? ==> Judges(Strict.Members(s, w + 1, d, Strict.MAX_DEPTH, one.value), q, between, after)
         else s[w] == CLOSE_BRACE && q == w + 1 && between == after
    ensures Judges(Strict.Members(s, p, d, Strict.MAX_DEPTH, acc), q, before, after)
  {
  }

  lemma MembersSeparate(s: Text, p: nat, d: nat, u: nat)
    requires p <= |s| && Tolerant.Members(s, false, p, d).Done? && Tolerant.Name(s, false, p).Done?
    requires Tolerant.Value(s, false, Tolerant.Name(s, false, p).pos, d + 1) == Tolerant.Done(u)
    ensures var w := Strict.SkipSpace(s, u);
      && w < |s|
      && if s[w] == COMMA then
           && Tolerant.Members(s, false, w + 1, d) == Tolerant.Members(s, false, p, d)
           && Clean(s, u, Outside(d + 1)) == Clean(s, w + 1, Outside(d + 1))
         else
           && s[w] == CLOSE_BRACE && Tolerant.Members(s, false, p, d) == Tolerant.Done(w + 1)
           && Clean(s, u, Outside(d + 1)) == Clean(s, w + 1, Outside(d))
  {
    SeparatorJudged(s, u, CLOSE_BRACE, Tolerant.ExpectedCommaOrBrace, d);
  }

  lemma {:induction false} MembersJudged(s: Text, p: nat, d: nat, acc: seq<Member>)
    requires p <= |s| && d < Strict.MAX_DEPTH && Tolerant.Members(s, false, p, d).Done?
    ensures var q := Tolerant.Members(s, false, p, d).pos;
      Judges(Strict.Members(s, p, d + 1, Strict.MAX_DEPTH, acc), q,
             Clean(s, p, Outside(d + 1)), Clean(s, q, Outside(d)))
    decreases |s| - p, 5
  {
    OneMemberJudged(s, p, d, acc);
    var one := Strict.OneMember(s, p, d + 1, Strict.MAX_DEPTH, acc);
    var u := Tolerant.Value(s, false, Tolerant.Name(s, false, p).pos, d + 1).pos;
    var w := Strict.SkipSpace(s, u);
    MembersSeparate(s, p, d, u);
    if s[w] == COMMA && one.Ok? { MembersJudged(s, w + 1, d, one.value); }
    var q := Tolerant.Members(s, false, p, d).pos;
    FirstJudges(s, p, d + 1, acc, u, q, Clean(s, p, Outside(d + 1)), Clean(s, u, Outside(d + 1)),
                Clean(s, q, Outside(d)));
  }

  lemma {:induction false} ArrayJudged(s: Text, p: nat, d: nat)
    requires p < |s| && s[p] == OPEN_BRACKET && Tolerant.ReadArray(s, false, p, d).Done?
    ensures var q := Tolerant.ReadArray(s, false, p, d).pos;
      Judges(Strict.ParseArray(s, p, d + 1, Strict.MAX_DEPTH), q, Clean(s, p, Outside(d)), Clean(s, q, Outside(d)))
    decreases |s| - p, 1
  {
    var q := Strict.SkipSpace(s, p + 1);
    OpensOne(s, p, d);
    if d < Strict.MAX_DEPTH {
      if s[q] != CLOSE_BRACKET { ItemsJudged(s, q, d, []); }
    }
  }

  lemma {:induction false} ItemsJudged(s: Text, p: nat, d: nat, acc: seq<Json>)
    requires p <= |s| && d < Strict.MAX_DEPTH && Tolerant.Items(s, false, p, d).Done?
    ensures var q := Tolerant.Items(s, false, p, d).pos;
      Judges(Strict.Items(s, p, d + 1, Strict.MAX_DEPTH, acc), q, Clean(s, p, Outside(d + 1)), Clean(s, q, Outside(d)))
    decreases |s| - p, 5
  {
    SpacedValueJudged(s, p, d + 1);
    var v := Strict.Value(s, Strict.SkipSpace(s, p), d + 1, Strict.MAX_DEPTH);
    if v.Ok? {
      SeparatorJudged(s, v.pos, CLOSE_BRACKET, Tolerant.ExpectedCommaOrBracket, d);
      var w := Strict.SkipSpace(s, v.pos);
      if s[w] == COMMA { ItemsJudged(s, w + 1, d, acc + [v.value]); }
    }
  }

  // ---- Texts

  /** A text of one value ends after it. */
  lemma OneValue(s: Text)
    requires Tolerant.AfterBom(s) == 0 && Tolerant.Run(s, false) == Tolerant.Outcome(1, false, None)
    ensures var p := Strict.SkipSpace(s, 0); var r := Tolerant.Value(s, false, p, 0);
      p < |s| && r.Done? && Strict.SkipSpace(s, r.pos) == |s|
  {
    var r := Tolerant.Value(s, false, Strict.SkipSpace(s, 0), 0);
    assert Tolerant.Values(s, false, 0, 0) == Tolerant.Outcome(1, false, None);
    if r.Done? { assert Tolerant.Values(s, false, r.pos, 1) == Tolerant.Outcome(1, false, None); }
  }

  /**
    * The strict parser accepts a text exactly if it is one value and no problem to the preview reader, does
    * not start with a byte order mark, opens no more than 64 brackets and braces at once, and pairs its
    * surrogate escapes.
    */
  lemma AcceptedIff(s: Text)
    ensures Strict.ParseJson(s, Strict.MAX_DEPTH).Ok? <==>
      && Tolerant.Run(s, false) == Tolerant.Outcome(1, false, None)
      && !(|s| >= 3 && s[..3] == [0xEF, 0xBB, 0xBF]) && Clean(s, 0, Outside(0))
  {
    NoMark(s, Strict.MAX_DEPTH);
    MarkIs(s);
    if Strict.ParseJson(s, Strict.MAX_DEPTH).Ok? { AcceptedByBoth(s); }
    if Tolerant.AfterBom(s) == 0 && Tolerant.Run(s, false) == Tolerant.Outcome(1, false, None) {
      OneValue(s);
      SpacedValueJudged(s, 0, 0);
      SpaceFirst(s, 0, 0);
      PassSpace(s, Tolerant.Value(s, false, 0, 0).pos, 0);
    }
  }
}
