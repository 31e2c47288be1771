/** The JSON reader of the previews as it runs: a position, whether the bytes ended in a value, and the error. */
module JsonReader {
  import opened Bytes
  import opened Utf8
  import opened Json
  import opened JsonPrefix
  import JsonParse

  class Reader {
    const data: Text
    const truncated: bool
    var pos: nat
    var wasCut: bool
    var error: Option<Problem>

    ghost predicate Valid()
      reads this
    {
      pos <= |data|
    }

    /** The flags say what the reading says; while it goes well they stay as they were. */
    ghost predicate Stands(r: Read)
      reads this
    {
      match r
      case Done(q) => pos == q && !wasCut && error.None?
      case Cut => wasCut && error.None?
      case Fault(kind, at) => !wasCut && error == Some(Wrong(kind, at))
    }

    /** Nothing has gone wrong so far. */
    ghost predicate Clean()
      reads this
    {
      Valid() && !wasCut && error.None?
    }

    constructor (bytes: Text, goesOn: bool)
      ensures data == bytes && truncated == goesOn && pos == AfterBom(bytes) && Clean()
    {
      data, truncated, pos, wasCut, error := bytes, goesOn, AfterBom(bytes), false, None;
    }

    method CutHere() returns (ok: bool)
      requires Clean()
      modifies this
      ensures !ok && Stands(Ending(truncated, old(pos)))
    {
      if truncated {
        wasCut, ok := true, false;
      } else {
        ok := Fail(UnexpectedEnd);
      }
    }

    method Fail(kind: Kind) returns (ok: bool)
      requires Clean()
      modifies this
      ensures !ok && Stands(Fault(kind, old(pos)))
    {
      error, ok := Some(Wrong(kind, pos)), false;
    }

    method SkipSpaces()
      requires Clean()
      modifies this`pos
      ensures Clean() && pos == JsonParse.SkipSpace(data, old(pos))
    {
      while pos < |data| && JsonParse.IsSpace(data[pos])
        invariant Clean() && JsonParse.SkipSpace(data, pos) == JsonParse.SkipSpace(data, old(pos))
      {
        pos := pos + 1;
      }
    }

    method ReadLiteral(word: Text) returns (ok: bool)
      requires Clean()
      modifies this
      ensures var r := Literal(data, truncated, old(pos), word); ok == r.Done? && Stands(r)
    {
      var i := 0;
      while i < |word| && pos + i < |data|
        invariant i <= |word| && pos + i <= |data| && Clean() && pos == old(pos)
        invariant forall k :: 0 <= k < i ==> data[pos + k] == word[k]
      {
        if data[pos + i] != word[i] {
          ok := Fail(UnexpectedCharacter);
          return;
        }
        i := i + 1;
      }
      if |data| - pos < |word| {
        ok := CutHere();
      } else {
        pos, ok := pos + |word|, true;
      }
    }

    method SkipDigits()
      requires Clean()
      modifies this`pos
      ensures Clean() && pos == JsonParse.DigitsEnd(data, old(pos))
    {
      while pos < |data| && IsDigit(data[pos])
        invariant Clean() && JsonParse.DigitsEnd(data, pos) == JsonParse.DigitsEnd(data, old(pos))
      {
        pos := pos + 1;
      }
    }

    method ReadDigits() returns (ok: bool)
      requires Clean()
      modifies this
      ensures var r := Digits(data, truncated, old(pos)); ok == r.Done? && Stands(r)
    {
      var start := pos;
      SkipDigits();
      if pos != start {
        ok := true;
      } else if pos == |data| {
        ok := CutHere();
      } else {
        ok := Fail(MalformedNumber);
      }
    }

    method PassWhole() returns (ok: bool)
      requires Clean() && pos < |data|
      modifies this
      ensures var r := Whole(data, truncated, old(pos)); ok == r.Done? && Stands(r)
    {
      var start := pos;
      if data[pos] == MINUS { pos := pos + 1; }
      if pos == |data| {
        ok := CutHere();
        return;
      }
      var lead := data[pos];
      var first := pos;
      SkipDigits();
      if pos == first {
        pos := start;
        ok := Fail(UnexpectedCharacter);
      } else if lead == 48 && pos - start > (if data[start] == MINUS then 2 else 1) {
        pos := start;
        ok := Fail(LeadingZero);
      } else {
        ok := true;
      }
    }

    method PassExponent() returns (ok: bool)
      requires Clean()
      modifies this
      ensures var r := Exponent(data, truncated, old(pos)); ok == r.Done? && Stands(r)
    {
      ok := true;
      if pos < |data| && (data[pos] == 101 || data[pos] == 69) {
        pos := pos + 1;
        if pos < |data| && (data[pos] == 43 || data[pos] == MINUS) { pos := pos + 1; }
        ok := ReadDigits();
      }
    }

    method PassNumber() returns (ok: bool)
      requires Clean() && pos < |data|
      modifies this
      ensures var r := ReadNumber(data, truncated, old(pos)); ok == r.Done? && Stands(r)
    {
      ok := PassWhole();
      if !ok { return; }
      if pos < |data| && data[pos] == PERIOD {
        pos := pos + 1;
        ok := ReadDigits();
        if !ok { return; }
      }
      ok := PassExponent();
      if ok && pos == |data| && truncated { ok := CutHere(); }
    }

    method ReadHex4() returns (ok: bool)
      requires Clean()
      modifies this
      ensures var r := Hex4(data, truncated, old(pos)); ok == r.Done? && Stands(r)
    {
      if |data| - pos < 4 {
        var q := pos;
        while q < |data|
          invariant pos <= q <= |data| && Clean() && pos == old(pos)
          invariant forall i :: pos <= i < q ==> IsHex(data[i])
        {
          if !IsHex(data[q]) {
            ok := Fail(MalformedUnicode);
            return;
          }
          q := q + 1;
        }
        ok := CutHere();
        return;
      }
      var i := 0;
      while i < 4
        invariant i <= 4 && Clean() && pos == old(pos) + i
        invariant HexFrom(data, old(pos), i) == HexFrom(data, old(pos), 0)
      {
        if !IsHex(data[pos]) {
          ok := Fail(MalformedUnicode);
          return;
        }
        i, pos := i + 1, pos + 1;
      }
      ok := true;
    }

    method ReadPiece() returns (ok: bool)
      requires Clean() && pos < |data| && data[pos] != QUOTE
      modifies this
      ensures var r := Piece(data, truncated, old(pos)); ok == r.Done? && Stands(r)
    {
      if data[pos] < 0x20 {
        ok := Fail(ControlCharacter);
      } else if data[pos] == BACKSLASH {
        pos := pos + 1;
        if pos == |data| {
          ok := CutHere();
          return;
        }
        var e := data[pos];
        pos := pos + 1;
        if e == LOWER_U {
          ok := ReadHex4();
        } else if JsonParse.ShortEscape(e).Some? {
          ok := true;
        } else {
          pos := pos - 1;
          ok := Fail(MalformedEscape);
        }
      } else {
        ok := PassCharacter();
      }
    }

    method PassCharacter() returns (ok: bool)
      requires Clean() && pos < |data|
      modifies this
      ensures var r := Character(data, truncated, old(pos)); ok == r.Done? && Stands(r)
    {
      var len := SequenceLength(data, pos, |data|);
      if len == 0 {
        if |data| - pos < 4 && truncated {
          ok := CutHere();
        } else {
          ok := Fail(NotUtf8);
        }
        return;
      }
      pos, ok := pos + len, true;
    }

    /** The rest of a string, after its opening quote. */
    method ReadString() returns (ok: bool)
      requires Clean()
      modifies this
      ensures var r := StringFrom(data, truncated, old(pos)); ok == r.Done? && Stands(r)
    {
      while true
        invariant Clean() && StringFrom(data, truncated, pos) == StringFrom(data, truncated, old(pos))
        decreases |data| - pos
      {
        if pos == |data| {
          ok := CutHere();
          return;
        }
        if data[pos] == QUOTE {
          pos := pos + 1;
          return true;
        }
        ok := ReadPiece();
        if !ok { return; }
      }
    }

    method ReadValue(depth: nat) returns (ok: bool)
      requires Clean()
      modifies this
      ensures var r := Value(data, truncated, old(pos), depth); ok == r.Done? && Stands(r)
      decreases |data| - pos, 3
    {
      SkipSpaces();
      if pos == |data| {
        ok := CutHere();
      } else if depth > MAX_DEPTH {
        ok := Fail(TooDeep);
      } else if data[pos] == OPEN_BRACE {
        ok := PassObject(depth);
      } else if data[pos] == OPEN_BRACKET {
        ok := PassArray(depth);
      } else {
        ok := PassScalar();
      }
    }

    method PassScalar() returns (ok: bool)
      requires Clean() && pos < |data|
      modifies this
      ensures var r := Scalar(data, truncated, old(pos)); ok == r.Done? && Stands(r)
    {
      if data[pos] == QUOTE {
        pos := pos + 1;
        ok := ReadString();
      } else if data[pos] == TRUE[0] {
        ok := ReadLiteral(TRUE);
      } else if data[pos] == FALSE[0] {
        ok := ReadLiteral(FALSE);
      } else if data[pos] == NULL[0] {
        ok := ReadLiteral(NULL);
      } else {
        ok := PassNumber();
      }
    }

    method PassByte(b: Byte, kind: Kind) returns (ok: bool)
      requires Clean()
      modifies this
      ensures var r := Expect(data, truncated, old(pos), b, kind); ok == r.Done? && Stands(r)
    {
      SkipSpaces();
      if pos == |data| {
        ok := CutHere();
      } else if data[pos] != b {
        ok := Fail(kind);
      } else {
        pos, ok := pos + 1, true;
      }
    }

    method ReadName() returns (ok: bool)
      requires Clean()
      modifies this
      ensures var r := Name(data, truncated, old(pos)); ok == r.Done? && Stands(r)
    {
      ok := PassByte(QUOTE, ExpectedName);
      if !ok { return; }
      ok := ReadString();
      if !ok { return; }
      ok := PassByte(COLON, ExpectedColon);
    }

    /** What is after a member or an item: whether the loop goes on, or ends well. */
    method PassSeparator(close: Byte, kind: Kind) returns (more: bool, ok: bool)
      requires Clean()
      modifies this
      ensures match Separator(data, truncated, old(pos), close, kind)
        case Comma(w) => more && ok && Stands(Done(w))
        case Last(w) => !more && ok && Stands(Done(w))
        case Stop(r) => !more && !ok && Stands(r)
    {
      SkipSpaces();
      more, ok := false, true;
      if pos == |data| {
        ok := CutHere();
      } else if data[pos] == COMMA {
        pos, more := pos + 1, true;
      } else if data[pos] == close {
        pos := pos + 1;
      } else {
        ok := Fail(kind);
      }
    }

    method PassObject(depth: nat) returns (ok: bool)
      requires Clean() && pos < |data|
      modifies this
      ensures var r := ReadObject(data, truncated, old(pos), depth); ok == r.Done? && Stands(r)
      decreases |data| - pos, 2
    {
      pos := pos + 1;
      SkipSpaces();
      if pos == |data| {
        ok := CutHere();
      } else if data[pos] == CLOSE_BRACE {
        pos, ok := pos + 1, true;
      } else {
        ok := PassMembers(depth);
      }
    }

    method PassMembers(depth: nat) returns (ok: bool)
      requires Clean()
      modifies this
      ensures var r := Members(data, truncated, old(pos), depth); ok == r.Done? && Stands(r)
      decreases |data| - pos, 4
    {
      var more := true;
      ok := true;
      while more
        invariant more ==> Clean() && old(pos) <= pos
        invariant more ==> Members(data, truncated, pos, depth) == Members(data, truncated, old(pos), depth)
        invariant !more ==> var r := Members(data, truncated, old(pos), depth); ok == r.Done? && Stands(r)
        decreases more, |data| - pos
      {
        ok := ReadName();
        if !ok { return; }
        ok := ReadValue(depth + 1);
        if !ok { return; }
        more, ok := PassSeparator(CLOSE_BRACE, ExpectedCommaOrBrace);
      }
    }

    method PassArray(depth: nat) returns (ok: bool)
      requires Clean() && pos < |data|
      modifies this
      ensures var r := ReadArray(data, truncated, old(pos), depth); ok == r.Done? && Stands(r)
      decreases |data| - pos, 2
    {
      pos := pos + 1;
      SkipSpaces();
      if pos == |data| {
        ok := CutHere();
      } else if data[pos] == CLOSE_BRACKET {
        pos, ok := pos + 1, true;
      } else {
        ok := PassItems(depth);
      }
    }

    method PassItems(depth: nat) returns (ok: bool)
      requires Clean()
      modifies this
      ensures var r := Items(data, truncated, old(pos), depth); ok == r.Done? && Stands(r)
      decreases |data| - pos, 4
    {
      var more := true;
      ok := true;
      while more
        invariant more ==> Clean() && old(pos) <= pos
        invariant more ==> Items(data, truncated, pos, depth) == Items(data, truncated, old(pos), depth)
        invariant !more ==> var r := Items(data, truncated, old(pos), depth); ok == r.Done? && Stands(r)
        decreases more, |data| - pos
      {
        ok := ReadValue(depth + 1);
        if !ok { return; }
        more, ok := PassSeparator(CLOSE_BRACKET, ExpectedCommaOrBracket);
      }
    }

    /** The values of the file, one after the other. */
    method ReadAll() returns (values: nat)
      requires Clean() && pos == AfterBom(data)
      modifies this
      ensures Run(data, truncated) == Outcome(values, wasCut, error)
    {
      values := 0;
      while true
        invariant Clean() && Values(data, truncated, pos, values) == Values(data, truncated, AfterBom(data), 0)
        decreases |data| - pos
      {
        SkipSpaces();
        if pos == |data| { break; }
        var ok := ReadValue(0);
        if !ok { break; }
        values := values + 1;
      }
      if values == 0 && !wasCut && error.None? { error := Some(NoValue); }
    }
  }

  /** What a preview says of a file's bytes. */
  method ReadFile(bytes: Text, goesOn: bool) returns (o: Outcome)
    ensures o == Run(bytes, goesOn)
  {
    var reader := new Reader(bytes, goesOn);
    var values := reader.ReadAll();
    o := Outcome(values, reader.wasCut, reader.error);
  }
}
