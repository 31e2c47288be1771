/** The strict parser of json.cpp as it runs: a position that moves through the text, and the first error. */
module JsonParser {
  import opened Bytes
  import opened Utf8
  import opened Json
  import opened JsonParse

  class Parser {
    const s: Text
    const max: nat
    var pos: nat
    var error: ParseError

    ghost predicate Valid()
      reads this
    {
      pos <= |s|
    }

    /** The parser stands where the result says, with the error it says. */
    ghost predicate Stands<T>(r: Result<T>)
      reads this
    {
      match r
      case Ok(_, q) => pos == q
      case Err(e, at) => pos == at && error == e
    }

    constructor (text: Text, max_depth: nat)
      ensures s == text && max == max_depth && pos == 0 && Valid()
    {
      s, max, pos, error := text, max_depth, 0, EndOfInput;
    }

    method Fail(e: ParseError) returns (ok: bool)
      modifies this
      ensures !ok && error == e && pos == old(pos)
    {
      error, ok := e, false;
    }

    method SkipWs()
      requires Valid()
      modifies this`pos
      ensures Valid() && pos == SkipSpace(s, old(pos))
    {
      while pos < |s|
        invariant Valid() && old(pos) <= pos && SkipSpace(s, pos) == SkipSpace(s, old(pos))
      {
        if !IsSpace(s[pos]) { break; }
        pos := pos + 1;
      }
    }

    method ReadLiteral(word: Text, j: Json) returns (ok: bool)
      requires Valid()
      modifies this
      ensures var r := Literal(s, old(pos), word, j); ok == r.Ok? && Stands(r) && (ok ==> Valid())
    {
      var i := 0;
      while i < |word|
        invariant i <= |word| && pos == old(pos) && (i > 0 ==> pos + i <= |s|)
        invariant forall k :: 0 <= k < i ==> s[pos + k] == word[k]
      {
        if pos + i >= |s| || s[pos + i] != word[i] {
          ok := Fail(InvalidLiteral);
          return;
        }
        i := i + 1;
      }
      pos := pos + i;
      ok := true;
    }

    method ReadValue(depth: nat) returns (ok: bool, out: Json)
      requires Valid()
      modifies this
      ensures var r := Value(s, old(pos), depth, max);
        ok == r.Ok? && Stands(r) && (ok ==> Valid() && out == r.value)
      decreases |s| - pos, 2
    {
      out := Null;
      if pos == |s| {
        ok := Fail(EndOfInput);
      } else if s[pos] == OPEN_BRACE {
        ok, out := ReadObject(depth + 1);
      } else if s[pos] == OPEN_BRACKET {
        ok, out := ReadArray(depth + 1);
      } else if s[pos] == QUOTE {
        var t: Text;
        ok, t := ReadString();
        if ok { out := String(t); }
      } else if s[pos] == TRUE[0] {
        ok := ReadLiteral(TRUE, Bool(true));
        if ok { out := Bool(true); }
      } else if s[pos] == FALSE[0] {
        ok := ReadLiteral(FALSE, Bool(false));
        if ok { out := Bool(false); }
      } else if s[pos] == NULL[0] {
        ok := ReadLiteral(NULL, Null);
      } else {
        ok, out := ReadNumber();
      }
    }

    method ReadObject(depth: nat) returns (ok: bool, out: Json)
      requires Valid() && pos < |s|
      modifies this
      ensures var r := ParseObject(s, old(pos), depth, max);
        ok == r.Ok? && Stands(r) && (ok ==> Valid() && out == r.value)
      decreases |s| - pos, 1
    {
      out := Null;
      if depth > max {
        ok := Fail(TooDeep);
        return;
      }
      pos := pos + 1;
      SkipWs();
      if pos < |s| && s[pos] == CLOSE_BRACE {
        pos := pos + 1;
        return true, Object([]);
      }
      ok, out := ReadMembers(depth);
    }

    /** The loop over the members, after the opening brace. */
    method ReadMembers(depth: nat) returns (ok: bool, out: Json)
      requires Valid()
      modifies this
      ensures var r := Members(s, old(pos), depth, max, []);
        ok == r.Ok? && Stands(r) && (ok ==> Valid() && out == r.value)
      decreases |s| - pos, 3
    {
      var obj: seq<Member>, more := [], true;
      out, ok := Null, true;
      while more
        invariant more ==> Valid() && old(pos) <= pos && ok
        invariant more ==> Members(s, pos, depth, max, obj) == Members(s, old(pos), depth, max, [])
        invariant !more ==> MembersEnd(depth, old(pos), [], ok, obj)
        decreases more, |s| - pos
      {
        ok, more, obj := ReadMember(depth, obj);
      }
      if ok { out := Object(obj); }
    }

    /** The members read from p on, after those before, are all of them, or reading them fails. */
    ghost predicate MembersEnd(depth: nat, p: nat, before: seq<Member>, ok: bool, obj: seq<Member>)
      reads this
    {
      p <= |s| && Members(s, p, depth, max, before) == if ok then Ok(Object(obj), pos) else Err(error, pos)
    }

    /** One member, and what is after it. */
    method ReadMember(depth: nat, before: seq<Member>) returns (ok: bool, more: bool, obj: seq<Member>)
      requires Valid()
      modifies this
      ensures more ==> ok && Valid() && old(pos) < pos
      ensures more ==> Members(s, old(pos), depth, max, before) == Members(s, pos, depth, max, obj)
      ensures !more ==> MembersEnd(depth, old(pos), before, ok, obj)
      decreases |s| - pos, 2
    {
      more, obj := false, before;
      var name: Text, v: Json;
      ok, name := ReadName();
      if !ok { return; }
      ok, v := ReadValue(depth);
      if !ok { return; }
      obj := SetMember(obj, name, v);
      ok, more := PassSeparator(CLOSE_BRACE, UnterminatedObject, ExpectedCommaOrBrace);
    }

    /** What is after a member or an item: a comma and more, the closing byte, or an error. */
    method PassSeparator(close: Byte, unterminated: ParseError, expected: ParseError) returns (ok: bool, more: bool)
      requires Valid() && close != COMMA
      modifies this
      ensures var w := SkipSpace(s, old(pos));
        if w == |s| then !ok && !more && pos == w && error == unterminated
        else if s[w] == COMMA then ok && more && pos == w + 1
        else if s[w] == close then ok && !more && pos == w + 1
        else !ok && !more && pos == w && error == expected
    {
      SkipWs();
      ok, more := true, false;
      if pos == |s| {
        ok := Fail(unterminated);
      } else if s[pos] == COMMA {
        pos, more := pos + 1, true;
      } else if s[pos] == close {
        pos := pos + 1;
      } else {
        ok := Fail(expected);
      }
    }

    method ReadName() returns (ok: bool, name: Text)
      requires Valid()
      modifies this
      ensures var r := Name(s, old(pos)); ok == r.Ok? && Stands(r) && (ok ==> Valid() && name == r.value)
    {
      name := [];
      SkipWs();
      if pos == |s| || s[pos] != QUOTE {
        ok := Fail(ExpectedName);
        return;
      }
      ok, name := ReadString();
      if !ok { return; }
      SkipWs();
      if pos == |s| || s[pos] != COLON {
        ok := Fail(ExpectedColon);
        return;
      }
      pos := pos + 1;
      SkipWs();
    }

    method ReadArray(depth: nat) returns (ok: bool, out: Json)
      requires Valid() && pos < |s|
      modifies this
      ensures var r := ParseArray(s, old(pos), depth, max);
        ok == r.Ok? && Stands(r) && (ok ==> Valid() && out == r.value)
      decreases |s| - pos, 1
    {
      out := Null;
      if depth > max {
        ok := Fail(TooDeep);
        return;
      }
      pos := pos + 1;
      SkipWs();
      if pos < |s| && s[pos] == CLOSE_BRACKET {
        pos := pos + 1;
        return true, Array([]);
      }
      ok, out := ReadItems(depth);
    }

    /** The loop over the items, after the opening bracket. */
    method ReadItems(depth: nat) returns (ok: bool, out: Json)
      requires Valid()
      modifies this
      ensures var r := Items(s, old(pos), depth, max, []);
        ok == r.Ok? && Stands(r) && (ok ==> Valid() && out == r.value)
      decreases |s| - pos, 4
    {
      var arr: seq<Json>, more := [], true;
      out, ok := Null, true;
      while more
        invariant more ==> Valid() && old(pos) <= pos && ok
        invariant more ==> Items(s, pos, depth, max, arr) == Items(s, old(pos), depth, max, [])
        invariant !more ==> ItemsEnd(depth, old(pos), [], ok, arr)
        decreases more, |s| - pos
      {
        ok, more, arr := ReadItem(depth, arr);
      }
      if ok { out := Array(arr); }
    }

    /** The items read from p on, after those before, are all of them, or reading them fails. */
    ghost predicate ItemsEnd(depth: nat, p: nat, before: seq<Json>, ok: bool, arr: seq<Json>)
      reads this
    {
      p <= |s| && Items(s, p, depth, max, before) == if ok then Ok(Array(arr), pos) else Err(error, pos)
    }

    /** One item, and what is after it. */
    method ReadItem(depth: nat, before: seq<Json>) returns (ok: bool, more: bool, arr: seq<Json>)
      requires Valid()
      modifies this
      ensures more ==> ok && Valid() && old(pos) < pos
      ensures more ==> Items(s, old(pos), depth, max, before) == Items(s, pos, depth, max, arr)
      ensures !more ==> ItemsEnd(depth, old(pos), before, ok, arr)
      decreases |s| - pos, 3
    {
      more, arr := false, before;
      SkipWs();
      var v: Json;
      ok, v := ReadValue(depth);
      if !ok { return; }
      arr := arr + [v];
      ok, more := PassSeparator(CLOSE_BRACKET, UnterminatedArray, ExpectedCommaOrBracket);
    }

    method SkipDigits()
      requires Valid()
      modifies this`pos
      ensures Valid() && pos == DigitsEnd(s, old(pos))
    {
      while pos < |s| && IsDigit(s[pos])
        invariant Valid() && DigitsEnd(s, pos) == DigitsEnd(s, old(pos))
      {
        pos := pos + 1;
      }
    }

    method ReadFraction() returns (ok: bool)
      requires Valid()
      modifies this
      ensures var r := Fraction(s, old(pos)); ok == r.Ok? && Stands(r) && (ok ==> Valid())
    {
      ok := true;
      if pos < |s| && s[pos] == PERIOD {
        pos := pos + 1;
        if pos == |s| || !IsDigit(s[pos]) {
          ok := Fail(ExpectedFraction);
          return;
        }
        SkipDigits();
      }
    }

    method ReadExponent() returns (ok: bool)
      requires Valid()
      modifies this
      ensures var r := Exponent(s, old(pos)); ok == r.Ok? && Stands(r) && (ok ==> Valid())
    {
      ok := true;
      if pos < |s| && (s[pos] == 101 || s[pos] == 69) {
        pos := pos + 1;
        if pos < |s| && (s[pos] == 43 || s[pos] == MINUS) { pos := pos + 1; }
        if pos == |s| || !IsDigit(s[pos]) {
          ok := Fail(ExpectedExponent);
          return;
        }
        SkipDigits();
      }
    }

    method ReadNumber() returns (ok: bool, out: Json)
      requires Valid()
      modifies this
      ensures var r := ParseNumber(s, old(pos)); ok == r.Ok? && Stands(r) && (ok ==> Valid() && out == r.value)
    {
      var start := pos;
      out := Null;
      ok := PassNumber();
      if ok { out := Number(s[start..pos]); }
    }

    method PassNumber() returns (ok: bool)
      requires Valid()
      modifies this
      ensures var r := NumberEnd(s, old(pos)); ok == r.Ok? && Stands(r) && (ok ==> Valid() && old(pos) < pos)
    {
      if pos < |s| && s[pos] == MINUS { pos := pos + 1; }
      if pos == |s| || !IsDigit(s[pos]) {
        ok := Fail(UnexpectedCharacter);
        return;
      }
      if s[pos] == 48 { pos := pos + 1; } else { SkipDigits(); }
      ok := ReadFraction();
      if !ok { return; }
      ok := ReadExponent();
    }

    method ReadHex4() returns (ok: bool, cp: nat)
      requires Valid()
      modifies this
      ensures var r := Hex4(s, old(pos)); ok == r.Ok? && Stands(r) && (ok ==> Valid() && cp == r.value)
    {
      cp := 0;
      if |s| - pos < 4 {
        ok := Fail(TruncatedEscape);
        return;
      }
      var i := 0;
      while i < 4
        invariant i <= 4 && pos == old(pos) + i && pos + 4 - i <= |s|
        invariant HasDigits(cp, i)
        invariant HexFrom(s, old(pos), i, cp) == HexFrom(s, old(pos), 0, 0)
      {
        NextDigit(s, old(pos), i, cp);
        var c := s[pos];
        pos := pos + 1;
        match HexValue(c) {
          case None =>
            ok := Fail(InvalidHex);
            return;
          case Some(d) =>
            cp := cp * 16 + d;
        }
        i := i + 1;
      }
      ok := true;
    }

    /** Copies one character to the text. */
    method ReadUtf8Char(out: Text) returns (ok: bool, out': Text)
      requires Valid() && pos < |s|
      modifies this
      ensures var n := DecodedLength(s, old(pos));
        && ok == (n > 0) && (!ok ==> pos == old(pos) && error == InvalidUtf8)
        && (ok ==> pos == old(pos) + n <= |s| && out' == out + s[old(pos)..pos])
    {
      out' := out;
      var (len, first) := Announced(s[pos]);
      if len == 0 || |s| - pos < len {
        ok := Fail(InvalidUtf8);
        return;
      }
      var i, cp: nat := 1, first;
      while i < len
        invariant 1 <= i <= len && pos == old(pos)
        invariant Decoded(s, pos, i, len, cp) == Decoded(s, pos, 1, len, first)
      {
        if s[pos + i] / 64 != 2 {
          ok := Fail(InvalidUtf8);
          return;
        }
        cp := cp * 64 + s[pos + i] % 64;
        i := i + 1;
      }
      if cp < MinCodePoint(len) || !IsScalar(cp) {
        ok := Fail(InvalidUtf8);
        return;
      }
      out' := out + s[pos..pos + len];
      pos := pos + len;
      ok := true;
    }

    /** What follows the first four digits of a \u escape. */
    method ReadSurrogate(high: nat, out: Text) returns (ok: bool, out': Text)
      requires Valid() && high < 65536
      modifies this
      ensures var r := Surrogate(s, old(pos), high);
        ok == r.Ok? && Stands(r) && (ok ==> Valid() && out' == out + r.value)
    {
      var cp := high;
      out' := out;
      if 0xD800 <= cp <= 0xDBFF {
        if |s| - pos < 2 || s[pos] != BACKSLASH || s[pos + 1] != LOWER_U {
          ok := Fail(UnpairedSurrogate);
          return;
        }
        pos := pos + 2;
        var lo;
        ok, lo := ReadHex4();
        if !ok { return; }
        if lo < 0xDC00 || lo > 0xDFFF {
          ok := Fail(UnpairedSurrogate);
          return;
        }
        cp := 0x10000 + (cp - 0xD800) * 1024 + (lo - 0xDC00);
      } else if 0xDC00 <= cp <= 0xDFFF {
        ok := Fail(UnpairedSurrogate);
        return;
      }
      out', ok := out + Encode(cp), true;
    }

    /** What follows a backslash. */
    method ReadEscape(out: Text) returns (ok: bool, out': Text)
      requires Valid()
      modifies this
      ensures var r := Escape(s, old(pos)); ok == r.Ok? && Stands(r) && (ok ==> Valid() && out' == out + r.value)
    {
      out' := out;
      if pos == |s| {
        ok := Fail(UnterminatedString);
        return;
      }
      var e := s[pos];
      pos := pos + 1;
      if e == LOWER_U {
        var cp;
        ok, cp := ReadHex4();
        if ok { ok, out' := ReadSurrogate(cp, out); }
      } else {
        match ShortEscape(e) {
          case None =>
            ok := Fail(InvalidEscape);
          case Some(b) =>
            ok, out' := true, out + [b];
        }
      }
    }

    method ReadString() returns (ok: bool, out: Text)
      requires Valid() && pos < |s|
      modifies this
      ensures var r := ParseString(s, old(pos)); ok == r.Ok? && Stands(r) && (ok ==> Valid() && out == r.value)
    {
      pos := pos + 1;
      out := [];
      while true
        invariant Valid() && old(pos) < pos && StringFrom(s, pos, out) == ParseString(s, old(pos))
        decreases |s| - pos
      {
        if pos == |s| {
          ok := Fail(UnterminatedString);
          return;
        }
        if s[pos] == QUOTE {
          pos := pos + 1;
          return true, out;
        }
        if s[pos] < 0x20 {
          ok := Fail(ControlCharacter);
          return;
        }
        ok, out := ReadPiece(out);
        if !ok { return; }
      }
    }

    /** One character of a string, or one escape. */
    method ReadPiece(out: Text) returns (ok: bool, out': Text)
      requires Valid() && pos < |s| && s[pos] != QUOTE && s[pos] >= 0x20
      modifies this
      ensures ok ==> Valid() && old(pos) < pos && StringFrom(s, old(pos), out) == StringFrom(s, pos, out')
      ensures !ok ==> StringFrom(s, old(pos), out) == Err(error, pos)
    {
      if s[pos] != BACKSLASH {
        ok, out' := ReadUtf8Char(out);
      } else {
        pos := pos + 1;
        ok, out' := ReadEscape(out);
      }
    }
  }

  // ---- Members and printing

  /** The first i members are of other names: set leaves them, and goes on with the rest. */
  ghost predicate SetPasses(members: seq<Member>, name: Text, v: Json, i: nat) {
    i <= |members| && Set(members, name, v) == members[..i] + Set(members[i..], name, v)
  }

  lemma SetGoesOn(members: seq<Member>, name: Text, v: Json, i: nat)
    requires SetPasses(members, name, v, i) && i < |members|
    ensures if members[i].name == name then Set(members, name, v) == members[i := Member(name, v)]
            else SetPasses(members, name, v, i + 1)
  {
    var rest := members[i..];
    SliceStep(members, i);
    if members[i].name == name {
      assert members[i := Member(name, v)] == members[..i] + ([Member(name, v)] + members[i + 1..]);
    } else {
      Regroup(members[..i], [members[i]], Set(members[i + 1..], name, v));
    }
  }

  lemma SliceStep(members: seq<Member>, i: nat)
    requires i < |members|
    ensures members[i..][0] == members[i] && members[i..][1..] == members[i + 1..]
    ensures members[..i + 1] == members[..i] + [members[i]]
  {
  }

  lemma SetStart(members: seq<Member>, name: Text, v: Json)
    ensures SetPasses(members, name, v, 0)
    ensures SetPasses(members, name, v, |members|) ==> Set(members, name, v) == members + [Member(name, v)]
  {
    assert members[..0] == [] && members[0..] == members;
    assert members[..|members|] == members && members[|members|..] == [];
  }

  /** Json::set on an object's members: the first of the name is replaced, else one is added. */
  method SetMember(members: seq<Member>, name: Text, v: Json) returns (r: seq<Member>)
    ensures r == Set(members, name, v)
  {
    SetStart(members, name, v);
    for i := 0 to |members|
      invariant SetPasses(members, name, v, i)
    {
      SetGoesOn(members, name, v, i);
      if members[i].name == name { return members[i := Member(name, v)]; }
    }
    r := members + [Member(name, v)];
  }

  /** Json::find: the last member of the name. */
  method FindMember(members: seq<Member>, name: Text) returns (r: Option<Json>)
    ensures r == Find(members, name)
  {
    var i := |members|;
    assert members[..i] == members;
    while i > 0
      invariant 0 <= i <= |members| && Find(members, name) == Find(members[..i], name)
    {
      i := i - 1;
      if members[i].name == name { return Some(members[i].value); }
      assert members[..i + 1][..i] == members[..i];
    }
    r := None;
  }

  /** append_json_string: writes a string to the end of the text. */
  method AppendString(out: Text, t: Text) returns (r: Text)
    ensures r == out + Quote(t)
  {
    r := out + [QUOTE];
    for i := 0 to |t|
      invariant r + EscapeFrom(t, i) == out + [QUOTE] + EscapeFrom(t, 0)
    {
      r := r + EscapeByte(t[i]);
    }
    assert r == out + [QUOTE] + EscapeFrom(t, 0);
    r := r + [QUOTE];
    assert r == out + ([QUOTE] + EscapeFrom(t, 0) + [QUOTE]);
  }

  /** Json::dump: writes a value to the end of the text. */
  method Print(out: Text, j: Json) returns (r: Text)
    ensures r == out + Dump(j)
    decreases j, 1
  {
    match j
    case Null => r := out + NULL;
    case Bool(b) => r := out + if b then TRUE else FALSE;
    case Number(t) => r := out + t;
    case String(t) => r := AppendString(out, t);
    case Array(items) =>
      r := PrintItems(out + [OPEN_BRACKET], items);
      r := r + [CLOSE_BRACKET];
    case Object(members) =>
      r := PrintMembers(out + [OPEN_BRACE], members);
      r := r + [CLOSE_BRACE];
  }

  method PrintItems(out: Text, items: seq<Json>) returns (r: Text)
    ensures r == out + DumpItems(items)
    decreases items, 0
  {
    r := out;
    for i := 0 to |items|
      invariant i == 0 || i == |items| || r + [COMMA] + DumpItems(items[i..]) == out + DumpItems(items)
      invariant i == 0 ==> r == out
      invariant 0 < i == |items| ==> r == out + DumpItems(items)
    {
      if i > 0 { r := r + [COMMA]; }
      assert items[0..] == items && items[i..][1..] == items[i + 1..];
      r := Print(r, items[i]);
    }
  }

  method PrintMembers(out: Text, members: seq<Member>) returns (r: Text)
    ensures r == out + DumpMembers(members)
    decreases members, 0
  {
    r := out;
    for i := 0 to |members|
      invariant i == 0 || i == |members| || r + [COMMA] + DumpMembers(members[i..]) == out + DumpMembers(members)
      invariant i == 0 ==> r == out
      invariant 0 < i == |members| ==> r == out + DumpMembers(members)
    {
      if i > 0 { r := r + [COMMA]; }
      assert members[0..] == members && members[i..][1..] == members[i + 1..];
      r := PrintMember(r, members[i]);
    }
  }

  method PrintMember(out: Text, m: Member) returns (r: Text)
    ensures r == out + DumpMember(m)
    decreases m, 2
  {
    r := AppendString(out, m.name);
    r := r + [COLON];
    r := Print(r, m.value);
  }

  method Parse(text: Text, max_depth: nat) returns (r: Result<Json>)
    ensures r == ParseJson(text, max_depth)
  {
    var parser := new Parser(text, max_depth);
    parser.SkipWs();
    var ok, v := parser.ReadValue(0);
    if !ok { return Err(parser.error, parser.pos); }
    parser.SkipWs();
    r := if parser.pos != |text| then Err(DataAfterValue, parser.pos) else Ok(v, parser.pos);
  }
}
