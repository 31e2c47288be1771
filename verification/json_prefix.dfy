/** The JSON reader of the previews (scan_preview.cpp): what it finds in a file, or in the first bytes of one. */
module JsonPrefix {
  import opened Bytes
  import opened Utf8
  import opened Json
  import JsonParse

  datatype Kind =
    | UnexpectedEnd | TooDeep | UnexpectedCharacter | LeadingZero | MalformedNumber | MalformedUnicode
    | ControlCharacter | MalformedEscape | NotUtf8 | ExpectedName | ExpectedColon | ExpectedCommaOrBrace
    | ExpectedCommaOrBracket

  /** The value is read up to pos; or the bytes end in it and the file goes on; or it is wrong. */
  datatype Read = Done(pos: nat) | Cut | Fault(kind: Kind, at: nat)

  /** What stays of one reading in the next one, which starts where it ended. */
  predicate Ends(r: Read, p: nat, s: Text) { r.Done? ==> p <= r.pos <= |s| }

  /** cut(): the bytes end at p. */
  function Ending(truncated: bool, p: nat): Read {
    if truncated then Cut else Fault(UnexpectedEnd, p)
  }

  /** The first differing byte of a word, if there is one within the text. */
  predicate Differs(s: Text, p: nat, word: Text)
    requires p <= |s|
  {
    exists i :: 0 <= i < |word| && p + i < |s| && s[p + i] != word[i]
  }

  function Literal(s: Text, truncated: bool, p: nat, word: Text): (r: Read)
    requires p <= |s|
    ensures Ends(r, p, s)
  {
    if Differs(s, p, word) then Fault(UnexpectedCharacter, p)
    else if |s| - p < |word| then Ending(truncated, p)
    else Done(p + |word|)
  }

  // ---- Numbers

  /** The digits a fraction or an exponent needs. */
  function Digits(s: Text, truncated: bool, p: nat): (r: Read)
    requires p <= |s|
    ensures Ends(r, p, s)
  {
    if p == |s| then Ending(truncated, p)
    else if !IsDigit(s[p]) then Fault(MalformedNumber, p)
    else Done(JsonParse.DigitsEnd(s, p))
  }

  function Fraction(s: Text, truncated: bool, p: nat): (r: Read)
    requires p <= |s|
    ensures Ends(r, p, s)
  {
    if p < |s| && s[p] == PERIOD then Digits(s, truncated, p + 1) else Done(p)
  }

  function Exponent(s: Text, truncated: bool, p: nat): (r: Read)
    requires p <= |s|
    ensures Ends(r, p, s)
  {
    if p == |s| || (s[p] != 101 && s[p] != 69) then Done(p)
    else if p + 1 < |s| && (s[p + 1] == 43 || s[p + 1] == MINUS) then Digits(s, truncated, p + 2)
    else Digits(s, truncated, p + 1)
  }

  function Whole(s: Text, truncated: bool, p: nat): (r: Read)
    requires p < |s|
    ensures Ends(r, p + 1, s)
  {
    var a := if s[p] == MINUS then p + 1 else p;
    if a == |s| then Ending(truncated, a)
    else
      var b := JsonParse.DigitsEnd(s, a);
      if b == a then Fault(UnexpectedCharacter, p)
      else if s[a] == 48 && b - a > 1 then Fault(LeadingZero, p)
      else Done(b)
  }

  function FractionAndExponent(s: Text, truncated: bool, p: nat): (r: Read)
    requires p <= |s|
    ensures Ends(r, p, s)
  {
    var f := Fraction(s, truncated, p);
    if !f.Done? then f
    else
      var e := Exponent(s, truncated, f.pos);
      if e == Done(|s|) && truncated then Cut else e
  }

  function ReadNumber(s: Text, truncated: bool, p: nat): (r: Read)
    requires p < |s|
    ensures Ends(r, p + 1, s)
  {
    var w := Whole(s, truncated, p);
    if !w.Done? then w else FractionAndExponent(s, truncated, w.pos)
  }

  // ---- Strings

  predicate IsHex(b: Byte) { JsonParse.HexValue(b).Some? }

  function HexFrom(s: Text, p: nat, i: nat): (r: Read)
    requires p + 4 <= |s| && i <= 4
    ensures Ends(r, p + 4, s)
    decreases 4 - i
  {
    if i == 4 then Done(p + 4)
    else if IsHex(s[p + i]) then HexFrom(s, p, i + 1)
    else Fault(MalformedUnicode, p + i)
  }

  function Hex4(s: Text, truncated: bool, p: nat): (r: Read)
    requires p <= |s|
    ensures Ends(r, p, s)
  {
    if |s| - p >= 4 then HexFrom(s, p, 0)
    else if exists i :: p <= i < |s| && !IsHex(s[i]) then Fault(MalformedUnicode, p)
    else Ending(truncated, p)
  }

  /** What follows a backslash. */
  function Escape(s: Text, truncated: bool, p: nat): (r: Read)
    requires p <= |s|
    ensures Ends(r, p, s)
  {
    if p == |s| then Ending(truncated, p)
    else if s[p] == LOWER_U then Hex4(s, truncated, p + 1)
    else if JsonParse.ShortEscape(s[p]).Some? then Done(p + 1)
    else Fault(MalformedEscape, p)
  }

  /** One character of a string. */
  function Character(s: Text, truncated: bool, p: nat): (r: Read)
    requires p < |s|
    ensures Ends(r, p + 1, s)
  {
    var n := SequenceLength(s, p, |s|);
    if n > 0 then Done(p + n)
    else if |s| - p < 4 && truncated then Cut
    else Fault(NotUtf8, p)
  }

  function Piece(s: Text, truncated: bool, p: nat): (r: Read)
    requires p < |s|
    ensures Ends(r, p + 1, s)
  {
    if s[p] < 0x20 then Fault(ControlCharacter, p)
    else if s[p] == BACKSLASH then Escape(s, truncated, p + 1)
    else Character(s, truncated, p)
  }

  function StringFrom(s: Text, truncated: bool, p: nat): (r: Read)
    requires p <= |s|
    ensures Ends(r, p, s)
    decreases |s| - p
  {
    if p == |s| then Ending(truncated, p)
    else if s[p] == QUOTE then Done(p + 1)
    else
      var r := Piece(s, truncated, p);
      if r.Done? then StringFrom(s, truncated, r.pos) else r
  }

  // ---- Values

  const MAX_DEPTH := 64

  function Value(s: Text, truncated: bool, p: nat, depth: nat): (r: Read)
    requires p <= |s|
    ensures Ends(r, p + 1, s)
    decreases |s| - p, 3
  {
    var q := JsonParse.SkipSpace(s, p);
    if q == |s| then Ending(truncated, q)
    else if depth > MAX_DEPTH then Fault(TooDeep, q)
    else if s[q] == OPEN_BRACE then ReadObject(s, truncated, q, depth)
    else if s[q] == OPEN_BRACKET then ReadArray(s, truncated, q, depth)
    else Scalar(s, truncated, q)
  }

  function Scalar(s: Text, truncated: bool, q: nat): (r: Read)
    requires q < |s|
    ensures Ends(r, q + 1, s)
  {
    if s[q] == QUOTE then StringFrom(s, truncated, q + 1)
    else if s[q] == TRUE[0] then Literal(s, truncated, q, TRUE)
    else if s[q] == FALSE[0] then Literal(s, truncated, q, FALSE)
    else if s[q] == NULL[0] then Literal(s, truncated, q, NULL)
    else ReadNumber(s, truncated, q)
  }

  /** A byte that must follow, after space. */
  function Expect(s: Text, truncated: bool, p: nat, b: Byte, kind: Kind): (r: Read)
    requires p <= |s|
    ensures Ends(r, p + 1, s)
  {
    var q := JsonParse.SkipSpace(s, p);
    if q == |s| then Ending(truncated, q) else if s[q] != b then Fault(kind, q) else Done(q + 1)
  }

  /** A name and its colon. */
  function Name(s: Text, truncated: bool, p: nat): (r: Read)
    requires p <= |s|
    ensures Ends(r, p + 1, s)
  {
    var q := Expect(s, truncated, p, QUOTE, ExpectedName);
    if !q.Done? then q
    else
      var u := StringFrom(s, truncated, q.pos);
      if !u.Done? then u else Expect(s, truncated, u.pos, COLON, ExpectedColon)
  }

  /** What comes after a member or an item: a comma, the closing byte, or neither. */
  datatype After = Comma(pos: nat) | Last(pos: nat) | Stop(r: Read)

  function Separator(s: Text, truncated: bool, p: nat, close: Byte, kind: Kind): (a: After)
    requires p <= |s|
    ensures if a.Stop? then !a.r.Done? else p < a.pos <= |s|
  {
    var w := JsonParse.SkipSpace(s, p);
    if w == |s| then Stop(Ending(truncated, w))
    else if s[w] == COMMA then Comma(w + 1)
    else if s[w] == close then Last(w + 1)
    else Stop(Fault(kind, w))
  }

  function ReadObject(s: Text, truncated: bool, p: nat, depth: nat): (r: Read)
    requires p < |s|
    ensures Ends(r, p + 1, s)
    decreases |s| - p, 2
  {
    var q := JsonParse.SkipSpace(s, p + 1);
    if q == |s| then Ending(truncated, q)
    else if s[q] == CLOSE_BRACE then Done(q + 1)
    else Members(s, truncated, q, depth)
  }

  function Members(s: Text, truncated: bool, p: nat, depth: nat): (r: Read)
    requires p <= |s|
    ensures Ends(r, p + 1, s)
    decreases |s| - p, 4
  {
    var n := Name(s, truncated, p);
    if !n.Done? then n
    else
      var v := Value(s, truncated, n.pos, depth + 1);
      if !v.Done? then v
      else
        match Separator(s, truncated, v.pos, CLOSE_BRACE, ExpectedCommaOrBrace)
        case Comma(w) => Members(s, truncated, w, depth)
        case Last(w) => Done(w)
        case Stop(r) => r
  }

  function ReadArray(s: Text, truncated: bool, p: nat, depth: nat): (r: Read)
    requires p < |s|
    ensures Ends(r, p + 1, s)
    decreases |s| - p, 2
  {
    var q := JsonParse.SkipSpace(s, p + 1);
    if q == |s| then Ending(truncated, q)
    else if s[q] == CLOSE_BRACKET then Done(q + 1)
    else Items(s, truncated, q, depth)
  }

  function Items(s: Text, truncated: bool, p: nat, depth: nat): (r: Read)
    requires p <= |s|
    ensures Ends(r, p + 1, s)
    decreases |s| - p, 4
  {
    var v := Value(s, truncated, p, depth + 1);
    if !v.Done? then v
    else
      match Separator(s, truncated, v.pos, CLOSE_BRACKET, ExpectedCommaOrBracket)
      case Comma(w) => Items(s, truncated, w, depth)
      case Last(w) => Done(w)
      case Stop(r) => r
  }

  // ---- The file

  datatype Problem = NoValue | Wrong(kind: Kind, at: nat)

  /** How many whole values there are, whether the bytes end inside the next one, and what is wrong. */
  datatype Outcome = Outcome(values: nat, cut: bool, problem: Option<Problem>)

  const BOM: Text := [0xEF, 0xBB, 0xBF]

  function AfterBom(s: Text): (p: nat)
    ensures p <= |s|
  {
    if At(s, 0, BOM) then 3 else 0
  }

  function Values(s: Text, truncated: bool, p: nat, values: nat): (o: Outcome)
    requires p <= |s|
    ensures o.values >= values
    decreases |s| - p
  {
    var q := JsonParse.SkipSpace(s, p);
    if q == |s| then Outcome(values, false, None)
    else match Value(s, truncated, q, 0)
      case Done(u) => Values(s, truncated, u, values + 1)
      case Cut => Outcome(values, true, None)
      case Fault(kind, at) => Outcome(values, false, Some(Wrong(kind, at)))
  }

  function Run(s: Text, truncated: bool): Outcome {
    var o := Values(s, truncated, AfterBom(s), 0);
    if o.values == 0 && !o.cut && o.problem.None? then o.(problem := Some(NoValue)) else o
  }

  /** Where the first value starts, if there is one. */
  function FirstByte(s: Text): (p: nat)
    ensures p <= |s|
  {
    JsonParse.SkipSpace(s, AfterBom(s))
  }
}
