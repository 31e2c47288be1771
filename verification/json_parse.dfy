/** The strict parser of json.cpp: what each of its functions finds at a position. */
module JsonParse {
  import opened Bytes
  import opened Utf8
  import opened Json

  datatype ParseError =
    | EndOfInput | InvalidLiteral | TooDeep | ExpectedName | ExpectedColon | UnterminatedObject | ExpectedCommaOrBrace
    | UnterminatedArray | ExpectedCommaOrBracket | UnexpectedCharacter | ExpectedFraction | ExpectedExponent
    | TruncatedEscape | InvalidHex | InvalidUtf8 | UnterminatedString | ControlCharacter | UnpairedSurrogate
    | InvalidEscape | DataAfterValue

  /** A value and the position after it, or what is wrong and where the parser stands then. */
  datatype Result<+T> = Ok(value: T, pos: nat) | Err(error: ParseError, at: nat)

  predicate IsSpace(b: Byte) { b == 32 || b == 9 || b == 10 || b == 13 }

  function SkipSpace(s: Text, p: nat): (q: nat)
    requires p <= |s|
    ensures p <= q <= |s| && (q < |s| ==> !IsSpace(s[q]))
    decreases |s| - p
  {
    if p < |s| && IsSpace(s[p]) then SkipSpace(s, p + 1) else p
  }

  function Literal(s: Text, p: nat, word: Text, j: Json): (r: Result<Json>)
    ensures r.Ok? ==> r.pos == p + |word| <= |s|
  {
    if At(s, p, word) then Ok(j, p + |word|) else Err(InvalidLiteral, p)
  }

  // ---- Numbers

  function DigitsEnd(s: Text, p: nat): (q: nat)
    requires p <= |s|
    ensures p <= q <= |s| && (q < |s| ==> !IsDigit(s[q]))
    decreases |s| - p
  {
    if p < |s| && IsDigit(s[p]) then DigitsEnd(s, p + 1) else p
  }

  lemma {:induction false} DigitsAreDigits(s: Text, p: nat)
    requires p <= |s|
    ensures AllDigits(s[p..DigitsEnd(s, p)])
    decreases |s| - p
  {
    if p < |s| && IsDigit(s[p]) {
      DigitsAreDigits(s, p + 1);
      assert s[p..DigitsEnd(s, p)] == [s[p]] + s[p + 1..DigitsEnd(s, p)];
    }
  }

  function Fraction(s: Text, p: nat): (r: Result<()>)
    requires p <= |s|
    ensures r.Ok? ==> p <= r.pos <= |s|
  {
    if p == |s| || s[p] != PERIOD then Ok((), p)
    else if p + 1 == |s| || !IsDigit(s[p + 1]) then Err(ExpectedFraction, p + 1)
    else Ok((), DigitsEnd(s, p + 1))
  }

  function Exponent(s: Text, p: nat): (r: Result<()>)
    requires p <= |s|
    ensures r.Ok? ==> p <= r.pos <= |s|
  {
    if p == |s| || (s[p] != 101 && s[p] != 69) then Ok((), p)
    else
      var q := if p + 1 < |s| && (s[p + 1] == 43 || s[p + 1] == MINUS) then p + 2 else p + 1;
      if q == |s| || !IsDigit(s[q]) then Err(ExpectedExponent, q)
      else Ok((), DigitsEnd(s, q))
  }

  lemma FractionIsGrammatical(s: Text, p: nat)
    requires p <= |s| && Fraction(s, p).Ok?
    ensures IsFraction(s[p..Fraction(s, p).pos])
  {
    var e := Fraction(s, p).pos;
    if e > p {
      DigitsAreDigits(s, p + 1);
      assert s[p..e][1..] == s[p + 1..e];
    }
  }

  lemma ExponentIsGrammatical(s: Text, p: nat)
    requires p <= |s| && Exponent(s, p).Ok?
    ensures IsExponent(s[p..Exponent(s, p).pos])
  {
    var e := Exponent(s, p).pos;
    if e > p {
      var q := if p + 1 < |s| && (s[p + 1] == 43 || s[p + 1] == MINUS) then p + 2 else p + 1;
      DigitsAreDigits(s, q);
      assert s[p..e][q - p..] == s[q..e];
    }
  }

  lemma NumberInParts(s: Text, p: nat, a: nat, b: nat, c: nat, d: nat)
    requires p <= a < b <= c <= d <= |s|
    requires IsSign(s[p..a]) && IsIntPart(s[a..b]) && IsFraction(s[b..c]) && IsExponent(s[c..d])
    ensures IsNumber(s[p..d])
  {
    Join(s, p, a, b);
    Join(s, p, b, c);
    Join(s, p, c, d);
  }

  lemma Join(s: Text, i: nat, j: nat, k: nat)
    requires i <= j <= k <= |s|
    ensures s[i..k] == s[i..j] + s[j..k]
  {
  }

  /** Where the number at p ends. */
  function NumberEnd(s: Text, p: nat): (r: Result<()>)
    requires p <= |s|
    ensures r.Ok? ==> p < r.pos <= |s|
  {
    var a := if p < |s| && s[p] == MINUS then p + 1 else p;
    if a == |s| || !IsDigit(s[a]) then Err(UnexpectedCharacter, a)
    else
      match Fraction(s, if s[a] == 48 then a + 1 else DigitsEnd(s, a))
      case Err(e, at) => Err(e, at)
      case Ok(_, c) => Exponent(s, c)
  }

  lemma NumberIsGrammatical(s: Text, p: nat)
    requires p <= |s| && NumberEnd(s, p).Ok?
    ensures IsNumber(s[p..NumberEnd(s, p).pos])
  {
    var a := if p < |s| && s[p] == MINUS then p + 1 else p;
    var b := if s[a] == 48 then a + 1 else DigitsEnd(s, a);
    DigitsAreDigits(s, a);
    FractionIsGrammatical(s, b);
    ExponentIsGrammatical(s, Fraction(s, b).pos);
    NumberInParts(s, p, a, b, Fraction(s, b).pos, NumberEnd(s, p).pos);
  }

  function ParseNumber(s: Text, p: nat): (r: Result<Json>)
    requires p <= |s|
    ensures r.Ok? ==> p < r.pos <= |s|
  {
    match NumberEnd(s, p)
    case Err(e, at) => Err(e, at)
    case Ok(_, q) => Ok(Number(s[p..q]), q)
  }

  // ---- Strings

  function HexValue(b: Byte): Option<nat> {
    if 48 <= b <= 57 then Some(b - 48)
    else if 97 <= b <= 102 then Some(b - 87)
    else if 65 <= b <= 70 then Some(b - 55)
    else None
  }

  /** v is the value of i hex digits. */
  predicate HasDigits(v: nat, i: nat) {
    v < (if i == 0 then 1 else if i == 1 then 16 else if i == 2 then 256 else if i == 3 then 4096 else 65536)
  }

  function HexFrom(s: Text, p: nat, i: nat, v: nat): (r: Result<nat>)
    requires p + 4 <= |s| && i <= 4
    requires HasDigits(v, i)
    ensures r.Ok? ==> r.pos == p + 4 && r.value < 65536
    decreases 4 - i
  {
    if i == 4 then Ok(v, p + 4)
    else match HexValue(s[p + i])
      case None => Err(InvalidHex, p + i + 1)
      case Some(d) => HexFrom(s, p, i + 1, v * 16 + d)
  }

  /** A round of reading them. */
  lemma NextDigit(s: Text, p: nat, i: nat, v: nat)
    requires p + 4 <= |s| && i < 4 && HasDigits(v, i)
    ensures var d := HexValue(s[p + i]);
      if d.None? then HexFrom(s, p, i, v) == Err(InvalidHex, p + i + 1)
      else HasDigits(v * 16 + d.value, i + 1) && HexFrom(s, p, i, v) == HexFrom(s, p, i + 1, v * 16 + d.value)
  {
  }

  function Hex4(s: Text, p: nat): (r: Result<nat>)
    requires p <= |s|
    ensures r.Ok? ==> r.pos == p + 4 <= |s| && r.value < 65536
  {
    if |s| - p < 4 then Err(TruncatedEscape, p) else HexFrom(s, p, 0, 0)
  }

  /** The part of a \u escape after its first four digits. */
  function Surrogate(s: Text, q: nat, cp: nat): (r: Result<Text>)
    requires q <= |s| && cp < 65536
    ensures r.Ok? ==> q <= r.pos <= |s|
  {
    if 0xD800 <= cp <= 0xDBFF then
      if |s| - q < 2 || s[q] != BACKSLASH || s[q + 1] != LOWER_U then Err(UnpairedSurrogate, q)
      else match Hex4(s, q + 2)
        case Err(e, at) => Err(e, at)
        case Ok(lo, u) =>
          if lo < 0xDC00 || lo > 0xDFFF then Err(UnpairedSurrogate, u)
          else Ok(Encode(0x10000 + (cp - 0xD800) * 1024 + (lo - 0xDC00)), u)
    else if 0xDC00 <= cp <= 0xDFFF then Err(UnpairedSurrogate, q)
    else Ok(Encode(cp), q)
  }

  lemma SurrogateIsWellFormed(s: Text, q: nat, cp: nat)
    requires q <= |s| && cp < 65536 && Surrogate(s, q, cp).Ok?
    ensures WellFormed(Surrogate(s, q, cp).value)
  {
    if 0xD800 <= cp <= 0xDBFF {
      EncodeIsWellFormed(0x10000 + (cp - 0xD800) * 1024 + (Hex4(s, q + 2).value - 0xDC00));
    } else {
      EncodeIsWellFormed(cp);
    }
  }

  function ShortEscape(e: Byte): Option<Byte> {
    if e == QUOTE || e == BACKSLASH || e == 47 then Some(e)
    else if e == 98 then Some(8)
    else if e == 102 then Some(12)
    else if e == 110 then Some(10)
    else if e == 114 then Some(13)
    else if e == 116 then Some(9)
    else None
  }

  /** What follows a backslash: the text it stands for. */
  function Escape(s: Text, p: nat): (r: Result<Text>)
    requires p <= |s|
    ensures r.Ok? ==> p < r.pos <= |s|
  {
    if p == |s| then Err(UnterminatedString, p)
    else if s[p] == LOWER_U then
      match Hex4(s, p + 1)
      case Err(e, at) => Err(e, at)
      case Ok(cp, q) => Surrogate(s, q, cp)
    else match ShortEscape(s[p])
      case None => Err(InvalidEscape, p + 1)
      case Some(b) => Ok([b], p + 1)
  }

  lemma EscapeIsWellFormed(s: Text, p: nat)
    requires p <= |s| && Escape(s, p).Ok?
    ensures WellFormed(Escape(s, p).value)
  {
    if s[p] == LOWER_U {
      SurrogateIsWellFormed(s, Hex4(s, p + 1).pos, Hex4(s, p + 1).value);
    } else {
      assert SequenceLength(Escape(s, p).value, 0, 1) == 1;
    }
  }

  /** One character of a string, as it is or escaped, that is not its closing quote. */
  function Piece(s: Text, p: nat): (r: Result<Text>)
    requires p < |s|
    ensures r.Ok? ==> p < r.pos <= |s|
  {
    if s[p] < 0x20 then Err(ControlCharacter, p)
    else if s[p] == BACKSLASH then Escape(s, p + 1)
    else
      var n := DecodedLength(s, p);
      if n == 0 then Err(InvalidUtf8, p) else Ok(s[p..p + n], p + n)
  }

  lemma PieceIsWellFormed(s: Text, p: nat)
    requires p < |s| && Piece(s, p).Ok?
    ensures WellFormed(Piece(s, p).value)
  {
    if s[p] == BACKSLASH {
      EscapeIsWellFormed(s, p + 1);
    } else {
      ValidatorsAgree(s, p);
      SequenceAlone(s, p);
    }
  }

  /** The rest of a string, after what has been read of it. */
  function StringFrom(s: Text, p: nat, acc: Text): (r: Result<Text>)
    requires p <= |s|
    ensures r.Ok? ==> p < r.pos <= |s|
    decreases |s| - p
  {
    if p == |s| then Err(UnterminatedString, p)
    else if s[p] == QUOTE then Ok(acc, p + 1)
    else match Piece(s, p)
      case Err(e, at) => Err(e, at)
      case Ok(t, q) => StringFrom(s, q, acc + t)
  }

  lemma {:induction false} StringIsWellFormed(s: Text, p: nat, acc: Text)
    requires p <= |s| && WellFormed(acc) && StringFrom(s, p, acc).Ok?
    ensures WellFormed(StringFrom(s, p, acc).value)
    decreases |s| - p
  {
    if s[p] != QUOTE {
      var piece := Piece(s, p);
      PieceIsWellFormed(s, p);
      WellFormedConcat(acc, piece.value);
      StringIsWellFormed(s, piece.pos, acc + piece.value);
    }
  }

  lemma SequenceAlone(s: Text, p: nat)
    requires p < |s| && SequenceLength(s, p, |s|) > 0
    ensures WellFormed(s[p..p + SequenceLength(s, p, |s|)])
  {
    var n := SequenceLength(s, p, |s|);
    SequenceIsLocal(s, p, |s|, s[p..p + n], 0, n);
  }

  function ParseString(s: Text, p: nat): (r: Result<Text>)
    requires p < |s|
    ensures r.Ok? ==> p + 1 < r.pos <= |s|
  {
    StringFrom(s, p + 1, [])
  }

  // ---- Values

  function Value(s: Text, p: nat, depth: nat, max: nat): (r: Result<Json>)
    requires p <= |s|
    ensures r.Ok? ==> p < r.pos <= |s|
    decreases |s| - p, 2
  {
    if p == |s| then Err(EndOfInput, p)
    else if s[p] == OPEN_BRACE then ParseObject(s, p, depth + 1, max)
    else if s[p] == OPEN_BRACKET then ParseArray(s, p, depth + 1, max)
    else if s[p] == QUOTE then
      match ParseString(s, p)
      case Err(e, at) => Err(e, at)
      case Ok(t, q) => Ok(String(t), q)
    else if s[p] == TRUE[0] then Literal(s, p, TRUE, Bool(true))
    else if s[p] == FALSE[0] then Literal(s, p, FALSE, Bool(false))
    else if s[p] == NULL[0] then Literal(s, p, NULL, Null)
    else ParseNumber(s, p)
  }

  function ParseObject(s: Text, p: nat, depth: nat, max: nat): (r: Result<Json>)
    requires p < |s|
    ensures r.Ok? ==> p < r.pos <= |s|
    decreases |s| - p, 1
  {
    if depth > max then Err(TooDeep, p)
    else
      var q := SkipSpace(s, p + 1);
      if q < |s| && s[q] == CLOSE_BRACE then Ok(Object([]), q + 1) else Members(s, q, depth, max, [])
  }

  /** A member's name, its colon, and where its value starts. */
  function Name(s: Text, p: nat): (r: Result<Text>)
    requires p <= |s|
    ensures r.Ok? ==> p < r.pos <= |s|
  {
    var q := SkipSpace(s, p);
    if q == |s| || s[q] != QUOTE then Err(ExpectedName, q)
    else match ParseString(s, q)
      case Err(e, at) => Err(e, at)
      case Ok(name, u) =>
        var v := SkipSpace(s, u);
        if v == |s| || s[v] != COLON then Err(ExpectedColon, v) else Ok(name, SkipSpace(s, v + 1))
  }

  /** One member, set among those before it. */
  function OneMember(s: Text, p: nat, depth: nat, max: nat, acc: seq<Member>): (r: Result<seq<Member>>)
    requires p <= |s|
    ensures r.Ok? ==> p < r.pos <= |s|
    decreases |s| - p, 3
  {
    match Name(s, p)
    case Err(e, at) => Err(e, at)
    case Ok(name, q) =>
      match Value(s, q, depth, max)
      case Err(e, at) => Err(e, at)
      case Ok(v, u) => Ok(Set(acc, name, v), u)
  }

  function Members(s: Text, p: nat, depth: nat, max: nat, acc: seq<Member>): (r: Result<Json>)
    requires p <= |s|
    ensures r.Ok? ==> p < r.pos <= |s|
    decreases |s| - p, 4
  {
    match OneMember(s, p, depth, max, acc)
    case Err(e, at) => Err(e, at)
    case Ok(next, u) =>
      var w := SkipSpace(s, u);
      if w == |s| then Err(UnterminatedObject, w)
      else if s[w] == COMMA then Members(s, w + 1, depth, max, next)
      else if s[w] == CLOSE_BRACE then Ok(Object(next), w + 1)
      else Err(ExpectedCommaOrBrace, w)
  }

  function ParseArray(s: Text, p: nat, depth: nat, max: nat): (r: Result<Json>)
    requires p < |s|
    ensures r.Ok? ==> p < r.pos <= |s|
    decreases |s| - p, 1
  {
    if depth > max then Err(TooDeep, p)
    else
      var q := SkipSpace(s, p + 1);
      if q < |s| && s[q] == CLOSE_BRACKET then Ok(Array([]), q + 1) else Items(s, q, depth, max, [])
  }

  function Items(s: Text, p: nat, depth: nat, max: nat, acc: seq<Json>): (r: Result<Json>)
    requires p <= |s|
    ensures r.Ok? ==> p < r.pos <= |s|
    decreases |s| - p, 3
  {
    match Value(s, SkipSpace(s, p), depth, max)
    case Err(e, at) => Err(e, at)
    case Ok(v, u) =>
      var w := SkipSpace(s, u);
      if w == |s| then Err(UnterminatedArray, w)
      else if s[w] == COMMA then Items(s, w + 1, depth, max, acc + [v])
      else if s[w] == CLOSE_BRACKET then Ok(Array(acc + [v]), w + 1)
      else Err(ExpectedCommaOrBracket, w)
  }

  const MAX_DEPTH := 64

  /** parse_json: one value, with space around it and nothing else. */
  function ParseJson(s: Text, max: nat): Result<Json> {
    match Value(s, SkipSpace(s, 0), 0, max)
    case Err(e, at) => Err(e, at)
    case Ok(j, p) =>
      var q := SkipSpace(s, p);
      if q != |s| then Err(DataAfterValue, q) else Ok(j, q)
  }
}
