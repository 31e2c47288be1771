/** The answer to a request for a directory (scanner.cpp): a first line of counts, then one line per file that fits. */
module Listing {
  import opened Bytes
  import opened Decimal
  import Json
  import PathText

  datatype File = File(path: Text, format: Option<Text>, size: nat, fields: Text)

  /** What the first line says, but for the number of files shown. */
  datatype Summary = Summary(
    status: Text, total: nat, incomplete: bool, unreadable: nat, dirs: Text, limit: nat, idle: bool)

  const NEWLINE: Byte := 10

  const TOTAL: Text := Ascii(",\"total\":")
  const SHOWN: Text := Ascii(",\"shown\":")
  const INCOMPLETE: Text := Ascii(",\"incomplete\":true")
  const UNREADABLE: Text := Ascii(",\"unreadable_dirs\":")

  /** Counts are 64 bits wide. */
  predicate CountsOk(sum: Summary) { sum.total <= MAX_COUNT && sum.unreadable <= MAX_COUNT }

  /** The line of a file: a newline, and its members in braces. */
  function FileLine(f: File): Text { [NEWLINE] + Concat(FileParts(f)) }

  function FileParts(f: File): seq<Text> {
    [Ascii("{\"path\":"), Json.Quote(PathText.ToText(f.path)),
     Ascii(",\"format\":"), if f.format.None? then Json.NULL else Json.Quote(f.format.value),
     Ascii(",\"size\":"), Digits(f.size),
     if f.fields == [] then [] else [Json.COMMA] + f.fields, [Json.CLOSE_BRACE]]
  }

  function Lines(files: seq<File>): Text {
    if files == [] then [] else Lines(files[..|files| - 1]) + FileLine(files[|files| - 1])
  }

  function FirstLine(sum: Summary, shown: nat): Text { Concat(FirstParts(sum, shown)) }

  function FirstParts(sum: Summary, shown: nat): seq<Text> {
    [[Json.OPEN_BRACE], sum.status, TOTAL, Digits(sum.total), SHOWN, Digits(shown),
     if sum.incomplete then INCOMPLETE else [],
     if sum.unreadable > 0 then UNREADABLE else [], if sum.unreadable > 0 then Digits(sum.unreadable) else [],
     if sum.limit > 0 && (shown < sum.total || !sum.idle || sum.incomplete) then sum.dirs else [], [Json.CLOSE_BRACE]]
  }

  /** The sum of the sizes of the parts. */
  function Size(parts: seq<Text>): nat {
    if parts == [] then 0 else Size(parts[..|parts| - 1]) + |parts[|parts| - 1]|
  }

  lemma {:induction false} ConcatSize(parts: seq<Text>)
    ensures |Concat(parts)| == Size(parts)
  {
    if parts != [] { ConcatSize(parts[..|parts| - 1]); }
  }

  lemma FirstLineLength(sum: Summary, shown: nat)
    ensures |FirstLine(sum, shown)| ==
      2 + |sum.status| + |TOTAL| + |Digits(sum.total)| + |SHOWN| + |Digits(shown)| +
      (if sum.incomplete then |INCOMPLETE| else 0) +
      (if sum.unreadable > 0 then |UNREADABLE| + |Digits(sum.unreadable)| else 0) +
      (if sum.limit > 0 && (shown < sum.total || !sum.idle || sum.incomplete) then |sum.dirs| else 0)
  {
    ConcatSize(FirstParts(sum, shown));
    SizeOfEleven(FirstParts(sum, shown));
  }

  lemma SizeTo(p: seq<Text>, i: nat)
    requires i < |p|
    ensures Size(p[..i + 1]) == Size(p[..i]) + |p[i]|
  {
    assert p[..i + 1][..i] == p[..i];
  }

  lemma SizeOfFive(p: seq<Text>)
    requires |p| >= 5
    ensures Size(p[..5]) == |p[0]| + |p[1]| + |p[2]| + |p[3]| + |p[4]|
  {
    assert p[..0] == [];
    SizeTo(p, 0); SizeTo(p, 1); SizeTo(p, 2); SizeTo(p, 3); SizeTo(p, 4);
  }

  lemma SizeOfEleven(p: seq<Text>)
    requires |p| == 11
    ensures Size(p) == |p[0]| + |p[1]| + |p[2]| + |p[3]| + |p[4]| + |p[5]| + |p[6]| + |p[7]| + |p[8]| + |p[9]| + |p[10]|
  {
    assert p[..11] == p;
    SizeOfFive(p);
    SizeTo(p, 5); SizeTo(p, 6); SizeTo(p, 7); SizeTo(p, 8); SizeTo(p, 9); SizeTo(p, 10);
  }

  /** The size the code allows for it: all of its words once, and twenty digits a count. */
  function FirstLineSize(sum: Summary): nat {
    |sum.status| + |sum.dirs| + |Ascii("{,\"total\":,\"shown\":,\"incomplete\":true,\"unreadable_dirs\":}")| + 3 * 20
  }

  lemma FirstLineFits(sum: Summary, shown: nat)
    requires CountsOk(sum) && shown <= MAX_COUNT
    ensures |FirstLine(sum, shown)| <= FirstLineSize(sum)
  {
    FirstLineLength(sum, shown);
    TwentyDigits(sum.total);
    TwentyDigits(shown);
    TwentyDigits(sum.unreadable);
  }

  /** The allowance is reached, so no smaller one would do. */
  lemma AllowanceIsTight(status: Text, dirs: Text)
    ensures var sum := Summary(status, MAX_COUNT, true, MAX_COUNT, dirs, 1, true);
      |FirstLine(sum, MAX_COUNT)| == FirstLineSize(sum)
  {
    FirstLineLength(Summary(status, MAX_COUNT, true, MAX_COUNT, dirs, 1, true), MAX_COUNT);
    TwentyDigits(MAX_COUNT);
  }

  function Room(sum: Summary, max_output: nat): nat {
    if max_output > FirstLineSize(sum) then max_output - FirstLineSize(sum) else 0
  }

  /** The answer, and how many files it shows: the first ones, as many as fit. */
  method DirectoryAnswer(files: seq<File>, sum: Summary, max_output: nat) returns (out: Text, shown: nat)
    requires CountsOk(sum) && |files| <= MAX_COUNT
    ensures shown <= |files| && out == FirstLine(sum, shown) + Lines(files[..shown])
    ensures |out| <= if max_output > FirstLineSize(sum) then max_output else FirstLineSize(sum)
    ensures |Lines(files[..shown])| <= if max_output > FirstLineSize(sum) then max_output - FirstLineSize(sum) else 0
    ensures shown < |files| ==> FirstLineSize(sum) + |Lines(files[..shown + 1])| > max_output
  {
    var room := Room(sum, max_output);
    var lines: Text := [];
    shown := 0;
    while shown < |files|
      invariant shown <= |files| && lines == Lines(files[..shown]) && |lines| <= room
    {
      var line := FileLine(files[shown]);
      assert files[..shown + 1][..shown] == files[..shown];
      if |lines| + |line| > room { break; }
      lines := lines + line;
      shown := shown + 1;
    }
    FirstLineFits(sum, shown);
    out := FirstLine(sum, shown) + lines;
  }

  // ---- The number of lines

  function Newlines(t: Text): nat {
    if t == [] then 0 else Newlines(t[..|t| - 1]) + if t[|t| - 1] == NEWLINE then 1 else 0
  }

  predicate NoNewline(t: Text) { NEWLINE !in t }

  lemma {:induction false} NoNewlines(t: Text)
    requires NoNewline(t)
    ensures Newlines(t) == 0
  {
    if t != [] { NoNewlines(t[..|t| - 1]); }
  }

  lemma {:induction false} NewlinesAdd(a: Text, b: Text)
    ensures Newlines(a + b) == Newlines(a) + Newlines(b)
    decreases |b|
  {
    if b == [] {
      assert a + b == a;
    } else {
      NewlinesAdd(a, b[..|b| - 1]);
      assert (a + b)[..|a + b| - 1] == a + b[..|b| - 1];
    }
  }

  lemma QuotedHasNoNewline(t: Text)
    ensures NoNewline(Json.Quote(t))
  {
    Json.QuoteIsOneLine(t);
  }

  lemma {:induction false} DigitsAreOneLine(n: nat)
    ensures NoNewline(Digits(n))
  {
    if n >= 10 { DigitsAreOneLine(n / 10); }
  }

  lemma {:induction false} PartsAreOneLine(parts: seq<Text>)
    requires forall i :: 0 <= i < |parts| ==> NoNewline(parts[i])
    ensures NoNewline(Concat(parts))
  {
    if parts != [] { PartsAreOneLine(parts[..|parts| - 1]); }
  }

  lemma FilePartsAreOneLine(f: File)
    requires NoNewline(f.fields)
    ensures forall i :: 0 <= i < |FileParts(f)| ==> NoNewline(FileParts(f)[i])
  {
    QuotedHasNoNewline(PathText.ToText(f.path));
    if f.format.Some? { QuotedHasNoNewline(f.format.value); }
    DigitsAreOneLine(f.size);
  }

  lemma FileIsOneLine(f: File)
    requires NoNewline(f.fields)
    ensures Newlines(FileLine(f)) == 1
  {
    var rest := Concat(FileParts(f));
    FilePartsAreOneLine(f);
    PartsAreOneLine(FileParts(f));
    NoNewlines(rest);
    NewlinesAdd([NEWLINE], rest);
    assert Newlines([NEWLINE]) == 1;
  }

  lemma {:induction false} LinesAreCounted(files: seq<File>)
    requires forall i :: 0 <= i < |files| ==> NoNewline(files[i].fields)
    ensures Newlines(Lines(files)) == |files|
  {
    if files != [] {
      var most, f := files[..|files| - 1], files[|files| - 1];
      LinesAreCounted(most);
      FileIsOneLine(f);
      NewlinesAdd(Lines(most), FileLine(f));
    }
  }

  lemma FirstLineIsOneLine(sum: Summary, shown: nat)
    requires NoNewline(sum.status) && NoNewline(sum.dirs)
    ensures NoNewline(FirstLine(sum, shown))
  {
    DigitsAreOneLine(sum.total);
    DigitsAreOneLine(shown);
    DigitsAreOneLine(sum.unreadable);
    PartsAreOneLine(FirstParts(sum, shown));
  }

  /** After the first line there are as many lines as it says are shown. */
  lemma ShownIsCounted(files: seq<File>, sum: Summary, shown: nat)
    requires shown <= |files| && NoNewline(sum.status) && NoNewline(sum.dirs)
    requires forall i :: 0 <= i < |files| ==> NoNewline(files[i].fields)
    ensures Newlines(FirstLine(sum, shown) + Lines(files[..shown])) == shown
  {
    FirstLineIsOneLine(sum, shown);
    NoNewlines(FirstLine(sum, shown));
    LinesAreCounted(files[..shown]);
    NewlinesAdd(FirstLine(sum, shown), Lines(files[..shown]));
  }

  // ---- What the lines say, by their bytes

  lemma ConcatTo(p: seq<Text>, i: nat)
    requires i < |p|
    ensures Concat(p[..i + 1]) == Concat(p[..i]) + p[i]
  {
    assert p[..i + 1][..i] == p[..i];
  }

  lemma ConcatOfEleven(p: seq<Text>)
    requires |p| == 11
    ensures Concat(p) == p[0] + p[1] + p[2] + p[3] + p[4] + p[5] + p[6] + p[7] + p[8] + p[9] + p[10]
  {
    assert p[..11] == p;
    ConcatOfFive(p);
    ConcatTo(p, 5); ConcatTo(p, 6); ConcatTo(p, 7); ConcatTo(p, 8); ConcatTo(p, 9); ConcatTo(p, 10);
  }

  lemma ConcatOfFive(p: seq<Text>)
    requires |p| >= 5
    ensures Concat(p[..5]) == p[0] + p[1] + p[2] + p[3] + p[4]
  {
    assert p[..0] == [] && [] + p[0] == p[0];
    ConcatTo(p, 0); ConcatTo(p, 1); ConcatTo(p, 2); ConcatTo(p, 3); ConcatTo(p, 4);
  }

  lemma ConcatOfEight(p: seq<Text>)
    requires |p| == 8
    ensures Concat(p) == p[0] + p[1] + p[2] + p[3] + p[4] + p[5] + p[6] + p[7]
  {
    assert p[..8] == p;
    ConcatOfFive(p);
    ConcatTo(p, 5); ConcatTo(p, 6); ConcatTo(p, 7);
  }

  /** Words of the first line: ,"total": and ,"shown": and ,"incomplete":true and ,"unreadable_dirs": */
  lemma WordsAre()
    ensures TOTAL == [44, 34, 116, 111, 116, 97, 108, 34, 58] && SHOWN == [44, 34, 115, 104, 111, 119, 110, 34, 58]
    ensures INCOMPLETE ==
      [44, 34, 105, 110, 99, 111, 109, 112, 108, 101, 116, 101, 34, 58, 116, 114, 117, 101]
    ensures UNREADABLE ==
      [44, 34, 117, 110, 114, 101, 97, 100, 97, 98, 108, 101, 95, 100, 105, 114, 115, 34, 58]
  {
  }

  /** What the first line says behind the status: how many files there are, how many are shown, and the rest. */
  lemma FirstLineSays(sum: Summary, shown: nat)
    ensures FirstLine(sum, shown) ==
      [123] + sum.status + [44, 34, 116, 111, 116, 97, 108, 34, 58] + Digits(sum.total) +
      [44, 34, 115, 104, 111, 119, 110, 34, 58] + Digits(shown) +
      (if sum.incomplete then [44, 34, 105, 110, 99, 111, 109, 112, 108, 101, 116, 101, 34, 58, 116, 114, 117, 101]
       else []) +
      (if sum.unreadable > 0
       then [44, 34, 117, 110, 114, 101, 97, 100, 97, 98, 108, 101, 95, 100, 105, 114, 115, 34, 58] else []) +
      (if sum.unreadable > 0 then Digits(sum.unreadable) else []) +
      (if sum.limit > 0 && (shown < sum.total || !sum.idle || sum.incomplete) then sum.dirs else []) + [125]
    ensures ReadDigits(Digits(sum.total)) == sum.total && ReadDigits(Digits(shown)) == shown
  {
    WordsAre();
    ConcatOfEleven(FirstParts(sum, shown));
    DigitsReadBack(sum.total);
    DigitsReadBack(shown);
  }

  lemma FileWordsAre()
    ensures Ascii("{\"path\":") == [123, 34, 112, 97, 116, 104, 34, 58]
    ensures Ascii(",\"format\":") == [44, 34, 102, 111, 114, 109, 97, 116, 34, 58]
    ensures Ascii(",\"size\":") == [44, 34, 115, 105, 122, 101, 34, 58]
  {
  }

  /** A line of a file: its path as text, its format or null, its size, and the fields behind a comma. */
  lemma FileLineSays(f: File)
    ensures FileLine(f) ==
      [10] + ([123, 34, 112, 97, 116, 104, 34, 58] + Json.Quote(PathText.ToText(f.path)) +
      [44, 34, 102, 111, 114, 109, 97, 116, 34, 58] +
      (if f.format.None? then [110, 117, 108, 108] else Json.Quote(f.format.value)) +
      [44, 34, 115, 105, 122, 101, 34, 58] + Digits(f.size) +
      (if f.fields == [] then [] else [44] + f.fields) + [125])
  {
    FileWordsAre();
    ConcatOfEight(FileParts(f));
  }
}
