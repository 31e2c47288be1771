/** The request loop of zorba_mcp.cpp: one line in, at most one line out. */
module MainLoop {
  import opened Bytes
  import opened Protocol
  import ProtocolTheorems

  const NEWLINE: Byte := 10
  const RETURN: Byte := 13

  // ---- Lines

  function LineEnd(bytes: Text, p: nat): (e: nat)
    requires p <= |bytes|
    ensures p <= e <= |bytes| && (e < |bytes| ==> bytes[e] == NEWLINE)
    decreases |bytes| - p
  {
    if p == |bytes| || bytes[p] == NEWLINE then p else LineEnd(bytes, p + 1)
  }

  function NextLine(bytes: Text, p: nat): (q: nat)
    requires p < |bytes|
    ensures p < q <= |bytes|
  {
    var e := LineEnd(bytes, p);
    if e < |bytes| then e + 1 else e
  }

  /** The lines from p on; the last one need not end with a newline. */
  function LinesFrom(bytes: Text, p: nat): seq<Text>
    requires p <= |bytes|
    decreases |bytes| - p
  {
    if p == |bytes| then [] else [bytes[p..LineEnd(bytes, p)]] + LinesFrom(bytes, NextLine(bytes, p))
  }

  /** A line with one carriage return at its end dropped. */
  function Chopped(line: Text): Text {
    if line != [] && line[|line| - 1] == RETURN then line[..|line| - 1] else line
  }

  /** What read_line keeps of a line. */
  function Shortened(line: Text, max: nat): Text {
    if |line| <= max + 1 then line else line[..max + 1]
  }

  /** The message the loop makes of a line. */
  function Taken(line: Text, max: nat): Text { Chopped(Shortened(line, max)) }

  /** A message that was sent is taken whole, or refused by its size. */
  predicate IsFaithful(line: Text, max: nat) {
    var sent := Chopped(line);
    if |sent| <= max then Taken(line, max) == sent else |Taken(line, max)| > max
  }

  /** That fails for exactly the longer lines with a carriage return right after the largest message. */
  lemma WhenFaithful(line: Text, max: nat)
    ensures IsFaithful(line, max) <==> !(|line| > max + 1 && line[max] == RETURN)
    ensures !IsFaithful(line, max) ==> Taken(line, max) == line[..max]
  {
    if |line| > max + 1 {
      assert Shortened(line, max)[max] == line[max];
      assert line[..max + 1][..max] == line[..max];
    }
  }

  predicate IsBlank(t: Text) { forall i :: 0 <= i < |t| ==> t[i] == 32 || t[i] == 9 }

  // ---- Answers

  /** What happens to the k-th line: memory, and what the server would say. */
  datatype Fate = Fate(luck: Luck, work: Work)

  function LineAnswer(line: Text, fate: Fate): (r: seq<Text>)
    ensures |r| <= 1
  {
    var message := Taken(line, MAX_MESSAGE);
    if IsBlank(message) then []
    else match Answer(message, fate.luck, fate.work)
      case None => []
      case Some(t) => [t]
  }

  /** A line that is not too long, without its one carriage return, is answered unless it is but spaces and tabs. */
  lemma LineIsAnswered(line: Text, fate: Fate)
    requires |line| <= 4194305
    ensures var message := if line != [] && line[|line| - 1] == 13 then line[..|line| - 1] else line;
      LineAnswer(line, fate) ==
        if (forall i :: 0 <= i < |message| ==> message[i] == 0x20 || message[i] == 0x09) then []
        else match Answer(message, fate.luck, fate.work) case None => [] case Some(t) => [t]
  {
  }

  function Answers(lines: seq<Text>, k: nat, fates: nat -> Fate): (r: seq<Text>)
    ensures |r| <= |lines|
  {
    if lines == [] then [] else LineAnswer(lines[0], fates(k)) + Answers(lines[1..], k + 1, fates)
  }

  // ---- What is written reads as the answers

  function Written(answers: seq<Text>): Text {
    if answers == [] then [] else answers[0] + [NEWLINE] + Written(answers[1..])
  }

  predicate IsLine(t: Text) { forall i :: 0 <= i < |t| ==> t[i] != NEWLINE }

  lemma {:induction false} LineEndIs(bytes: Text, p: nat, e: nat)
    requires p <= e < |bytes| && bytes[e] == NEWLINE && forall i :: p <= i < e ==> bytes[i] != NEWLINE
    ensures LineEnd(bytes, p) == e
    decreases e - p
  {
    if p < e { LineEndIs(bytes, p + 1, e); }
  }

  /** Where a line stands in a text, before a newline. */
  lemma LineStands(bytes: Text, p: nat, line: Text)
    requires At(bytes, p, line) && At(bytes, p + |line|, [NEWLINE]) && IsLine(line)
    ensures LinesFrom(bytes, p) == [line] + LinesFrom(bytes, p + |line| + 1)
  {
    var e := p + |line|;
    assert bytes[e + 0] == [NEWLINE][0];
    forall i | p <= i < e
      ensures bytes[i] != NEWLINE
    {
      assert bytes[p + (i - p)] == line[i - p];
    }
    LineEndIs(bytes, p, e);
    AtSlice(bytes, p, line);
  }

  /** The lines of the output are the answers. */
  lemma {:induction false} WrittenReadsBack(bytes: Text, p: nat, answers: seq<Text>)
    requires At(bytes, p, Written(answers)) && p + |Written(answers)| == |bytes|
    requires forall i :: 0 <= i < |answers| ==> IsLine(answers[i])
    ensures LinesFrom(bytes, p) == answers
    decreases |answers|
  {
    if answers != [] {
      var a := answers[0];
      AtConcat(bytes, p, a + [NEWLINE], Written(answers[1..]));
      AtConcat(bytes, p, a, [NEWLINE]);
      LineStands(bytes, p, a);
      WrittenReadsBack(bytes, p + |a| + 1, answers[1..]);
    }
  }

  lemma {:induction false} AnswersAreLines(lines: seq<Text>, k: nat, fates: nat -> Fate)
    requires forall i :: ProtocolTheorems.ProperWork(fates(i).work)
    ensures forall i :: 0 <= i < |Answers(lines, k, fates)| ==> IsLine(Answers(lines, k, fates)[i])
    decreases lines
  {
    if lines != [] {
      AnswerIsLine(lines[0], fates(k));
      AnswersAreLines(lines[1..], k + 1, fates);
    }
  }

  lemma AnswerIsLine(line: Text, fate: Fate)
    requires ProtocolTheorems.ProperWork(fate.work)
    ensures forall i :: 0 <= i < |LineAnswer(line, fate)| ==> IsLine(LineAnswer(line, fate)[i])
  {
    var message := Taken(line, MAX_MESSAGE);
    if Answer(message, fate.luck, fate.work).Some? {
      ProtocolTheorems.AnswersAreResponses(message, fate.luck, fate.work);
    }
  }

  /** A client that reads the output by lines finds the answers, one to a line, in the order of their messages. */
  lemma OutputIsTheAnswers(text: Text, fates: nat -> Fate)
    requires forall i :: ProtocolTheorems.ProperWork(fates(i).work)
    ensures var all := Answers(LinesFrom(text, 0), 0, fates); LinesFrom(Written(all), 0) == all
  {
    var all := Answers(LinesFrom(text, 0), 0, fates);
    AnswersAreLines(LinesFrom(text, 0), 0, fates);
    WrittenReadsBack(Written(all), 0, all);
  }

  // ---- The loop

  class Input {
    const bytes: Text
    var pos: nat

    constructor (text: Text)
      ensures bytes == text && pos == 0
    {
      bytes, pos := text, 0;
    }

    /** read_line: false at the end of the input. */
    method ReadLine(max: nat) returns (any: bool, line: Text)
      requires pos <= |bytes|
      modifies this
      ensures any <==> old(pos) < |bytes|
      ensures any ==> line == Shortened(bytes[old(pos)..LineEnd(bytes, old(pos))], max)
      ensures any ==> pos == NextLine(bytes, old(pos))
    {
      line, any := [], false;
      ghost var start := pos;
      while true
        invariant start <= pos <= |bytes| && (any <==> start < pos) && (start == |bytes| ==> pos == start)
        invariant LineEnd(bytes, start) == LineEnd(bytes, pos)
        invariant line == Shortened(bytes[start..pos], max)
        decreases |bytes| - pos
      {
        if pos == |bytes| { return; }
        var c := bytes[pos];
        pos := pos + 1;
        any := true;
        if c == NEWLINE { return; }
        assert bytes[start..pos] == bytes[start..pos - 1] + [c];
        if |line| <= max { line := line + [c]; }
      }
    }
  }

  /** What comes of a line that was read. */
  method AnswerLine(server: Server, line: Text, ghost raw: Text, fate: Fate) returns (r: Option<Text>)
    requires line == Shortened(raw, MAX_MESSAGE)
    modifies server
    ensures LineAnswer(raw, fate) == if r.None? then [] else [r.value]
  {
    var message := line;
    if message != [] && message[|message| - 1] == RETURN { message := message[..|message| - 1]; }
    r := None;
    if !IsBlank(message) { r := server.Respond(message, fate.luck, fate.work); }
  }

  lemma AnswersStep(text: Text, p: nat, k: nat, fates: nat -> Fate)
    requires p < |text|
    ensures Answers(LinesFrom(text, p), k, fates) ==
      LineAnswer(text[p..LineEnd(text, p)], fates(k)) + Answers(LinesFrom(text, NextLine(text, p)), k + 1, fates)
  {
    var lines := LinesFrom(text, p);
    assert lines[0] == text[p..LineEnd(text, p)] && lines[1..] == LinesFrom(text, NextLine(text, p));
  }

  /** The answers so far are the first of all; those to the rest of the text are the others. */
  ghost predicate Done(text: Text, p: nat, k: nat, fates: nat -> Fate, out: seq<Text>) {
    p <= |text| && Answers(LinesFrom(text, 0), 0, fates) == out + Answers(LinesFrom(text, p), k, fates)
  }

  lemma DoneStep(text: Text, p: nat, k: nat, fates: nat -> Fate, out: seq<Text>)
    requires Done(text, p, k, fates, out) && p < |text|
    ensures Done(text, NextLine(text, p), k + 1, fates, out + LineAnswer(text[p..LineEnd(text, p)], fates(k)))
  {
    AnswersStep(text, p, k, fates);
    Regroup(out, LineAnswer(text[p..LineEnd(text, p)], fates(k)),
                Answers(LinesFrom(text, NextLine(text, p)), k + 1, fates));
  }

  lemma DoneIsPrefix(text: Text, p: nat, k: nat, fates: nat -> Fate, out: seq<Text>)
    requires Done(text, p, k, fates, out)
    ensures var all := Answers(LinesFrom(text, 0), 0, fates);
      |out| <= |all| && out == all[..|out|] && (p == |text| ==> out == all)
  {
    assert p == |text| ==> Answers(LinesFrom(text, p), k, fates) == [];
  }

  /** One line: it is read and answered, unless the input is at its end or the output takes no more. */
  method ServeLine(input: Input, server: Server, k: nat, fates: nat -> Fate, room: nat, before: seq<Text>)
    returns (go: bool, out: seq<Text>, status: nat)
    requires Done(input.bytes, input.pos, k, fates, before) && |before| <= room
    modifies input, server
    ensures go ==> Done(input.bytes, input.pos, k + 1, fates, out) && |out| <= room && old(input.pos) < input.pos
    ensures go ==> status == 0
    ensures !go ==> IsServed(input.bytes, fates, room, out, status)
  {
    ghost var p := input.pos;
    out, status := before, 0;
    var any, line := input.ReadLine(MAX_MESSAGE);
    if !any {
      DoneIsPrefix(input.bytes, p, k, fates, out);
      return false, out, 0;
    }
    DoneStep(input.bytes, p, k, fates, out);
    var answer := AnswerLine(server, line, input.bytes[p..LineEnd(input.bytes, p)], fates(k));
    if answer.Some? {
      if |out| == room {
        DoneIsPrefix(input.bytes, input.pos, k + 1, fates, out + [answer.value]);
        return false, out, 1;
      }
      out := out + [answer.value];
    } else {
      assert before + [] == before;
    }
    go := true;
  }

  /** All answers are written, or as many as the output takes. */
  ghost predicate IsServed(text: Text, fates: nat -> Fate, room: nat, out: seq<Text>, status: nat) {
    var all := Answers(LinesFrom(text, 0), 0, fates);
    if |all| <= room then out == all && status == 0 else out == all[..room] && status == 1
  }

  /** The loop over the lines. Only the first `room` writes succeed. */
  method Serve(text: Text, fates: nat -> Fate, room: nat) returns (out: seq<Text>, status: nat)
    ensures IsServed(text, fates, room, out, status)
  {
    var input := new Input(text);
    var server := new Server();
    out, status := [], 0;
    var k, go := 0, true;
    while go
      invariant input.bytes == text && fresh(input) && fresh(server)
      invariant go ==> Done(text, input.pos, k, fates, out) && |out| <= room
      invariant !go ==> IsServed(text, fates, room, out, status)
      decreases go, |text| - input.pos
    {
      go, out, status := ServeLine(input, server, k, fates, room, out);
      k := k + 1;
    }
  }
}
