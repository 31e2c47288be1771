/** Which messages are answered, and with which id, whatever memory does. */
module ProtocolTheorems {
  import opened Bytes
  import opened Utf8
  import opened Decimal
  import opened Json
  import opened JsonParse
  import JsonRoundTrip
  import opened Protocol

  /** Neither attempt came to know what the message is. */
  predicate BothFailed(message: Text, luck: Luck) {
    Failed(Recognised(message, luck.first)) && Failed(Recognised(message, luck.second))
  }

  /** A request is answered, always; with its own id, or null if that could be read in neither attempt. */
  lemma RequestsAreAnswered(message: Text, luck: Luck, work: Work)
    requires IsRequest(message)
    ensures Answer(message, luck, work).Some?
    ensures AnswerId(message, luck) == Some(if BothFailed(message, luck) then Null else IdOf(message))
    ensures IdOf(message) != Null
  {
  }

  /** A notification is not answered exactly if one of the attempts recognised it. */
  lemma NotificationsAreNotAnswered(message: Text, luck: Luck, work: Work)
    requires IsNotification(message)
    ensures Answer(message, luck, work).None? <==> luck.first.parse || luck.second.parse
    ensures Answer(message, luck, work).Some? ==> AnswerId(message, luck) == Some(Null)
  {
  }

  /** A response of the client is not answered exactly if memory lasted until its id was known. */
  lemma ClientResponses(message: Text, luck: Luck, work: Work)
    requires IsClientResponse(message)
    ensures Answer(message, luck, work).None? <==> !Failed(Recognised(message, luck.first))
  {
  }

  /** What is no message with an id that can be answered, and nothing of the above, is answered with null. */
  lemma OthersAreAnsweredWithNull(message: Text, luck: Luck)
    requires !HasId(message) && !IsNotification(message) && !IsClientResponse(message)
    ensures AnswerId(message, luck) == Some(Null)
  {
  }

  /** Null stands in an answer only where the id is invalid or missing, or was read in neither attempt. */
  lemma WhenIdIsNull(message: Text, luck: Luck)
    ensures AnswerId(message, luck) == Some(Null) ==> !HasId(message) || BothFailed(message, luck)
    ensures AnswerId(message, luck).Some? && AnswerId(message, luck).value != Null ==>
      HasId(message) && AnswerId(message, luck).value == IdOf(message)
  {
  }

  // ---- Answers are JSON-RPC responses, one to a line

  lemma NumberIsOneLine(t: Text)
    requires IsNumber(t)
    ensures OneLine(t)
  {
    var sign: Text, whole: Text, frac: Text, exp: Text :|
      IsSign(sign) && IsIntPart(whole) && IsFraction(frac) && IsExponent(exp) && t == sign + whole + frac + exp;
    assert OneLine(sign) && OneLine(whole);
    assert OneLine(frac) by {
      if frac != [] { assert frac == [frac[0]] + frac[1..]; }
    }
    assert OneLine(exp) by {
      if exp != [] && AllDigits(exp[1..]) {
        assert exp == [exp[0]] + exp[1..];
      } else if exp != [] {
        assert exp == [exp[0], exp[1]] + exp[2..];
      }
    }
  }

  lemma {:induction false} DumpIsOneLine(j: Json, depth: nat, max: nat)
    requires Proper(j, depth, max)
    ensures OneLine(Dump(j))
    decreases j, 1
  {
    match j
    case Null =>
    case Bool(_) =>
    case Number(t) => NumberIsOneLine(t);
    case String(t) => QuoteIsOneLine(t);
    case Array(items) => ItemsAreOneLine(items, depth + 1, max);
    case Object(members) => MembersAreOneLine(members, depth + 1, max);
  }

  lemma {:induction false} ItemsAreOneLine(items: seq<Json>, depth: nat, max: nat)
    requires ProperItems(items, depth, max)
    ensures OneLine(DumpItems(items))
    decreases items, 0
  {
    if items != [] {
      DumpIsOneLine(items[0], depth, max);
      ItemsAreOneLine(items[1..], depth, max);
    }
  }

  lemma {:induction false} MembersAreOneLine(members: seq<Member>, depth: nat, max: nat)
    requires ProperMembers(members, depth, max)
    ensures OneLine(DumpMembers(members))
    decreases members, 0
  {
    if members != [] {
      QuoteIsOneLine(members[0].name);
      DumpIsOneLine(members[0].value, depth, max);
      MembersAreOneLine(members[1..], depth, max);
    }
  }

  /** What the server says is JSON, not nested deeper than a message may be. */
  ghost predicate ProperBody(b: Body) {
    match b
    case Result(v) => Proper(v, 1, MAX_DEPTH)
    case Error(code, message) => IsNumber(code) && WellFormed(message)
  }

  lemma NamesDiffer()
    ensures |JSONRPC| == 7 && |ID| == 2 && |RESULT| == 6 && |ERROR| == 5
    ensures |Ascii("code")| == 4 && |Ascii("message")| == 7
    ensures WellFormed(JSONRPC) && WellFormed(ID) && WellFormed(RESULT) && WellFormed(ERROR)
    ensures WellFormed(Ascii("2.0")) && WellFormed(Ascii("code")) && WellFormed(Ascii("message"))
  {
    AsciiIsWellFormed(JSONRPC, 0);
    AsciiIsWellFormed(ID, 0);
    AsciiIsWellFormed(RESULT, 0);
    AsciiIsWellFormed(ERROR, 0);
    AsciiIsWellFormed(Ascii("2.0"), 0);
    AsciiIsWellFormed(Ascii("code"), 0);
    AsciiIsWellFormed(Ascii("message"), 0);
  }

  lemma ErrorIsProper(code: Text, message: Text)
    requires IsNumber(code) && WellFormed(message)
    ensures Proper(ErrorObject(code, message), 1, MAX_DEPTH)
  {
    NamesDiffer();
    var members := [Member(Ascii("code"), Number(code)), Member(Ascii("message"), String(message))];
    assert ProperMembers(members, 2, MAX_DEPTH);
  }

  lemma ResponseIsProper(id: Json, body: Body)
    requires id == Null || ValidId(id)
    requires Proper(id, 1, MAX_DEPTH) && ProperBody(body)
    ensures Proper(Response(id, body), 0, MAX_DEPTH)
  {
    NamesDiffer();
    if body.Error? { ErrorIsProper(body.code, body.message); }
    var members := Response(id, body).members;
    assert ProperMembers(members, 1, MAX_DEPTH);
  }

  lemma ResponseHasId(id: Json, body: Body)
    ensures Find(Response(id, body).members, ID) == Some(id)
  {
    NamesDiffer();
    var members := Response(id, body).members;
    assert members[..2][..1] == members[..1];
    assert Find(members, ID) == Find(members[..2], ID);
  }

  lemma {:induction false} FindIsProper(members: seq<Member>, name: Text, depth: nat, max: nat)
    requires ProperMembers(members, depth, max) && Find(members, name).Some?
    ensures Proper(Find(members, name).value, depth, max)
    decreases |members|
  {
    if members[|members| - 1].name != name { FindIsProper(members[..|members| - 1], name, depth, max); }
  }

  lemma IdIsProper(message: Text, luck: Luck)
    requires AnswerId(message, luck).Some?
    ensures var id := AnswerId(message, luck).value; (id == Null || ValidId(id)) && Proper(id, 1, MAX_DEPTH)
  {
    WhenIdIsNull(message, luck);
    if AnswerId(message, luck).value != Null {
      JsonRoundTrip.AcceptedIsProper(message, MAX_DEPTH);
      FindIsProper(ObjectOf(message).value, ID, 1, MAX_DEPTH);
    }
  }

  lemma CodeIsNumber(t: Text)
    requires |t| == 6 && t[0] == MINUS && AllDigits(t[1..]) && t[1] != 48
    ensures IsNumber(t)
  {
    assert t == [MINUS] + t[1..] + [] + [];
    assert IsSign([MINUS]) && IsIntPart(t[1..]) && IsFraction([]) && IsExponent([]);
  }

  lemma CodesAreNumbers()
    ensures IsNumber(INVALID_REQUEST) && IsNumber(PARSE_ERROR) && IsNumber(INTERNAL_ERROR) && IsNumber(INVALID_PARAMS)
  {
    CodeIsNumber(INVALID_REQUEST);
    CodeIsNumber(PARSE_ERROR);
    CodeIsNumber(INTERNAL_ERROR);
    CodeIsNumber(INVALID_PARAMS);
  }

  /** Words of the server, alone or before words that are well-formed. */
  lemma WordsAreWellFormed(a: Text, b: Text)
    requires IsAscii(a) && WellFormed(b)
    ensures WellFormed(a) && WellFormed(a + b)
  {
    AsciiIsWellFormed(a, 0);
    WellFormedConcat(a, b);
  }

  ghost predicate ProperWork(work: Work) {
    ProperBody(work.body) && WellFormed(work.what) && forall r :: WellFormed(work.words(r))
  }

  lemma SaidIsProper(message: Text, work: Work)
    requires ProperWork(work)
    ensures ProperBody(Said(message, work))
  {
    CodesAreNumbers();
  }

  lemma BodyIsProper(message: Text, luck: Luck, work: Work)
    requires ProperWork(work)
    ensures ProperBody(AnswerBody(message, luck, work))
  {
    SaidIsProper(message, work);
    CodesAreNumbers();
    AsciiIsWellFormed(OUT_OF_MEMORY, 0);
    WordsAreWellFormed(INTERNAL, work.what);
    WordsAreWellFormed(INTERNAL, OUT_OF_MEMORY);
  }

  /** Every answer is one line, which reads as a response object with the id it is for. */
  lemma AnswersAreResponses(message: Text, luck: Luck, work: Work)
    requires ProperWork(work) && Answer(message, luck, work).Some?
    ensures var t, id := Answer(message, luck, work).value, AnswerId(message, luck).value;
      && OneLine(t) && t != []
      && ParseJson(t, MAX_DEPTH) == Ok(Response(id, AnswerBody(message, luck, work)), |t|)
      && ObjectIn(ParseJson(t, MAX_DEPTH)).Some?
      && Find(ObjectIn(ParseJson(t, MAX_DEPTH)).value, ID) == Some(id)
  {
    var id, body := AnswerId(message, luck).value, AnswerBody(message, luck, work);
    IdIsProper(message, luck);
    BodyIsProper(message, luck, work);
    ResponseIsProper(id, body);
    ResponseHasId(id, body);
    JsonRoundTrip.ParseOfDump(Response(id, body), MAX_DEPTH);
    DumpIsOneLine(Response(id, body), 0, MAX_DEPTH);
  }

  function ObjectIn(r: JsonParse.Result<Json>): Option<seq<Member>> {
    if r.Ok? && r.value.Object? then Some(r.value.members) else None
  }
}
