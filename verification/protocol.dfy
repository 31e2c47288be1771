/** Answering messages (mcp_server.cpp, zorba_mcp.cpp): JSON-RPC 2.0, with memory that can run out at any point. */
module Protocol {
  import opened Bytes
  import opened Decimal
  import opened Json
  import opened JsonParse

  // ---- Messages

  const MAX_MESSAGE: nat := 4 * 1024 * 1024

  const ID: Text := Ascii("id")
  const METHOD: Text := Ascii("method")
  const RESULT: Text := Ascii("result")
  const ERROR: Text := Ascii("error")
  const JSONRPC: Text := Ascii("jsonrpc")

  predicate IsInteger(t: Text) { forall i :: 0 <= i < |t| ==> t[i] != PERIOD && t[i] != 101 && t[i] != 69 }

  predicate ValidId(id: Json) { id.String? || (id.Number? && IsInteger(id.number)) }

  /** The object a message is, if it is one and not too large. */
  function ObjectOf(message: Text): Option<seq<Member>> {
    if |message| > MAX_MESSAGE then None
    else match ParseJson(message, MAX_DEPTH)
      case Ok(Object(members), _) => Some(members)
      case _ => None
  }

  /** No id: the client expects no answer. */
  predicate IsNotification(message: Text) {
    ObjectOf(message).Some? && Find(ObjectOf(message).value, ID).None?
  }

  /** An object with an id that can be answered. */
  predicate HasId(message: Text) {
    && ObjectOf(message).Some? && Find(ObjectOf(message).value, ID).Some?
    && ValidId(Find(ObjectOf(message).value, ID).value)
  }

  function IdOf(message: Text): Json
    requires HasId(message)
  {
    Find(ObjectOf(message).value, ID).value
  }

  /** The client's answer to a request. The server sends none. */
  predicate IsClientResponse(message: Text) {
    && ObjectOf(message).Some? && Find(ObjectOf(message).value, ID).Some?
    && Find(ObjectOf(message).value, METHOD).None?
    && (Find(ObjectOf(message).value, RESULT).Some? || Find(ObjectOf(message).value, ERROR).Some?)
  }

  predicate IsRequest(message: Text) { HasId(message) && !IsClientResponse(message) }

  // ---- Answers

  const INVALID_REQUEST: Text := Ascii("-32600")
  const PARSE_ERROR: Text := Ascii("-32700")
  const INTERNAL_ERROR: Text := Ascii("-32603")
  const INVALID_PARAMS: Text := Ascii("-32602")

  datatype Body = Result(value: Json) | Error(code: Text, message: Text)

  function Response(id: Json, body: Body): Json {
    Object([Member(JSONRPC, String(Ascii("2.0"))), Member(ID, id),
            match body
            case Result(v) => Member(RESULT, v)
            case Error(code, message) =>
              Member(ERROR, ErrorObject(code, message))])
  }

  function ErrorObject(code: Text, message: Text): Json {
    Object([Member(Ascii("code"), Number(code)), Member(Ascii("message"), String(message))])
  }

  // ---- Memory

  /** Whether there is memory to parse the message, to copy its id, and to print that. */
  datatype Attempt = Attempt(parse: bool, copy: bool, text: bool)

  /** The same for both attempts at a message, for what comes after the first, and for the report of a failure. */
  datatype Luck = Luck(first: Attempt, rest: bool, second: Attempt, report: bool)

  /** Why a message is refused. */
  datatype Refusal = TooLarge | NotJson(error: ParseError, at: nat) | NotObject | BadId | BadRequest | ParamsNotObject

  /** What the server would do and say: the outcome of a request, the words of a refusal, what a failure is called. */
  datatype Work = Work(body: Body, words: Refusal -> Text, what: Text)

  datatype Kind = Unknown | Notification | Request | WithoutId | IdLost

  /** What an attempt makes of a message; Unknown if it does not come that far. */
  function Recognised(message: Text, a: Attempt): Kind {
    if |message| > MAX_MESSAGE then WithoutId
    else if !a.parse then Unknown
    else if ObjectOf(message).None? then WithoutId
    else match Find(ObjectOf(message).value, ID)
      case None => Notification
      case Some(id) => if !ValidId(id) then WithoutId else if a.copy && a.text then Request else IdLost
  }

  predicate Failed(k: Kind) { k == Unknown || k == IdLost }

  /** The id of the answer, if there is one. */
  function AnswerId(message: Text, luck: Luck): Option<Json> {
    var first := Recognised(message, luck.first);
    var kind := if Failed(first) then Recognised(message, luck.second) else first;
    if !Failed(first) && IsClientResponse(message) then None
    else match kind
      case Notification => None
      case Request => Some(IdOf(message))
      case _ => Some(Null)
  }

  predicate HasStringMember(members: seq<Member>, name: Text) {
    Find(members, name).Some? && Find(members, name).value.String?
  }

  /** A request that the server can look at: version 2.0, a method, and params that are an object if there are any. */
  predicate WellFormedRequest(members: seq<Member>) {
    && Find(members, JSONRPC) == Some(String(Ascii("2.0"))) && HasStringMember(members, METHOD)
  }

  predicate BadParams(members: seq<Member>) {
    Find(members, Ascii("params")).Some? && !Find(members, Ascii("params")).value.Object?
  }

  /** What is said if memory lasts. */
  function Said(message: Text, work: Work): Body {
    if |message| > MAX_MESSAGE then Error(INVALID_REQUEST, work.words(TooLarge))
    else match ParseJson(message, MAX_DEPTH)
      case Err(e, at) => Error(PARSE_ERROR, work.words(NotJson(e, at)))
      case Ok(j, _) =>
        if !j.Object? then Error(INVALID_REQUEST, work.words(NotObject))
        else if Find(j.members, ID).Some? && !ValidId(Find(j.members, ID).value) then
          Error(INVALID_REQUEST, work.words(BadId))
        else if !WellFormedRequest(j.members) then Error(INVALID_REQUEST, work.words(BadRequest))
        else if BadParams(j.members) then Error(INVALID_PARAMS, work.words(ParamsNotObject))
        else work.body
  }

  const INTERNAL: Text := Ascii("Internal error: ")
  const OUT_OF_MEMORY: Text := Ascii("out of memory")

  function AnswerBody(message: Text, luck: Luck, work: Work): Body {
    if !Failed(Recognised(message, luck.first)) && luck.rest then Said(message, work)
    else Error(INTERNAL_ERROR, INTERNAL + if luck.report then work.what else OUT_OF_MEMORY)
  }

  /** The line written for a message, if any. */
  function Answer(message: Text, luck: Luck, work: Work): Option<Text> {
    match AnswerId(message, luck)
    case None => None
    case Some(id) => Some(Dump(Response(id, AnswerBody(message, luck, work))))
  }

  // ---- The server

  /** A call that returns, or that ends with std::bad_alloc. */
  datatype Call<+T> = Returned(value: T) | Thrown

  class Server {
    var kind: Kind
    var currentId: Text

    constructor ()
      ensures kind == Unknown && currentId == NULL
    {
      kind, currentId := Unknown, NULL;
    }

    /** The kind is what the attempt recognised, and the id that of the message, or null. */
    ghost predicate Knows(message: Text, k: Kind, request_id: Json)
      reads this
    {
      && kind == k
      && currentId == (if k == Request && HasId(message) then Dump(IdOf(message)) else NULL)
      && (k == Request ==> HasId(message) && request_id == IdOf(message))
    }

    method Identify(members: seq<Member>, a: Attempt, before: Json) returns (ok: bool, request_id: Json)
      modifies this
      ensures match Find(members, ID)
        case None => ok && kind == Notification && currentId == old(currentId) && request_id == before
        case Some(id) =>
          if !ValidId(id) then ok && kind == WithoutId && currentId == old(currentId) && request_id == before
          else
            && ok == (a.copy && a.text)
            && kind == (if ok then Request else IdLost)
            && currentId == (if ok then Dump(id) else old(currentId))
            && (ok ==> request_id == id)
    {
      request_id, ok := before, true;
      match Find(members, ID) {
        case None => kind := Notification;
        case Some(id) =>
          if !ValidId(id) {
            kind := WithoutId;
            return;
          }
          kind := IdLost;
          if !a.copy { return false, before; }
          request_id := id;
          if !a.text { return false, request_id; }
          currentId := Dump(id);
          kind := Request;
      }
    }

    /** What handle_message returns, or that it does not. */
    ghost predicate Handles(message: Text, luck: Luck, work: Work, r: Call<Text>) {
      r == (if Failed(Recognised(message, luck.first)) then Thrown
            else if AnswerId(message, luck).None? then Returned([])
            else if !luck.rest then Thrown
            else Returned(Dump(Response(AnswerId(message, luck).value, Said(message, work)))))
    }

    method HandleMessage(message: Text, luck: Luck, work: Work) returns (r: Call<Text>, request_id: Json)
      requires kind == Unknown && currentId == NULL
      modifies this
      ensures var k := Recognised(message, luck.first);
        Knows(message, k, request_id) && (k == WithoutId || k == Unknown ==> request_id == Null)
      ensures Handles(message, luck, work, r)
    {
      request_id := Null;
      if |message| > MAX_MESSAGE {
        kind := WithoutId;
        r := Refuse(message, luck, work);
        return;
      }
      if !luck.first.parse { return Thrown, Null; }
      var parsed := ParseJson(message, MAX_DEPTH);
      if parsed.Err? || !parsed.value.Object? {
        kind := WithoutId;
        r := Refuse(message, luck, work);
        return;
      }
      r, request_id := HandleObject(message, parsed.value.members, luck, work);
    }

    /** The answer to what is no object. */
    method Refuse(message: Text, luck: Luck, work: Work) returns (r: Call<Text>)
      requires ObjectOf(message).None? && (luck.first.parse || |message| > MAX_MESSAGE)
      ensures Handles(message, luck, work, r)
    {
      r := Report(luck.rest, Null, Said(message, work));
    }

    method HandleObject(message: Text, members: seq<Member>, luck: Luck, work: Work)
      returns (r: Call<Text>, request_id: Json)
      requires kind == Unknown && currentId == NULL && luck.first.parse && ObjectOf(message) == Some(members)
      modifies this
      ensures var k := Recognised(message, luck.first);
        Knows(message, k, request_id) && (k == WithoutId ==> request_id == Null)
      ensures Handles(message, luck, work, r)
    {
      var ok;
      ok, request_id := Identify(members, luck.first, Null);
      if !ok { return Thrown, request_id; }
      r := Dispatch(message, members, luck, work);
    }

    /** What handle_message does once the message is identified. */
    method Dispatch(message: Text, members: seq<Member>, luck: Luck, work: Work) returns (r: Call<Text>)
      requires ObjectOf(message) == Some(members) && !Failed(Recognised(message, luck.first))
      ensures Handles(message, luck, work, r)
    {
      var id, method_ := Find(members, ID), Find(members, METHOD);
      if method_.None? && (id.None? || Find(members, RESULT).Some? || Find(members, ERROR).Some?) {
        return Returned([]);
      }
      var valid := id.Some? && ValidId(id.value);
      if id.Some? && !valid {
        r := Report(luck.rest, Null, Said(message, work));
        return;
      }
      if id.None? { return Returned([]); }
      r := Report(luck.rest, id.value, Said(message, work));
    }

    /** A response, made if there is memory for it. */
    method Report(memory: bool, id: Json, body: Body) returns (r: Call<Text>)
      ensures r == if memory then Returned(Dump(Response(id, body))) else Thrown
    {
      r := if memory then Returned(Dump(Response(id, body))) else Thrown;
    }

    method Handle(message: Text, luck: Luck, work: Work) returns (r: Call<Text>)
      modifies this
      ensures match AnswerId(message, luck)
        case None => r == Returned([])
        case Some(id) =>
          if r.Returned? then r.value == Dump(Response(id, AnswerBody(message, luck, work)))
          else
            && !luck.report && kind != Notification && currentId == Dump(id)
            && (Failed(Recognised(message, luck.first)) || !luck.rest)
    {
      var request_id: Json;
      currentId, kind := NULL, Unknown;
      r, request_id := HandleMessage(message, luck, work);
      if r.Returned? { return; }
      if kind == Unknown || kind == IdLost { request_id := ReadAgain(message, luck.second, request_id); }
      if kind == Notification { return Returned([]); }
      if kind == IdLost || kind == Unknown { request_id := Null; }
      r := Report(luck.report, request_id, Error(INTERNAL_ERROR, INTERNAL + work.what));
    }

    /** The second attempt at the id of a message. */
    method ReadAgain(message: Text, a: Attempt, before: Json) returns (request_id: Json)
      requires Failed(kind) && currentId == NULL && |message| <= MAX_MESSAGE
      modifies this
      ensures var k := Recognised(message, a);
        && (if k == Unknown then kind == IdLost && currentId == NULL else Knows(message, k, request_id))
        && (k == WithoutId ==> request_id == before)
    {
      request_id := before;
      if !a.parse {
        kind := IdLost;
        return;
      }
      var parsed := ParseJson(message, MAX_DEPTH);
      if parsed.Ok? && parsed.value.Object? {
        var ok;
        ok, request_id := Identify(parsed.value.members, a, before);
        if !ok { kind := IdLost; }
      } else {
        kind := WithoutId;
      }
    }

    /**
      * What main writes for one line: the response, or nothing; and if handle did not return, the answer
      * it makes without memory, unless the message was a notification (after_failure).
      */
    method Respond(message: Text, luck: Luck, work: Work) returns (out: Option<Text>)
      modifies this
      ensures out == Answer(message, luck, work)
    {
      var r := Handle(message, luck, work);
      match r {
        case Returned(text) =>
          if text == [] {
            out := None;
          } else {
            out := Some(text);
          }
        case Thrown =>
          if kind != Notification {
            out := Some(OutOfMemory(currentId));
            OutOfMemoryIsResponse(AnswerId(message, luck).value);
          } else {
            out := None;
          }
      }
    }
  }

  // ---- The response that needs no memory

  function Quoted(w: Text): Text { [QUOTE] + w + [QUOTE] }

  /** The literal text main prints around the id. */
  function OutOfMemory(id: Text): Text {
    [OPEN_BRACE] + (Quoted(JSONRPC) + [COLON] + Quoted(Ascii("2.0")) + [COMMA] + (Quoted(ID) + [COLON] + id + [COMMA] +
    (Quoted(ERROR) + [COLON] +
     ([OPEN_BRACE] + (Quoted(Ascii("code")) + [COLON] + INTERNAL_ERROR + [COMMA] +
      (Quoted(Ascii("message")) + [COLON] + Quoted(INTERNAL + OUT_OF_MEMORY))) + [CLOSE_BRACE])))) + [CLOSE_BRACE]
  }

  predicate Plain(t: Text) {
    forall i :: 0 <= i < |t| ==> 0x20 <= t[i] && t[i] != 0x7F && t[i] != QUOTE && t[i] != BACKSLASH
  }

  lemma {:induction false} PlainIsNotEscaped(t: Text, i: nat)
    requires i <= |t| && Plain(t)
    ensures EscapeFrom(t, i) == t[i..]
    decreases |t| - i
  {
    if i < |t| {
      PlainIsNotEscaped(t, i + 1);
      assert t[i..] == [t[i]] + t[i + 1..];
    }
  }

  lemma PlainQuote(t: Text)
    requires Plain(t)
    ensures Quote(t) == Quoted(t)
  {
    PlainIsNotEscaped(t, 0);
    assert t[0..] == t;
  }

  lemma DumpOfResponse(id: Json, code: Text, message: Text)
    ensures Dump(Response(id, Error(code, message))) ==
      [OPEN_BRACE] + (Quote(JSONRPC) + [COLON] + Quote(Ascii("2.0")) + [COMMA] +
      (Quote(ID) + [COLON] + Dump(id) + [COMMA] +
      (Quote(ERROR) + [COLON] + Dump(ErrorObject(code, message))))) + [CLOSE_BRACE]
  {
    var a, b := Member(JSONRPC, String(Ascii("2.0"))), Member(ID, id);
    var c := Member(ERROR, ErrorObject(code, message));
    assert [a, b, c][1..] == [b, c] && [b, c][1..] == [c];
    assert DumpMembers([c]) == DumpMember(c);
    assert DumpMembers([b, c]) == DumpMember(b) + [COMMA] + DumpMember(c);
    assert DumpMembers([a, b, c]) == DumpMember(a) + [COMMA] + DumpMembers([b, c]);
  }

  lemma DumpOfError(code: Text, message: Text)
    ensures Dump(ErrorObject(code, message)) ==
      [OPEN_BRACE] + (Quote(Ascii("code")) + [COLON] + code + [COMMA] +
      (Quote(Ascii("message")) + [COLON] + Quote(message))) +
      [CLOSE_BRACE]
  {
    var a, b := Member(Ascii("code"), Number(code)), Member(Ascii("message"), String(message));
    assert [a, b][1..] == [b];
    assert DumpMembers([a, b]) == DumpMember(a) + [COMMA] + DumpMember(b);
  }

  /** Words without a control character, quote or backslash. */
  predicate PlainWords(w: string) {
    forall i :: 0 <= i < |w| ==> 0x20 as char <= w[i] < 0x7F as char && w[i] != '"' && w[i] != '\\'
  }

  lemma PlainAscii(w: string)
    requires PlainWords(w)
    ensures Plain(Ascii(w)) && Quote(Ascii(w)) == Quoted(Ascii(w))
  {
    PlainQuote(Ascii(w));
  }

  lemma NamesArePlain()
    ensures Quote(JSONRPC) == Quoted(JSONRPC) && Quote(ID) == Quoted(ID) && Quote(ERROR) == Quoted(ERROR)
  {
    PlainAscii("jsonrpc");
    PlainAscii("id");
    PlainAscii("error");
  }

  lemma OtherNamesArePlain()
    ensures Quote(Ascii("2.0")) == Quoted(Ascii("2.0"))
    ensures Quote(Ascii("code")) == Quoted(Ascii("code")) && Quote(Ascii("message")) == Quoted(Ascii("message"))
  {
    PlainAscii("2.0");
    PlainAscii("code");
    PlainAscii("message");
  }

  lemma PlainConcat(a: Text, b: Text)
    requires Plain(a) && Plain(b)
    ensures Quote(a + b) == Quoted(a + b)
  {
    assert Plain(a + b);
    PlainQuote(a + b);
  }

  lemma InternalIsPlain()
    ensures Plain(INTERNAL)
  {
    PlainAscii("Internal error: ");
  }

  lemma OutOfMemoryIsPlain()
    ensures Plain(OUT_OF_MEMORY)
  {
    PlainAscii("out of memory");
  }

  lemma WordsArePlain()
    ensures Quote(INTERNAL + OUT_OF_MEMORY) == Quoted(INTERNAL + OUT_OF_MEMORY)
  {
    InternalIsPlain();
    OutOfMemoryIsPlain();
    PlainConcat(INTERNAL, OUT_OF_MEMORY);
  }

  /** It is the text of an error response. */
  lemma OutOfMemoryIsResponse(id: Json)
    ensures OutOfMemory(Dump(id)) == Dump(Response(id, Error(INTERNAL_ERROR, INTERNAL + OUT_OF_MEMORY)))
  {
    DumpOfResponse(id, INTERNAL_ERROR, INTERNAL + OUT_OF_MEMORY);
    DumpOfError(INTERNAL_ERROR, INTERNAL + OUT_OF_MEMORY);
    NamesArePlain();
    OtherNamesArePlain();
    WordsArePlain();
  }
}
