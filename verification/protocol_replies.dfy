/** What a message is answered with while memory lasts, by the bytes of its members. */
module ProtocolReplies {
  import opened Bytes
  import opened Decimal
  import opened Json
  import opened JsonParse
  import opened Protocol

  // ---- Messages, by their members

  const ID_NAME: Text := [105, 100]
  const METHOD_NAME: Text := [109, 101, 116, 104, 111, 100]
  const RESULT_NAME: Text := [114, 101, 115, 117, 108, 116]
  const ERROR_NAME: Text := [101, 114, 114, 111, 114]
  const VERSION_NAME: Text := [106, 115, 111, 110, 114, 112, 99]
  const PARAMS_NAME: Text := [112, 97, 114, 97, 109, 115]
  const CODE_NAME: Text := [99, 111, 100, 101]
  const MESSAGE_NAME: Text := [109, 101, 115, 115, 97, 103, 101]
  const VERSION: Json := String([50, 46, 48])

  /** A message of no more than four mebibytes that is an object of the members. */
  ghost predicate IsObjectOf(message: Text, members: seq<Member>) {
    && |message| <= 4194304 && ParseJson(message, 64).Ok? && ParseJson(message, 64).value == Object(members)
  }

  /** A string, or a number written without a point and without an exponent. */
  predicate CanBeId(id: Json) {
    || id.String?
    || (id.Number? && forall i :: 0 <= i < |id.number| ==>
          id.number[i] != 46 && id.number[i] != 101 && id.number[i] != 69)
  }

  /** What the client sends when it answers: no method, and a result or an error. */
  ghost predicate AnswersOurs(members: seq<Member>) {
    NoneNamed(members, METHOD_NAME) && !(NoneNamed(members, RESULT_NAME) && NoneNamed(members, ERROR_NAME))
  }

  ghost predicate AsksWith(members: seq<Member>, id: Json) {
    LastNamed(members, ID_NAME, id) && !AnswersOurs(members)
  }

  lemma NamesAre()
    ensures ID == ID_NAME && METHOD == METHOD_NAME && RESULT == RESULT_NAME && ERROR == ERROR_NAME
    ensures JSONRPC == VERSION_NAME && Ascii("params") == PARAMS_NAME && Ascii("2.0") == VERSION.text
    ensures Ascii("code") == CODE_NAME && Ascii("message") == MESSAGE_NAME
  {
  }

  lemma CodesAre()
    ensures INVALID_REQUEST == [45, 51, 50, 54, 48, 48] && PARSE_ERROR == [45, 51, 50, 55, 48, 48]
    ensures INVALID_PARAMS == [45, 51, 50, 54, 48, 50] && INTERNAL_ERROR == [45, 51, 50, 54, 48, 51]
  {
  }

  /** What the members say, as Protocol asks for it. */
  lemma Found(message: Text, members: seq<Member>)
    requires IsObjectOf(message, members)
    ensures ObjectOf(message) == Some(members)
    ensures forall v :: Find(members, ID) == Some(v) <==> LastNamed(members, ID_NAME, v)
    ensures Find(members, ID).None? <==> NoneNamed(members, ID_NAME)
    ensures IsClientResponse(message) <==> Find(members, ID).Some? && AnswersOurs(members)
  {
    NamesAre();
    FindIsLast(members, ID);
    FindIsLast(members, METHOD);
    FindIsLast(members, RESULT);
    FindIsLast(members, ERROR);
  }

  // ---- Replies

  function Lasts(a: Attempt): bool { a.parse && a.copy && a.text }

  function Reply(id: Json, member: Member): Text {
    Dump(Object([Member(VERSION_NAME, VERSION), Member(ID_NAME, id), member]))
  }

  function ErrorMember(code: Text, words: Text): Member {
    Member(ERROR_NAME, Object([Member(CODE_NAME, Number(code)), Member(MESSAGE_NAME, String(words))]))
  }

  lemma ReplyIs(id: Json, body: Body)
    ensures Dump(Response(id, body)) == Reply(id, match body
      case Result(v) => Member(RESULT_NAME, v)
      case Error(code, words) => ErrorMember(code, words))
  {
    NamesAre();
  }

  /** An id that can be one comes back whenever one of the attempts has memory for it. */
  lemma IdComesBack(message: Text, members: seq<Member>, id: Json, luck: Luck)
    requires IsObjectOf(message, members) && AsksWith(members, id) && CanBeId(id)
    requires Lasts(luck.first) || Lasts(luck.second)
    ensures AnswerId(message, luck) == Some(id)
  {
    Found(message, members);
  }

  /** Any other value for an id is refused, with null and -32600. */
  lemma OtherIdsAreRefused(message: Text, members: seq<Member>, id: Json, luck: Luck, work: Work)
    requires IsObjectOf(message, members) && AsksWith(members, id) && !CanBeId(id) && luck.first.parse && luck.rest
    ensures Answer(message, luck, work) ==
      Some(Reply(Null, ErrorMember([45, 51, 50, 54, 48, 48], work.words(BadId))))
  {
    Found(message, members);
    CodesAre();
    ReplyIs(Null, Error(INVALID_REQUEST, work.words(BadId)));
  }

  /** Version 2.0 and a method that is a string. */
  ghost predicate IsCall(members: seq<Member>) {
    LastNamed(members, VERSION_NAME, VERSION) && exists m :: LastNamed(members, METHOD_NAME, String(m))
  }

  ghost predicate ParamsAreObject(members: seq<Member>) {
    NoneNamed(members, PARAMS_NAME) || exists ps :: LastNamed(members, PARAMS_NAME, Object(ps))
  }

  lemma CallsAre(members: seq<Member>)
    ensures WellFormedRequest(members) <==> IsCall(members)
    ensures BadParams(members) <==> !ParamsAreObject(members)
  {
    NamesAre();
    FindIsLast(members, JSONRPC);
    FindIsLast(members, METHOD);
    FindIsLast(members, Ascii("params"));
    var method_, params := Find(members, METHOD), Find(members, Ascii("params"));
    if method_.Some? && method_.value.String? { assert LastNamed(members, METHOD_NAME, String(method_.value.text)); }
    if params.Some? && params.value.Object? { assert LastNamed(members, PARAMS_NAME, Object(params.value.members)); }
  }

  /** A request that can be answered is, with its id: the outcome, or why there is none. */
  lemma RequestsAreServed(message: Text, members: seq<Member>, id: Json, luck: Luck, work: Work)
    requires IsObjectOf(message, members) && AsksWith(members, id) && CanBeId(id) && Lasts(luck.first) && luck.rest
    ensures Answer(message, luck, work) == Some(Reply(id,
      if !IsCall(members) then ErrorMember([45, 51, 50, 54, 48, 48], work.words(BadRequest))
      else if !ParamsAreObject(members) then ErrorMember([45, 51, 50, 54, 48, 50], work.words(ParamsNotObject))
      else match work.body
        case Result(v) => Member(RESULT_NAME, v)
        case Error(code, words) => ErrorMember(code, words)))
  {
    Found(message, members);
    CodesAre();
    CallsAre(members);
    ReplyIs(id, Said(message, work));
  }

  /** What is no object of members is refused with null: -32700 for no JSON, -32600 for the rest. */
  lemma OthersAreRefused(message: Text, luck: Luck, work: Work)
    requires |message| > 4194304 || !(ParseJson(message, 64).Ok? && ParseJson(message, 64).value.Object?)
    requires luck.first.parse && luck.rest
    ensures Answer(message, luck, work) == Some(Reply(Null,
      if |message| > 4194304 then ErrorMember([45, 51, 50, 54, 48, 48], work.words(TooLarge))
      else match ParseJson(message, 64)
        case Err(e, at) => ErrorMember([45, 51, 50, 55, 48, 48], work.words(NotJson(e, at)))
        case Ok(_, _) => ErrorMember([45, 51, 50, 54, 48, 48], work.words(NotObject))))
  {
    CodesAre();
    ReplyIs(Null, Said(message, work));
  }

  /** What the client sends without an id, or in answer, gets no reply. */
  lemma OthersAreSilent(message: Text, members: seq<Member>, luck: Luck, work: Work)
    requires IsObjectOf(message, members) && Lasts(luck.first)
    requires NoneNamed(members, ID_NAME) || AnswersOurs(members)
    ensures Answer(message, luck, work).None?
  {
    Found(message, members);
  }

  /** "Internal error: " and "out of memory". */
  lemma WordsAre()
    ensures INTERNAL == [73, 110, 116, 101, 114, 110, 97, 108, 32, 101, 114, 114, 111, 114, 58, 32]
    ensures OUT_OF_MEMORY == [111, 117, 116, 32, 111, 102, 32, 109, 101, 109, 111, 114, 121]
  {
  }

  /** Where memory runs out once the id is known, the reply is -32603 with the id and, if it can be said, the reason. */
  lemma FailuresAreReported(message: Text, members: seq<Member>, id: Json, luck: Luck, work: Work)
    requires IsObjectOf(message, members) && AsksWith(members, id) && CanBeId(id)
    requires Lasts(luck.first) || Lasts(luck.second)
    requires !(Lasts(luck.first) && luck.rest)
    ensures Answer(message, luck, work) == Some(Reply(id, ErrorMember([45, 51, 50, 54, 48, 51],
      [73, 110, 116, 101, 114, 110, 97, 108, 32, 101, 114, 114, 111, 114, 58, 32] +
      if luck.report then work.what else [111, 117, 116, 32, 111, 102, 32, 109, 101, 109, 111, 114, 121])))
  {
    Found(message, members);
    CodesAre();
    WordsAre();
    IdComesBack(message, members, id, luck);
    ReplyIs(id, AnswerBody(message, luck, work));
  }
}
