/**
 * RepositoryService: the request listener of an endpoint. A request's
 * first value is its type byte; lookups, calls and removes are answered
 * on the request's reply-to destination under its correlation id.
 */
module Service {
  import opened Bytes
  import opened Wrappers
  import opened Values
  import opened Handles
  import opened Wire
  import opened Repository

  const MESSAGE_LOOKUP: i8 := 1
  const MESSAGE_CALL: i8 := 2
  const MESSAGE_REMOVE: i8 := 3
  const CALL_SUCCESS: i8 := 0
  const CALL_ERROR: i8 := 1

  /** A destination: a named queue, or the temporary reply queue of client `owner`. */
  datatype Dest = Queue(name: Option<string>) | ReplyQueue(owner: nat)

  /** A JMS message as the endpoints use it: kind, addressing, and the body's bytes. */
  datatype Message = Message(
    isBytes: bool,
    dest: Option<Dest>,
    correlationId: Option<string>,
    replyTo: Option<Dest>,
    body: seq<byte>)

  /** The answer to `m`, addressed to its reply-to destination under its correlation id. */
  function Reply(m: Message, body: seq<byte>): (out: Message)
    ensures out.dest == m.replyTo && out.correlationId == m.correlationId && out.isBytes && out.body == body
  {
    Message(true, m.replyTo, m.correlationId, None, body)
  }

  /** The endpoint's state across requests. */
  datatype Endpoint = Endpoint(repo: Repo, cp: ClassPath, withClient: bool, behave: Behaviour)

  /** The error answer's tail: CALL_ERROR, the exception's class name, its message. */
  function ErrorTail(e: Exn): Written {
    Then(WriteValue(Byte(CALL_ERROR)), Then(WriteValue(Str(e.name)), WriteValue(StringOrNull(e.message))))
  }

  /**
   * The body of a call's answer: success and the value, or, if invoking
   * or writing the value throws, error and the exception after whatever
   * was already written.
   */
  function CallAnswer(result: Result<(Repo, Value), Exn>): (w: Written) {
    var head := WriteValue(Byte(MESSAGE_CALL));
    match result
    case Failure(e) => Then(head, ErrorTail(e))
    case Success((_, v)) =>
      var ok := Then(head, Then(WriteValue(Byte(CALL_SUCCESS)), WriteValue(v)));
      if ok.Complete() then ok else Then(Written(ok.bytes, None), ErrorTail(ok.failure.value))
  }

  /** Both the success and the error answer begin with the call's type byte. */
  lemma CallAnswerTyped(result: Result<(Repo, Value), Exn>)
    ensures CallAnswer(result).Complete() ==> Typed(CallAnswer(result).bytes, MESSAGE_CALL)
  {
    var head := WriteValue(Byte(MESSAGE_CALL));
    match result
    case Failure(e) => TypedWrite(MESSAGE_CALL, ErrorTail(e));
    case Success((_, v)) =>
      var tail := Then(WriteValue(Byte(CALL_SUCCESS)), WriteValue(v));
      var ok := Then(head, tail);
      TypedWrite(MESSAGE_CALL, tail);
      if !ok.Complete() {
        var w := Then(Written(ok.bytes, None), ErrorTail(ok.failure.value));
        assert w.bytes == ok.bytes + ErrorTail(ok.failure.value).bytes;
        assert w.bytes[..2] == ok.bytes[..2];
      }
  }

  /** A reply if its body was written completely; otherwise the exception ends the request. */
  function Answer(m: Message, w: Written): (out: Option<Message>)
    ensures out.Some? <==> w.Complete() && m.replyTo.Some?
    ensures out.Some? ==> out.value == Reply(m, w.bytes)
  {
    if w.Complete() && m.replyTo.Some? then Some(Reply(m, w.bytes)) else None
  }

  /** A body whose first value is the type byte `t`. */
  predicate Typed(body: seq<byte>, t: i8) {
    |body| >= 2 && body[..2] == [BYTE] + Int8Bytes(t)
  }

  /** Whatever follows a written type byte, the whole write begins with that byte. */
  lemma TypedWrite(t: i8, tail: Written)
    ensures Typed(Then(WriteValue(Byte(t)), tail).bytes, t)
  {
    var w := Then(WriteValue(Byte(t)), tail);
    assert WriteValue(Byte(t)).bytes == [BYTE] + Int8Bytes(t);
    assert w.bytes == [BYTE] + Int8Bytes(t) + tail.bytes;
  }

  /** The type byte and what follows it, or None when the first value is not a Byte. */
  function RequestType(body: seq<byte>, cp: ClassPath, next: nat): (res: Option<(i8, seq<byte>)>)
    ensures res.Some? ==> |res.value.1| < |body|
    ensures res.Some? <==> ReadValue(body, cp, next).Success? && ReadValue(body, cp, next).value.value.Byte?
    ensures res.Some? ==> res.value == (ReadValue(body, cp, next).value.value.b, ReadValue(body, cp, next).value.rest)
  {
    match ReadValue(body, cp, next)
    case Success(Decoded(Byte(t), rest, _)) => Some((t, rest))
    case _ => None
  }

  /** handleLookup: load the interface by name and answer with its handle or null. */
  function HandleLookup(r: Repo, cp: ClassPath, m: Message, rest: seq<byte>): (res: (Repo, Option<Message>))
    ensures res.1.Some? ==> res.1.value == Reply(m, res.1.value.body) && Typed(res.1.value.body, MESSAGE_LOOKUP)
    ensures res.0.published == r.published && res.0.exported == r.exported
  {
    match ReadValue(rest, cp, r.next)
    case Success(Decoded(Str(name), _, _)) =>
      if name !in cp then (r, None)
      else
        var (r', h) := Lookup(r, Class(name, cp[name].isInterface));
        TypedWrite(MESSAGE_LOOKUP, WriteValue(if h.Some? then HandleRef(h.value) else Null));
        (r', Answer(m, Then(WriteValue(Byte(MESSAGE_LOOKUP)), WriteValue(if h.Some? then HandleRef(h.value) else Null))))
    case _ => (r, None)
  }

  /** The call branch: invoke, then answer success or error. */
  function HandleCall(ep: Endpoint, m: Message, rest: seq<byte>): (res: (Repo, Option<Message>))
    ensures res.1.Some? ==> res.1.value == Reply(m, res.1.value.body) && Typed(res.1.value.body, MESSAGE_CALL)
    ensures res.0.published == ep.repo.published && res.0.exported == ep.repo.exported
  {
    var result := Invoke(ep.repo, rest, ep.cp, ep.withClient, ep.behave);
    var r' := if result.Success? then result.value.0 else ep.repo;
    CallAnswerTyped(result);
    (r', Answer(m, CallAnswer(result)))
  }

  /** The remove branch: release the handle and answer whether it was known. */
  function HandleRemove(r: Repo, cp: ClassPath, m: Message, rest: seq<byte>): (res: (Repo, Option<Message>))
    ensures res.1.Some? ==> res.1.value == Reply(m, res.1.value.body) && Typed(res.1.value.body, MESSAGE_REMOVE)
    ensures res.0.published == r.published && res.0.exported == r.exported
  {
    match ReadValue(rest, cp, r.next)
    case Success(Decoded(v, _, _)) =>
      if !(v.HandleRef? || v.Null?) then (r, None)
      else
        var (r', ok) := RemoveObject(r, if v.HandleRef? then Some(v.h) else None);
        TypedWrite(MESSAGE_REMOVE, WriteValue(Bool(ok)));
        (r', Answer(m, Then(WriteValue(Byte(MESSAGE_REMOVE)), WriteValue(Bool(ok)))))
    case _ => (r, None)
  }

  /**
   * onMessage: only bytes messages are served; the type byte selects the
   * branch; anything thrown along the way ends the request unanswered.
   */
  function OnMessage(ep: Endpoint, m: Message): (res: (Repo, Option<Message>))
    ensures res.1.Some? ==> res.1.value.dest == m.replyTo && res.1.value.correlationId == m.correlationId
    ensures !m.isBytes || RequestType(m.body, ep.cp, ep.repo.next).None? ==> res == (ep.repo, None)
    ensures res.1.Some? ==>
      var t := RequestType(m.body, ep.cp, ep.repo.next).value.0;
      (t == MESSAGE_LOOKUP || t == MESSAGE_CALL || t == MESSAGE_REMOVE) && Typed(res.1.value.body, t)
    ensures res.0.published == ep.repo.published && res.0.exported == ep.repo.exported
  {
    if !m.isBytes then (ep.repo, None)
    else
      match RequestType(m.body, ep.cp, ep.repo.next)
      case None => (ep.repo, None)
      case Some((t, rest)) =>
        if t == MESSAGE_LOOKUP then HandleLookup(ep.repo, ep.cp, m, rest)
        else if t == MESSAGE_CALL then HandleCall(ep, m, rest)
        else if t == MESSAGE_REMOVE then HandleRemove(ep.repo, ep.cp, m, rest)
        else (ep.repo, None)
  }
}
