/**
 * RepositoryClient: sends lookup, call and remove requests, each under a
 * fresh correlation id with a waiting response slot, and fills the slot
 * named by a response's correlation id when the response arrives.
 *
 * A requester's send-then-wait is split into a Begin step (the request
 * and its slot) and a Finish step (the slot's outcome once notified).
 */
module Client {
  import opened Bytes
  import opened Wrappers
  import opened Values
  import opened Handles
  import opened Wire
  import opened Repository
  import opened Service
  import opened Decimal

  /** Response (for lookup and remove) or CallResponse (for call). */
  datatype Kind = PlainSlot | CallSlot

  /** A response object in the response map, and whether its waiter has been notified. */
  datatype Slot = Slot(
    kind: Kind,
    notified: bool,
    response: Value,
    error: bool,
    exception: Option<string>,
    message: Option<string>)

  /** The client's correlation counter, its response map and its temporary reply queue. */
  datatype Client = Client(correlationID: i32, pending: map<i32, Slot>, replyQueue: Dest)

  function NewSlot(kind: Kind): (s: Slot)
    ensures s.kind == kind && !s.notified && s.response == Null && !s.error
  {
    Slot(kind, false, Null, false, None, None)
  }

  function NewClient(replyQueue: Dest): (c: Client)
    ensures c.correlationID == 0 && c.pending == map[]
  {
    Client(0, map[], replyQueue)
  }

  const READ_ERROR := "ReadError"
  const READ_ERROR_MESSAGE := "An error occured while decoding the message"

  /** Every waiting slot's id was handed out by the counter. */
  predicate Inv(c: Client) {
    c.correlationID >= 0 && forall k :: k in c.pending ==> 1 <= k <= c.correlationID
  }

  // ---------------------------------------------------------- requests

  /** ++correlationID, and a new waiting slot put under it. */
  function Allocate(c: Client, kind: Kind): (res: (Client, i32))
    ensures res.0.replyQueue == c.replyQueue && res.0.correlationID == res.1
    ensures res.1 in res.0.pending && res.0.pending[res.1] == NewSlot(kind)
    ensures forall k :: k != res.1 ==> (k in res.0.pending <==> k in c.pending)
    ensures forall k :: k != res.1 && k in c.pending ==> res.0.pending[k] == c.pending[k]
    ensures Inv(c) && c.correlationID < INT32_MAX ==> res.1 == c.correlationID + 1 && res.1 !in c.pending && Inv(res.0)
  {
    var id := Wrap32(c.correlationID + 1);
    (c.(correlationID := id, pending := c.pending[id := NewSlot(kind)]), id)
  }

  /** A request sent: the client afterwards, the message, its correlation id. */
  datatype Sent = Sent(client: Client, request: Message, cid: i32)

  /** A bytes message to `dest` under correlation id `cid`, answered on the client's reply queue. */
  function Request(c: Client, dest: Dest, cid: i32, body: seq<byte>): (m: Message)
    ensures m.isBytes && m.body == body && m.replyTo == Some(c.replyQueue)
    ensures m.correlationId.Some? && ParseInt(m.correlationId.value) == Some(cid)
  {
    ParseIntText(cid);
    Message(true, Some(dest), Some(IntText(cid)), Some(c.replyQueue), body)
  }

  /** Send `body` under a freshly allocated id, or fail before any id is taken. */
  function Send(c: Client, kind: Kind, dest: Dest, w: Written): (res: Result<Sent, Exn>)
    ensures !w.Complete() <==> res.Failure?
    ensures res.Failure? ==> res.error == w.failure.value
    ensures res.Success? ==> ((res.value.client, res.value.cid) == Allocate(c, kind)
                           && res.value.request == Request(c, dest, res.value.cid, w.bytes))
  {
    if !w.Complete() then Failure(w.failure.value)
    else
      var (c', id) := Allocate(c, kind);
      Success(Sent(c', Request(c, dest, id, w.bytes), id))
  }

  /**
   * invoke, up to the send: the call type byte and the encoded call to
   * the handle's queue. Handles made for exported arguments stay made
   * even when the write then fails.
   */
  function BeginInvoke(c: Client, r: Repo, h: ObjectHandle, m: MethodSig, args: Option<seq<Value>>): (res: (Repo, Result<Sent, Exn>))
    ensures !ArityMatches(m.params, args) ==> res == (r, Failure(ARITY_MISMATCH))
    ensures res.1.Success? ==> (res.1.value.request.dest == Some(Queue(h.key.queue))
                             && res.1.value.cid in res.1.value.client.pending
                             && res.1.value.client.pending[res.1.value.cid].kind == CallSlot
                             && res.1.value.request.body
                                == WriteValue(Byte(MESSAGE_CALL)).bytes + EncodeMethodCall(r, h, m, args).out.bytes)
  {
    var e := EncodeMethodCall(r, h, m, args);
    (e.repo, Send(c, CallSlot, Queue(h.key.queue), Then(WriteValue(Byte(MESSAGE_CALL)), e.out)))
  }

  /** The queue a lookup for endpoint `id` goes to (string concatenation renders null as "null"). */
  function RequestQueue(id: Option<string>): Dest {
    Queue(Some(OrNull(id) + "-request"))
  }

  /** lookup, up to the send: the lookup type byte and the interface's name. */
  function BeginLookup(c: Client, id: Option<string>, iface: Type): (res: Result<Sent, Exn>)
    ensures res.Success? <==> WriteValue(Str(TypeName(iface))).Complete()
    ensures res.Success? ==> (res.value.request.dest == Some(RequestQueue(id))
                           && res.value.request.body
                              == WriteValue(Byte(MESSAGE_LOOKUP)).bytes + WriteValue(Str(TypeName(iface))).bytes)
  {
    Send(c, PlainSlot, RequestQueue(id), Then(WriteValue(Byte(MESSAGE_LOOKUP)), WriteValue(Str(TypeName(iface)))))
  }

  /** remove, up to the send: the remove type byte and the handle, to the handle's queue. */
  function BeginRemove(c: Client, h: ObjectHandle): (res: Result<Sent, Exn>)
    ensures res.Success? <==> WriteValue(HandleRef(h)).Complete()
    ensures res.Success? ==> (res.value.request.dest == Some(Queue(h.key.queue))
                           && res.value.request.body
                              == WriteValue(Byte(MESSAGE_REMOVE)).bytes + WriteValue(HandleRef(h)).bytes)
  {
    Send(c, PlainSlot, Queue(h.key.queue), Then(WriteValue(Byte(MESSAGE_REMOVE)), WriteValue(HandleRef(h))))
  }

  // ---------------------------------------------------------- outcomes

  /** A requester still waiting, or woken with the slot removed and its result. */
  datatype Outcome<T> = Waiting | Finished(client: Client, repo: Repo, result: Result<T, Exn>)

  /** The exception invoke throws for an error response. */
  function RemoteError(s: Slot): (e: Exn)
    ensures e.name == "java.lang.Exception" && e.message.Some?
  {
    Exn("java.lang.Exception", Some("RemoteError: " + OrNull(s.exception) + ":" + OrNull(s.message)))
  }

  /** The client once a woken requester has removed its slot. */
  function Removed(c: Client, cid: i32): (c': Client)
    ensures c'.correlationID == c.correlationID && c'.replyQueue == c.replyQueue
    ensures cid !in c'.pending && forall k :: k != cid ==> (k in c'.pending <==> k in c.pending)
    ensures forall k :: k in c'.pending ==> c'.pending[k] == c.pending[k]
  {
    c.(pending := c.pending - {cid})
  }

  predicate Woken(c: Client, cid: i32) {
    cid in c.pending && c.pending[cid].notified
  }

  /**
   * invoke, after the wait: an error response becomes RemoteError; a
   * handle becomes the local object or a proxy; any other value is the result.
   */
  function FinishInvoke(c: Client, r: Repo, cp: ClassPath, cid: i32): (res: Outcome<Value>)
    ensures !Woken(c, cid) <==> res.Waiting?
    ensures res.Finished? ==> res.client == Removed(c, cid)
    ensures res.Finished? && c.pending[cid].error ==> res.repo == r && res.result == Failure(RemoteError(c.pending[cid]))
    ensures res.Finished? && !c.pending[cid].error && !c.pending[cid].response.HandleRef? ==>
      res.repo == r && res.result == Success(c.pending[cid].response)
    ensures res.Finished? && !c.pending[cid].error && c.pending[cid].response.HandleRef? ==>
      var l := LookupHandle(r, cp, Some(c.pending[cid].response.h)).value;
      res.repo == l.0 && res.result == Success(l.1)
  {
    if !Woken(c, cid) then Waiting
    else
      var s := c.pending[cid];
      if s.error then Finished(Removed(c, cid), r, Failure(RemoteError(s)))
      else if s.response.HandleRef? then
        var (r', v) := LookupHandle(r, cp, Some(s.response.h)).value;
        Finished(Removed(c, cid), r', Success(v))
      else Finished(Removed(c, cid), r, Success(s.response))
  }

  /** lookup, after the wait: whatever the response handler stored. */
  function FinishLookup(c: Client, r: Repo, cid: i32): (res: Outcome<Value>)
    ensures !Woken(c, cid) <==> res.Waiting?
    ensures res.Finished? ==> res == Finished(Removed(c, cid), r, Success(c.pending[cid].response))
  {
    if !Woken(c, cid) then Waiting
    else Finished(Removed(c, cid), r, Success(c.pending[cid].response))
  }

  /** remove, after the wait: the stored Boolean, unboxed (a false one is only logged). */
  function FinishRemove(c: Client, r: Repo, cid: i32): (res: Outcome<bool>)
    ensures !Woken(c, cid) <==> res.Waiting?
    ensures res.Finished? ==> res.client == Removed(c, cid) && res.repo == r
    ensures res.Finished? ==>
      match c.pending[cid].response
      case Bool(b) => res.result == Success(b)
      case Null => res.result == Failure(NULL_POINTER)
      case _ => res.result == Failure(CLASS_CAST)
  {
    if !Woken(c, cid) then Waiting
    else
      var v := c.pending[cid].response;
      var res := if v.Bool? then Success(v.z) else if v.Null? then Failure(NULL_POINTER) else Failure(CLASS_CAST);
      Finished(Removed(c, cid), r, res)
  }

  // ---------------------------------------------------------- responses

  /** Integer.parseInt of the correlation id; a missing id does not parse. */
  function ParseId(cid: Option<string>): Option<i32> {
    if cid.Some? then ParseInt(cid.value) else None
  }

  /** `c'` is `c` with at most the slot `id` changed, and that one notified, of the same kind. */
  predicate OnlySlot(c: Client, c': Client, id: Option<i32>) {
    && c'.correlationID == c.correlationID && c'.replyQueue == c.replyQueue
    && c'.pending.Keys == c.pending.Keys
    && (forall k :: k in c.pending && Some(k) != id ==> c'.pending[k] == c.pending[k])
    && (forall k :: k in c.pending && c'.pending[k] != c.pending[k] ==> c'.pending[k].notified && c'.pending[k].kind == c.pending[k].kind)
  }

  /** The catch-all of handleCallResponse: the fixed ReadError exception and message. */
  function ReadError(s: Slot): (s': Slot)
    ensures s'.error && s'.exception == Some(READ_ERROR) && s'.message == Some(READ_ERROR_MESSAGE)
    ensures s'.response == s.response && s'.kind == s.kind && s'.notified == s.notified
  {
    s.(error := true, exception := Some(READ_ERROR), message := Some(READ_ERROR_MESSAGE))
  }

  /** A `(String)` cast of a read value: a string or null, else a ClassCastException. */
  function CastString(v: Value): Option<Option<string>> {
    match v
    case Str(s) => Some(Some(s))
    case Null => Some(None)
    case _ => None
  }

  /**
   * The error branch: exception class name then message, each cast to a
   * string before the next value is read.
   */
  function ErrorFields(s: Slot, t: seq<byte>, cp: ClassPath, next: nat): (res: (Slot, nat))
    ensures res.0.error && res.0.response == s.response && res.0.kind == s.kind && res.0.notified == s.notified
    ensures res.1 >= next
  {
    match ReadValue(t, cp, next)
    case Failure(_) => (ReadError(s), next)
    case Success(Decoded(ev, t2, n2)) =>
      match CastString(ev)
      case None => (ReadError(s), n2)
      case Some(exception) =>
        match ReadValue(t2, cp, n2)
        case Failure(_) => (ReadError(s), n2)
        case Success(Decoded(mv, _, n3)) =>
          match CastString(mv)
          case None => (ReadError(s), n3)
          case Some(message) => (s.(error := true, exception := exception, message := message), n3)
  }

  /** The body of handleCallResponse's try: the error byte, then the value or the error's fields. */
  function CallFields(s: Slot, body: seq<byte>, cp: ClassPath, next: nat): (res: (Slot, nat))
    ensures res.0.kind == s.kind && res.0.notified == s.notified
    ensures res.1 >= next
  {
    match ReadValue(body, cp, next)
    case Success(Decoded(Byte(b), t, n)) =>
      if b == CALL_SUCCESS then
        match ReadValue(t, cp, n)
        case Success(Decoded(v, _, n2)) => (s.(response := v), n2)
        case Failure(_) => (ReadError(s), n)
      else ErrorFields(s, t, cp, n)
    case Success(Decoded(_, _, n)) => (ReadError(s), n)
    case Failure(_) => (ReadError(s), next)
  }

  /** handleCallResponse: fill and notify the call slot named by the correlation id. */
  function HandleCallResponse(c: Client, r: Repo, cp: ClassPath, cid: Option<string>, body: seq<byte>): (res: (Client, Repo))
    ensures OnlySlot(c, res.0, ParseId(cid))
    ensures res.1 == r.(next := res.1.next) && res.1.next >= r.next
    ensures var id := ParseId(cid);
      id.Some? && id.value in c.pending && c.pending[id.value].kind == CallSlot ==>
        res.0.pending[id.value].notified
  {
    match ParseId(cid)
    case None => (c, r)
    case Some(k) =>
      if k !in c.pending || c.pending[k].kind != CallSlot then (c, r)
      else
        var (s, n) := CallFields(c.pending[k], body, cp, r.next);
        (c.(pending := c.pending[k := s.(notified := true)]), r.(next := n))
  }

  /** The slot `k` set to `v` and notified. */
  function Notify(c: Client, k: i32, v: Value): (c': Client)
    requires k in c.pending
    ensures OnlySlot(c, c', Some(k)) && c'.pending[k].notified && c'.pending[k].response == v
  {
    c.(pending := c.pending[k := c.pending[k].(response := v, notified := true)])
  }

  /**
   * handleLookupResponse as written: the read value cast to a handle is
   * passed to lookupHandle, which throws for null, so an empty answer
   * never wakes its waiter.
   */
  function HandleLookupResponseAsWritten(c: Client, r: Repo, cp: ClassPath, cid: Option<string>, body: seq<byte>): (res: (Client, Repo))
    ensures OnlySlot(c, res.0, ParseId(cid))
  {
    match ReadValue(body, cp, r.next)
    case Failure(_) => (c, r)
    case Success(Decoded(v, _, _)) =>
      if !(v.HandleRef? || v.Null?) then (c, r)
      else
        match ParseId(cid)
        case None => (c, r)
        case Some(k) =>
          if k !in c.pending then (c, r)
          else
            match LookupHandle(r, cp, if v.HandleRef? then Some(v.h) else None)
            case Failure(_) => (c, r)
            case Success((r', w)) => (Notify(c, k, w), r')
  }

  /** handleLookupResponse with a null handle answered as null, waking the waiter. */
  function HandleLookupResponse(c: Client, r: Repo, cp: ClassPath, cid: Option<string>, body: seq<byte>): (res: (Client, Repo))
    ensures OnlySlot(c, res.0, ParseId(cid))
  {
    match ReadValue(body, cp, r.next)
    case Failure(_) => (c, r)
    case Success(Decoded(v, _, _)) =>
      if !(v.HandleRef? || v.Null?) then (c, r)
      else
        match ParseId(cid)
        case None => (c, r)
        case Some(k) =>
          if k !in c.pending then (c, r)
          else if v.Null? then (Notify(c, k, Null), r)
          else
            var (r', w) := LookupHandle(r, cp, Some(v.h)).value;
            (Notify(c, k, w), r')
  }

  /** handleMessageRemoveResponse: store the read Boolean in the slot and notify it. */
  function HandleRemoveResponse(c: Client, r: Repo, cp: ClassPath, cid: Option<string>, body: seq<byte>): (res: (Client, Repo))
    ensures OnlySlot(c, res.0, ParseId(cid)) && res.1 == r
  {
    match ParseId(cid)
    case None => (c, r)
    case Some(k) =>
      match ReadValue(body, cp, r.next)
      case Success(Decoded(Bool(b), _, _)) =>
        if k in c.pending then (Notify(c, k, Bool(b)), r) else (c, r)
      case _ => (c, r)
  }

  /**
   * onMessage's routing: only bytes messages; the type byte picks the
   * handler, with lookup answers going to the handler as written or to the
   * corrected one; anything thrown ends the response's handling.
   */
  function Route(c: Client, r: Repo, cp: ClassPath, m: Message, corrected: bool): (res: (Client, Repo))
    ensures OnlySlot(c, res.0, ParseId(m.correlationId))
    ensures res.1.list == r.list && res.1.published == r.published && res.1.exported == r.exported
    ensures !m.isBytes || RequestType(m.body, cp, r.next).None? ==> res == (c, r)
  {
    if !m.isBytes then (c, r)
    else
      match RequestType(m.body, cp, r.next)
      case None => (c, r)
      case Some((t, rest)) =>
        if t == MESSAGE_LOOKUP then
          if corrected then HandleLookupResponse(c, r, cp, m.correlationId, rest)
          else HandleLookupResponseAsWritten(c, r, cp, m.correlationId, rest)
        else if t == MESSAGE_CALL then HandleCallResponse(c, r, cp, m.correlationId, rest)
        else if t == MESSAGE_REMOVE then HandleRemoveResponse(c, r, cp, m.correlationId, rest)
        else (c, r)
  }

  /** onMessage as written: a null lookup answer is handed to lookupHandle and is lost. */
  function OnResponseAsWritten(c: Client, r: Repo, cp: ClassPath, m: Message): (res: (Client, Repo))
    ensures OnlySlot(c, res.0, ParseId(m.correlationId))
    ensures res.1.list == r.list && res.1.published == r.published && res.1.exported == r.exported
    ensures !m.isBytes || RequestType(m.body, cp, r.next).None? ==> res == (c, r)
  {
    Route(c, r, cp, m, false)
  }

  /** onMessage with the corrected lookup handler, which answers null with null. */
  function OnResponse(c: Client, r: Repo, cp: ClassPath, m: Message): (res: (Client, Repo))
    ensures OnlySlot(c, res.0, ParseId(m.correlationId))
    ensures res.1.list == r.list && res.1.published == r.published && res.1.exported == r.exported
    ensures !m.isBytes || RequestType(m.body, cp, r.next).None? ==> res == (c, r)
  {
    Route(c, r, cp, m, true)
  }
}
