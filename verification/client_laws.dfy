/** What the client does with each kind of response, and how it allocates ids. */
module ClientLaws {
  import opened Bytes
  import opened Wrappers
  import opened Values
  import opened Handles
  import opened Wire
  import opened WireLaws
  import opened WireFacts
  import opened Repository
  import opened Service
  import opened Client
  import ServiceLaws

  /** The fresh client keeps the invariant. */
  lemma NewClientInv(q: Dest)
    ensures Inv(NewClient(q))
  {
  }

  /**
   * Two requests in a row get different correlation ids, and the second
   * leaves the first one's slot waiting, so neither answer lands in the
   * other's slot.
   */
  lemma SuccessiveIdsDistinct(c: Client, k1: Kind, k2: Kind)
    requires Inv(c) && c.correlationID < INT32_MAX - 1
    ensures var (c1, a) := Allocate(c, k1);
      var (c2, b) := Allocate(c1, k2);
      && a != b && a in c2.pending && c2.pending[a] == NewSlot(k1) && Inv(c2)
  {
    var (c1, a) := Allocate(c, k1);
    assert Inv(c1) && c1.correlationID < INT32_MAX;
  }

  /** onMessage's dispatch on the response's type byte. */
  lemma ResponseDispatch(c: Client, r: Repo, cp: ClassPath, m: Message, t: i8, payload: seq<byte>)
    requires m.isBytes && m.body == WriteValue(Byte(t)).bytes + payload
    ensures OnResponse(c, r, cp, m) ==
      if t == MESSAGE_LOOKUP then HandleLookupResponse(c, r, cp, m.correlationId, payload)
      else if t == MESSAGE_CALL then HandleCallResponse(c, r, cp, m.correlationId, payload)
      else if t == MESSAGE_REMOVE then HandleRemoveResponse(c, r, cp, m.correlationId, payload)
      else (c, r)
  {
    ServiceLaws.RequestTypeOf(t, payload, cp, r.next);
  }

  /** onMessage as written routes the same way, its lookup branch being the handler as written. */
  lemma ResponseDispatchAsWritten(c: Client, r: Repo, cp: ClassPath, m: Message, t: i8, payload: seq<byte>)
    requires m.isBytes && m.body == WriteValue(Byte(t)).bytes + payload
    ensures OnResponseAsWritten(c, r, cp, m) ==
      if t == MESSAGE_LOOKUP then HandleLookupResponseAsWritten(c, r, cp, m.correlationId, payload)
      else if t == MESSAGE_CALL then HandleCallResponse(c, r, cp, m.correlationId, payload)
      else if t == MESSAGE_REMOVE then HandleRemoveResponse(c, r, cp, m.correlationId, payload)
      else (c, r)
  {
    ServiceLaws.RequestTypeOf(t, payload, cp, r.next);
  }

  /** A lookup answer whose value reads as null: the one response the two routings treat apart. */
  predicate NullLookupAnswer(m: Message, cp: ClassPath, next: nat) {
    && m.isBytes
    && RequestType(m.body, cp, next).Some?
    && RequestType(m.body, cp, next).value.0 == MESSAGE_LOOKUP
    && ReadValue(RequestType(m.body, cp, next).value.1, cp, next).Success?
    && ReadValue(RequestType(m.body, cp, next).value.1, cp, next).value.value.Null?
  }

  /**
   * On every response but a null lookup answer, onMessage as written and
   * the corrected one leave the client and the table alike.
   */
  lemma AsWrittenAgreesExceptNull(c: Client, r: Repo, cp: ClassPath, m: Message)
    requires !NullLookupAnswer(m, cp, r.next)
    ensures OnResponseAsWritten(c, r, cp, m) == OnResponse(c, r, cp, m)
  {
  }

  /** As written, a null lookup answer leaves the client and the table exactly as they were. */
  lemma NullLookupResponseAsWritten(c: Client, r: Repo, cp: ClassPath, m: Message)
    requires NullLookupAnswer(m, cp, r.next)
    ensures OnResponseAsWritten(c, r, cp, m) == (c, r)
  {
  }

  /** An answer carrying a handle wakes the lookup with the handle's local object or a proxy for it. */
  lemma LookupAnswerReceived(c: Client, r: Repo, cp: ClassPath, m: Message, k: i32, h: ObjectHandle)
    requires m.isBytes && ParseId(m.correlationId) == Some(k) && k in c.pending
    requires WriteValue(HandleRef(h)).Complete() && h.key.iface in cp
    requires m.body == WriteValue(Byte(MESSAGE_LOOKUP)).bytes + WriteValue(HandleRef(h)).bytes
    ensures var (r', v) := LookupHandle(r, cp, Some(DecodedHandle(h.key))).value;
      OnResponse(c, r, cp, m) == (Notify(c, k, v), r')
  {
    ResponseDispatch(c, r, cp, m, MESSAGE_LOOKUP, WriteValue(HandleRef(h)).bytes);
    HandleRoundTrip(h, cp, r.next, []);
    assert WriteValue(HandleRef(h)).bytes + [] == WriteValue(HandleRef(h)).bytes;
  }

  /** A null answer wakes the lookup with null. */
  lemma NullLookupAnswerReceived(c: Client, r: Repo, cp: ClassPath, m: Message, k: i32)
    requires m.isBytes && ParseId(m.correlationId) == Some(k) && k in c.pending
    requires m.body == WriteValue(Byte(MESSAGE_LOOKUP)).bytes + WriteValue(Null).bytes
    ensures OnResponse(c, r, cp, m) == (Notify(c, k, Null), r)
  {
    ResponseDispatch(c, r, cp, m, MESSAGE_LOOKUP, WriteValue(Null).bytes);
    PlainRoundTrip(Null, cp, r.next, []);
    assert WriteValue(Null).bytes + [] == WriteValue(Null).bytes;
  }

  /**
   * As written, a null answer makes lookupHandle throw before the notify:
   * the client is left exactly as it was, so a waiting lookup stays waiting.
   */
  lemma NullLookupAsWritten(c: Client, r: Repo, cp: ClassPath, cid: Option<string>, rest: seq<byte>)
    ensures HandleLookupResponseAsWritten(c, r, cp, cid, WriteValue(Null).bytes + rest) == (c, r)
    ensures var k := ParseId(cid);
      k.Some? && k.value in c.pending && !c.pending[k.value].notified ==>
        FinishLookup(HandleLookupResponseAsWritten(c, r, cp, cid, WriteValue(Null).bytes + rest).0, r, k.value).Waiting?
  {
    PlainRoundTrip(Null, cp, r.next, rest);
  }

  /** The corrected handler wakes the same lookup, whose result is null. */
  lemma NullLookupCorrected(c: Client, r: Repo, cp: ClassPath, cid: Option<string>, rest: seq<byte>)
    requires ParseId(cid).Some? && ParseId(cid).value in c.pending
    ensures var k := ParseId(cid).value;
      var (c', r') := HandleLookupResponse(c, r, cp, cid, WriteValue(Null).bytes + rest);
      c' == Notify(c, k, Null) && r' == r
      && FinishLookup(c', r', k) == Finished(Removed(c', k), r, Success(Null))
  {
    PlainRoundTrip(Null, cp, r.next, rest);
  }

  /** A remove answer wakes the remove with its Boolean. */
  lemma RemoveAnswerReceived(c: Client, r: Repo, cp: ClassPath, m: Message, k: i32, b: bool)
    requires m.isBytes && ParseId(m.correlationId) == Some(k) && k in c.pending
    requires m.body == WriteValue(Byte(MESSAGE_REMOVE)).bytes + WriteValue(Bool(b)).bytes
    ensures OnResponse(c, r, cp, m) == (Notify(c, k, Bool(b)), r)
  {
    ResponseDispatch(c, r, cp, m, MESSAGE_REMOVE, WriteValue(Bool(b)).bytes);
    PlainRoundTrip(Bool(b), cp, r.next, []);
    assert WriteValue(Bool(b)).bytes + [] == WriteValue(Bool(b)).bytes;
  }

  /** A success answer stores the returned value in the call slot and wakes it. */
  lemma CallSuccessReceived(c: Client, r: Repo, cp: ClassPath, m: Message, k: i32, v: Value)
    requires m.isBytes && ParseId(m.correlationId) == Some(k) && k in c.pending && c.pending[k].kind == CallSlot
    requires Plain(v) && Countable(v) && WriteValue(v).Complete()
    requires m.body == WriteValue(Byte(MESSAGE_CALL)).bytes + WriteValue(Byte(CALL_SUCCESS)).bytes + WriteValue(v).bytes
    ensures OnResponse(c, r, cp, m) == (c.(pending := c.pending[k := c.pending[k].(response := v, notified := true)]), r)
  {
    var payload := WriteValue(Byte(CALL_SUCCESS)).bytes + WriteValue(v).bytes;
    assert m.body == WriteValue(Byte(MESSAGE_CALL)).bytes + payload;
    ResponseDispatch(c, r, cp, m, MESSAGE_CALL, payload);
    SuccessFieldsRead(c.pending[k], v, cp, r.next);
  }

  /** The success branch reads the returned value back. */
  lemma SuccessFieldsRead(s: Slot, v: Value, cp: ClassPath, next: nat)
    requires Plain(v) && Countable(v) && WriteValue(v).Complete()
    ensures CallFields(s, WriteValue(Byte(CALL_SUCCESS)).bytes + WriteValue(v).bytes, cp, next) == (s.(response := v), next)
  {
    var a := WriteValue(Byte(CALL_SUCCESS)).bytes;
    var b := WriteValue(v).bytes;
    ReadsInOrder(Byte(CALL_SUCCESS), v, cp, next, []);
    assert a + b + [] == a + b && b + [] == b;
  }

  /** An error answer stores the remote exception's class name and message and wakes the call. */
  lemma CallErrorReceived(c: Client, r: Repo, cp: ClassPath, m: Message, k: i32, e: Exn)
    requires m.isBytes && ParseId(m.correlationId) == Some(k) && k in c.pending && c.pending[k].kind == CallSlot
    requires ErrorTail(e).Complete()
    requires m.body == WriteValue(Byte(MESSAGE_CALL)).bytes + ErrorTail(e).bytes
    ensures OnResponse(c, r, cp, m)
         == (c.(pending := c.pending[k := c.pending[k].(error := true, exception := Some(e.name), message := e.message,
                                                         notified := true)]), r)
  {
    var payload := ErrorTail(e).bytes;
    ResponseDispatch(c, r, cp, m, MESSAGE_CALL, payload);
    var a := WriteValue(Byte(CALL_ERROR)).bytes;
    var b := WriteValue(Str(e.name)).bytes;
    var d := WriteValue(StringOrNull(e.message)).bytes;
    assert payload == a + (b + d);
    PlainRoundTrip(Byte(CALL_ERROR), cp, r.next, b + d);
    ErrorFieldsRead(c.pending[k], e, cp, r.next);
    assert CallFields(c.pending[k], payload, cp, r.next) == ErrorFields(c.pending[k], b + d, cp, r.next);
  }

  /** The error branch reads the class name and the message back. */
  lemma ErrorFieldsRead(s: Slot, e: Exn, cp: ClassPath, next: nat)
    requires WriteValue(Str(e.name)).Complete() && WriteValue(StringOrNull(e.message)).Complete()
    ensures ErrorFields(s, WriteValue(Str(e.name)).bytes + WriteValue(StringOrNull(e.message)).bytes, cp, next)
         == (s.(error := true, exception := Some(e.name), message := e.message), next)
  {
    var d := WriteValue(StringOrNull(e.message)).bytes;
    ReadsInOrder(Str(e.name), StringOrNull(e.message), cp, next, []);
    assert d + [] == d;
    assert WriteValue(Str(e.name)).bytes + d + [] == WriteValue(Str(e.name)).bytes + d;
  }

  /**
   * A call answer that cannot be read stores the fixed ReadError
   * exception and message, and still wakes the call.
   */
  lemma CallReadError(c: Client, r: Repo, cp: ClassPath, m: Message, k: i32, payload: seq<byte>)
    requires m.isBytes && ParseId(m.correlationId) == Some(k) && k in c.pending && c.pending[k].kind == CallSlot
    requires m.body == WriteValue(Byte(MESSAGE_CALL)).bytes + payload
    requires ReadValue(payload, cp, r.next).Failure?
    ensures OnResponse(c, r, cp, m) == (c.(pending := c.pending[k := ReadError(c.pending[k]).(notified := true)]), r)
  {
    ResponseDispatch(c, r, cp, m, MESSAGE_CALL, payload);
  }
}
