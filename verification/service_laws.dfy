/** What a service endpoint answers to each kind of request. */
module ServiceLaws {
  import opened Bytes
  import opened Wrappers
  import opened Values
  import opened Handles
  import opened Wire
  import opened WireLaws
  import opened WireFacts
  import opened Repository
  import opened Service
  import RepositoryLaws

  /** A request written as its type byte and then its payload reads back as that type. */
  lemma RequestTypeOf(t: i8, payload: seq<byte>, cp: ClassPath, next: nat)
    ensures RequestType(WriteValue(Byte(t)).bytes + payload, cp, next) == Some((t, payload))
  {
    PlainRoundTrip(Byte(t), cp, next, payload);
  }

  /** onMessage's dispatch on the request's type byte. */
  lemma Dispatch(ep: Endpoint, m: Message, t: i8, payload: seq<byte>)
    requires m.isBytes && m.body == WriteValue(Byte(t)).bytes + payload
    ensures OnMessage(ep, m) ==
      if t == MESSAGE_LOOKUP then HandleLookup(ep.repo, ep.cp, m, payload)
      else if t == MESSAGE_CALL then HandleCall(ep, m, payload)
      else if t == MESSAGE_REMOVE then HandleRemove(ep.repo, ep.cp, m, payload)
      else (ep.repo, None)
  {
    RequestTypeOf(t, payload, ep.cp, ep.repo.next);
  }

  /** A type byte other than lookup, call and remove is ignored. */
  lemma UnknownRequestIgnored(ep: Endpoint, m: Message, t: i8, payload: seq<byte>)
    requires m.isBytes && m.body == WriteValue(Byte(t)).bytes + payload
    requires t != MESSAGE_LOOKUP && t != MESSAGE_CALL && t != MESSAGE_REMOVE
    ensures OnMessage(ep, m) == (ep.repo, None)
  {
    Dispatch(ep, m, t, payload);
  }

  /**
   * handleLookup of a published interface answers with a handle for the
   * published object, made by createHandle; of an unpublished one, with null.
   */
  lemma LookupAnswered(ep: Endpoint, m: Message, name: string, rest: seq<byte>)
    requires m.isBytes && WriteValue(Str(name)).Complete()
    requires m.body == WriteValue(Byte(MESSAGE_LOOKUP)).bytes + WriteValue(Str(name)).bytes + rest
    requires name in ep.cp
    ensures var iface := Class(name, ep.cp[name].isInterface);
      var r := ep.repo;
      if iface in r.published && r.published[iface] != Null then
        var (r', h) := CreateHandle(r, r.published[iface], name);
        && Identical(h.bound, r.published[iface])
        && OnMessage(ep, m) == (r', Answer(m, Then(WriteValue(Byte(MESSAGE_LOOKUP)), WriteValue(HandleRef(h)))))
      else
        OnMessage(ep, m) == (r, Answer(m, Then(WriteValue(Byte(MESSAGE_LOOKUP)), WriteValue(Null))))
  {
    var payload := WriteValue(Str(name)).bytes + rest;
    assert m.body == WriteValue(Byte(MESSAGE_LOOKUP)).bytes + payload;
    Dispatch(ep, m, MESSAGE_LOOKUP, payload);
    PlainRoundTrip(Str(name), ep.cp, ep.repo.next, rest);
    LookupOf(ep.repo, ep.cp, m, payload, name, rest);
  }

  /** handleLookup of a payload that reads as the name of a loadable class. */
  lemma LookupOf(r: Repo, cp: ClassPath, m: Message, payload: seq<byte>, name: string, rest: seq<byte>)
    requires ReadValue(payload, cp, r.next) == Success(Decoded(Str(name), rest, r.next)) && name in cp
    ensures var iface := Class(name, cp[name].isInterface);
      if iface in r.published && r.published[iface] != Null then
        var (r', h) := CreateHandle(r, r.published[iface], name);
        HandleLookup(r, cp, m, payload) == (r', Answer(m, Then(WriteValue(Byte(MESSAGE_LOOKUP)), WriteValue(HandleRef(h)))))
      else
        HandleLookup(r, cp, m, payload) == (r, Answer(m, Then(WriteValue(Byte(MESSAGE_LOOKUP)), WriteValue(Null))))
  {
    var iface := Class(name, cp[name].isInterface);
    assert TypeName(iface) == name;
    if iface in r.published && r.published[iface] != Null {
      var (r', h) := CreateHandle(r, r.published[iface], name);
      assert Lookup(r, iface) == (r', Some(h));
    } else {
      assert Lookup(r, iface) == (r, None);
    }
  }

  /** handleLookup of a class the endpoint cannot load ends without an answer. */
  lemma LookupUnknownClass(ep: Endpoint, m: Message, name: string, rest: seq<byte>)
    requires m.isBytes && WriteValue(Str(name)).Complete()
    requires m.body == WriteValue(Byte(MESSAGE_LOOKUP)).bytes + WriteValue(Str(name)).bytes + rest
    requires name !in ep.cp
    ensures OnMessage(ep, m) == (ep.repo, None)
  {
    var payload := WriteValue(Str(name)).bytes + rest;
    assert m.body == WriteValue(Byte(MESSAGE_LOOKUP)).bytes + payload;
    Dispatch(ep, m, MESSAGE_LOOKUP, payload);
    PlainRoundTrip(Str(name), ep.cp, ep.repo.next, rest);
  }

  /**
   * A remove request for a handle releases the table's entry with that
   * handle's key and answers true, or answers false when there is none.
   */
  lemma RemoveAnswered(ep: Endpoint, m: Message, h: ObjectHandle, rest: seq<byte>)
    requires m.isBytes && m.replyTo.Some? && WriteValue(HandleRef(h)).Complete() && h.key.iface in ep.cp
    requires m.body == WriteValue(Byte(MESSAGE_REMOVE)).bytes + WriteValue(HandleRef(h)).bytes + rest
    ensures var (r', ok) := RemoveObject(ep.repo, Some(DecodedHandle(h.key)));
      && (ok <==> exists i :: 0 <= i < |ep.repo.list| && ep.repo.list[i].key == h.key)
      && OnMessage(ep, m) == (r', Some(Reply(m, WriteValue(Byte(MESSAGE_REMOVE)).bytes + WriteValue(Bool(ok)).bytes)))
  {
    var payload := WriteValue(HandleRef(h)).bytes + rest;
    var d := DecodedHandle(h.key);
    assert m.body == WriteValue(Byte(MESSAGE_REMOVE)).bytes + payload;
    Dispatch(ep, m, MESSAGE_REMOVE, payload);
    HandleRoundTrip(h, ep.cp, ep.repo.next, rest);
    RemoveOf(ep.repo, ep.cp, m, payload, d, rest);
    KnownKey(ep.repo.list, h.key);
  }

  /** handleRemove of a payload that reads as a handle. */
  lemma RemoveOf(r: Repo, cp: ClassPath, m: Message, payload: seq<byte>, d: ObjectHandle, rest: seq<byte>)
    requires m.replyTo.Some?
    requires ReadValue(payload, cp, r.next) == Success(Decoded(HandleRef(d), rest, r.next))
    ensures var (r', ok) := RemoveObject(r, Some(d));
      HandleRemove(r, cp, m, payload) == (r', Some(Reply(m, WriteValue(Byte(MESSAGE_REMOVE)).bytes + WriteValue(Bool(ok)).bytes)))
  {
    var (r', ok) := RemoveObject(r, Some(d));
    var w := Then(WriteValue(Byte(MESSAGE_REMOVE)), WriteValue(Bool(ok)));
    assert w.Complete() && w.bytes == WriteValue(Byte(MESSAGE_REMOVE)).bytes + WriteValue(Bool(ok)).bytes;
    assert HandleRemove(r, cp, m, payload) == (r', Answer(m, w));
  }

  /** The table has an entry equal to a decoded handle exactly when some entry has its key. */
  lemma KnownKey(list: seq<ObjectHandle>, key: HandleKey)
    ensures IndexOfHandle(list, DecodedHandle(key)).Some? <==> exists i :: 0 <= i < |list| && list[i].key == key
  {
    var d := DecodedHandle(key);
    forall i | 0 <= i < |list|
      ensures Equals(list[i], d) <==> list[i].key == key
    {
      EqualsIsKeyEquality(list[i], d);
    }
  }

  /** A remove request whose payload is null answers false and changes nothing. */
  lemma RemoveNullAnswered(ep: Endpoint, m: Message, rest: seq<byte>)
    requires m.isBytes && m.replyTo.Some?
    requires m.body == WriteValue(Byte(MESSAGE_REMOVE)).bytes + WriteValue(Null).bytes + rest
    ensures OnMessage(ep, m) == (ep.repo, Some(Reply(m, WriteValue(Byte(MESSAGE_REMOVE)).bytes + WriteValue(Bool(false)).bytes)))
  {
    var payload := WriteValue(Null).bytes + rest;
    assert m.body == WriteValue(Byte(MESSAGE_REMOVE)).bytes + payload;
    Dispatch(ep, m, MESSAGE_REMOVE, payload);
    PlainRoundTrip(Null, ep.cp, ep.repo.next, rest);
  }

  /**
   * A call is answered with CALL_SUCCESS and the value when invoking and
   * writing succeed, and with CALL_ERROR, the exception's class name and
   * message when invoking fails.
   */
  lemma CallAnswered(ep: Endpoint, m: Message, rest: seq<byte>)
    requires m.isBytes && m.replyTo.Some?
    requires m.body == WriteValue(Byte(MESSAGE_CALL)).bytes + rest
    ensures var result := Invoke(ep.repo, rest, ep.cp, ep.withClient, ep.behave);
      match result
      case Success((r', v)) =>
        WriteValue(v).Complete() ==>
          OnMessage(ep, m) == (r', Some(Reply(m, WriteValue(Byte(MESSAGE_CALL)).bytes
                                                + WriteValue(Byte(CALL_SUCCESS)).bytes + WriteValue(v).bytes)))
      case Failure(e) =>
        ErrorTail(e).Complete() ==>
          && OnMessage(ep, m) == (ep.repo, Some(Reply(m, WriteValue(Byte(MESSAGE_CALL)).bytes + ErrorTail(e).bytes)))
          && ErrorTail(e).bytes == WriteValue(Byte(CALL_ERROR)).bytes + WriteValue(Str(e.name)).bytes
                                 + WriteValue(StringOrNull(e.message)).bytes
  {
    Dispatch(ep, m, MESSAGE_CALL, rest);
    var result := Invoke(ep.repo, rest, ep.cp, ep.withClient, ep.behave);
    if result.Success? {
      var v := result.value.1;
      var head := WriteValue(Byte(MESSAGE_CALL));
      var tail := Then(WriteValue(Byte(CALL_SUCCESS)), WriteValue(v));
      assert Then(head, tail).bytes == head.bytes + tail.bytes;
      assert OnMessage(ep, m) == HandleCall(ep, m, rest);
      if WriteValue(v).Complete() {
        assert CallAnswer(result) == Then(head, tail);
        assert CallAnswer(result).bytes == head.bytes + WriteValue(Byte(CALL_SUCCESS)).bytes + WriteValue(v).bytes;
      }
    }
  }

  /** A call naming no object of the table is answered with the not-found error. */
  lemma CallToUnknownObject(ep: Endpoint, m: Message, rest: seq<byte>)
    requires m.isBytes && m.replyTo.Some?
    requires m.body == WriteValue(Byte(MESSAGE_CALL)).bytes + rest
    requires ReadCall(rest, ep.cp, ep.repo.next).Success?
    requires GetObject(ep.repo, ReadCall(rest, ep.cp, ep.repo.next).value.handle) == Null
    ensures var e := ObjectNotFound(ReadCall(rest, ep.cp, ep.repo.next).value.handle);
      ErrorTail(e).Complete() ==>
        OnMessage(ep, m) == (ep.repo, Some(Reply(m, WriteValue(Byte(MESSAGE_CALL)).bytes + ErrorTail(e).bytes)))
  {
    RepositoryLaws.InvokeUnknownTarget(ep.repo, rest, ep.cp, ep.withClient, ep.behave);
    CallAnswered(ep, m, rest);
  }
}
