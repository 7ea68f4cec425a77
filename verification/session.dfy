/**
 * Whole exchanges: a client's request, the service endpoint's answer,
 * the client's response handling, and what the waiting requester gets.
 */
module Session {
  import opened Bytes
  import opened Wrappers
  import opened Values
  import opened Handles
  import opened Wire
  import opened WireLaws
  import opened WireFacts
  import opened Repository
  import opened Service
  import opened Client
  import ServiceLaws
  import ClientLaws

  /** The interface a lookup by this name finds on the endpoint. */
  function Served(ep: Endpoint, name: string): Type
    requires name in ep.cp
  {
    Class(name, ep.cp[name].isInterface)
  }

  predicate IsPublished(ep: Endpoint, t: Type) {
    t in ep.repo.published && ep.repo.published[t] != Null
  }

  /** The handle the endpoint hands out for a lookup of a published interface. */
  function ServedHandle(ep: Endpoint, name: string): (h: ObjectHandle)
    requires name in ep.cp && IsPublished(ep, Served(ep, name))
    ensures Identical(h.bound, ep.repo.published[Served(ep, name)])
  {
    CreateHandle(ep.repo, ep.repo.published[Served(ep, name)], name).1
  }

  /**
   * A lookup of a published interface wakes the requester with the
   * client's object for the served handle's key: its own object if the
   * key is in its table, else a new proxy.
   */
  lemma LookupPublishedRoundTrip(c: Client, rc: Repo, cpc: ClassPath, id: Option<string>, iface: Type, ep: Endpoint)
    requires BeginLookup(c, id, iface).Success?
    requires TypeName(iface) in ep.cp && IsPublished(ep, Served(ep, TypeName(iface)))
    requires WriteValue(HandleRef(ServedHandle(ep, TypeName(iface)))).Complete()
    requires ServedHandle(ep, TypeName(iface)).key.iface in cpc
    ensures var s := BeginLookup(c, id, iface).value;
      var (r1, reply) := OnMessage(ep, s.request);
      var (rc', v) := LookupHandle(rc, cpc, Some(DecodedHandle(ServedHandle(ep, TypeName(iface)).key))).value;
      && reply.Some? && reply.value.dest == Some(c.replyQueue)
      && var (c2, rc2) := OnResponse(s.client, rc, cpc, reply.value);
         FinishLookup(c2, rc2, s.cid) == Finished(Removed(c2, s.cid), rc', Success(v))
  {
    var name := TypeName(iface);
    var s := BeginLookup(c, id, iface).value;
    var h := ServedHandle(ep, name);
    ServiceLaws.LookupAnswered(ep, s.request, name, []);
    assert s.request.body == WriteValue(Byte(MESSAGE_LOOKUP)).bytes + WriteValue(Str(name)).bytes + [];
    var reply := OnMessage(ep, s.request).1.value;
    assert reply.body == WriteValue(Byte(MESSAGE_LOOKUP)).bytes + WriteValue(HandleRef(h)).bytes;
    ClientLaws.LookupAnswerReceived(s.client, rc, cpc, reply, s.cid, h);
  }

  /** A lookup of an interface nobody published wakes the requester with null. */
  lemma LookupUnpublishedRoundTrip(c: Client, rc: Repo, cpc: ClassPath, id: Option<string>, iface: Type, ep: Endpoint)
    requires BeginLookup(c, id, iface).Success?
    requires TypeName(iface) in ep.cp && !IsPublished(ep, Served(ep, TypeName(iface)))
    ensures var s := BeginLookup(c, id, iface).value;
      var (r1, reply) := OnMessage(ep, s.request);
      && r1 == ep.repo && reply.Some?
      && var (c2, rc2) := OnResponse(s.client, rc, cpc, reply.value);
         FinishLookup(c2, rc2, s.cid) == Finished(Removed(c2, s.cid), rc, Success(Null))
  {
    var name := TypeName(iface);
    var s := BeginLookup(c, id, iface).value;
    ServiceLaws.LookupAnswered(ep, s.request, name, []);
    assert s.request.body == WriteValue(Byte(MESSAGE_LOOKUP)).bytes + WriteValue(Str(name)).bytes + [];
    var reply := OnMessage(ep, s.request).1.value;
    assert reply.body == WriteValue(Byte(MESSAGE_LOOKUP)).bytes + WriteValue(Null).bytes;
    ClientLaws.NullLookupAnswerReceived(s.client, rc, cpc, reply, s.cid);
  }

  /**
   * The same exchange with handleLookupResponse as written: the null
   * answer arrives, but the requester is never woken.
   */
  lemma LookupUnpublishedAsWritten(c: Client, rc: Repo, cpc: ClassPath, id: Option<string>, iface: Type, ep: Endpoint)
    requires BeginLookup(c, id, iface).Success?
    requires TypeName(iface) in ep.cp && !IsPublished(ep, Served(ep, TypeName(iface)))
    ensures var s := BeginLookup(c, id, iface).value;
      var reply := OnMessage(ep, s.request).1;
      && reply == Some(Reply(s.request, WriteValue(Byte(MESSAGE_LOOKUP)).bytes + WriteValue(Null).bytes))
      && var (c2, rc2) := OnResponseAsWritten(s.client, rc, cpc, reply.value);
         FinishLookup(c2, rc2, s.cid).Waiting?
  {
    var name := TypeName(iface);
    var s := BeginLookup(c, id, iface).value;
    ServiceLaws.LookupAnswered(ep, s.request, name, []);
    assert s.request.body == WriteValue(Byte(MESSAGE_LOOKUP)).bytes + WriteValue(Str(name)).bytes + [];
    ClientLaws.NullLookupAsWritten(s.client, rc, cpc, s.request.correlationId, []);
    assert WriteValue(Null).bytes + [] == WriteValue(Null).bytes;
  }

  /**
   * A remove releases the endpoint's entry for the handle's key, and the
   * requester learns whether there was one.
   */
  lemma RemoveRoundTrip(c: Client, rc: Repo, cpc: ClassPath, h: ObjectHandle, ep: Endpoint)
    requires BeginRemove(c, h).Success? && h.key.iface in ep.cp
    ensures var s := BeginRemove(c, h).value;
      var (r1, reply) := OnMessage(ep, s.request);
      var (r', ok) := RemoveObject(ep.repo, Some(DecodedHandle(h.key)));
      && r1 == r' && reply.Some?
      && (ok <==> exists i :: 0 <= i < |ep.repo.list| && ep.repo.list[i].key == h.key)
      && var (c2, rc2) := OnResponse(s.client, rc, cpc, reply.value);
         FinishRemove(c2, rc2, s.cid) == Finished(Removed(c2, s.cid), rc, Success(ok))
  {
    var s := BeginRemove(c, h).value;
    ServiceLaws.RemoveAnswered(ep, s.request, h, []);
    assert s.request.body == WriteValue(Byte(MESSAGE_REMOVE)).bytes + WriteValue(HandleRef(h)).bytes + [];
    var ok := RemoveObject(ep.repo, Some(DecodedHandle(h.key))).1;
    var reply := OnMessage(ep, s.request).1.value;
    ClientLaws.RemoveAnswerReceived(s.client, rc, cpc, reply, s.cid, ok);
  }

  /** The exception invoke throws for a remote exception `e`. */
  function RemoteFailure(e: Exn): Exn {
    Exn("java.lang.Exception", Some("RemoteError: " + e.name + ":" + OrNull(e.message)))
  }

  /**
   * A call the endpoint answers with a plain value returns that value to
   * the requester.
   */
  lemma CallReturnsRoundTrip(c: Client, rc: Repo, cpc: ClassPath, h: ObjectHandle, m: MethodSig, args: Option<seq<Value>>, ep: Endpoint)
    requires BeginInvoke(c, rc, h, m, args).1.Success?
    requires var result := Invoke(ep.repo, EncodeMethodCall(rc, h, m, args).out.bytes, ep.cp, ep.withClient, ep.behave);
      result.Success? && Plain(result.value.1) && Countable(result.value.1) && WriteValue(result.value.1).Complete()
    ensures var (rc1, sent) := BeginInvoke(c, rc, h, m, args);
      var s := sent.value;
      var result := Invoke(ep.repo, EncodeMethodCall(rc, h, m, args).out.bytes, ep.cp, ep.withClient, ep.behave);
      var (r1, reply) := OnMessage(ep, s.request);
      && r1 == result.value.0 && reply.Some?
      && var (c2, rc2) := OnResponse(s.client, rc1, cpc, reply.value);
         FinishInvoke(c2, rc2, cpc, s.cid) == Finished(Removed(c2, s.cid), rc1, Success(result.value.1))
  {
    var (rc1, sent) := BeginInvoke(c, rc, h, m, args);
    var s := sent.value;
    var payload := EncodeMethodCall(rc, h, m, args).out.bytes;
    var v := Invoke(ep.repo, payload, ep.cp, ep.withClient, ep.behave).value.1;
    ServiceLaws.CallAnswered(ep, s.request, payload);
    var reply := OnMessage(ep, s.request).1.value;
    ClientLaws.CallSuccessReceived(s.client, rc1, cpc, reply, s.cid, v);
  }

  /**
   * A call the endpoint cannot complete reaches the requester as a
   * RemoteError naming the remote exception's class and message.
   */
  lemma CallFailsRoundTrip(c: Client, rc: Repo, cpc: ClassPath, h: ObjectHandle, m: MethodSig, args: Option<seq<Value>>, ep: Endpoint)
    requires BeginInvoke(c, rc, h, m, args).1.Success?
    requires var result := Invoke(ep.repo, EncodeMethodCall(rc, h, m, args).out.bytes, ep.cp, ep.withClient, ep.behave);
      result.Failure? && ErrorTail(result.error).Complete()
    ensures var (rc1, sent) := BeginInvoke(c, rc, h, m, args);
      var s := sent.value;
      var e := Invoke(ep.repo, EncodeMethodCall(rc, h, m, args).out.bytes, ep.cp, ep.withClient, ep.behave).error;
      var (r1, reply) := OnMessage(ep, s.request);
      && r1 == ep.repo && reply.Some?
      && var (c2, rc2) := OnResponse(s.client, rc1, cpc, reply.value);
         FinishInvoke(c2, rc2, cpc, s.cid) == Finished(Removed(c2, s.cid), rc1, Failure(RemoteFailure(e)))
  {
    var (rc1, sent) := BeginInvoke(c, rc, h, m, args);
    var s := sent.value;
    var payload := EncodeMethodCall(rc, h, m, args).out.bytes;
    var e := Invoke(ep.repo, payload, ep.cp, ep.withClient, ep.behave).error;
    ServiceLaws.CallAnswered(ep, s.request, payload);
    var reply := OnMessage(ep, s.request).1.value;
    ClientLaws.CallErrorReceived(s.client, rc1, cpc, reply, s.cid, e);
  }
}
