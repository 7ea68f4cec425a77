/**
 * ObjectHandle: the record that names one remotely reachable object, with
 * its constructors, structural equality and retain counting. Its
 * four-field wire form is written and read by the Wire module, since
 * encode and decode call the codec's write and read.
 */
module Handles {
  import opened Bytes
  import opened Wrappers
  import opened Values
  import Decimal

  /** The five-argument constructor: a local handle bound to `target`, retain count 0. */
  function NewHandle(id: i32, target: Value, iface: string, broker: Option<string>, queue: Option<string>): (h: ObjectHandle)
    ensures h.local && h.bound == target && h.retain == 0
    ensures h.key == HandleKey(id, broker, queue, iface)
  {
    ObjectHandle(HandleKey(id, broker, queue, iface), target, true, 0)
  }

  /** The no-argument constructor followed by decode: the fields from the wire, unbound, not local. */
  function DecodedHandle(key: HandleKey): (h: ObjectHandle)
    ensures !h.local && h.bound == Null && h.retain == 0 && h.key == key
  {
    ObjectHandle(key, Null, false, 0)
  }

  /** One of equals' null-safe field comparisons. */
  predicate SameField(a: Option<string>, b: Option<string>) {
    if a.None? then b.None? else b.Some? && a.value == b.value
  }

  /**
   * equals: broker URL, id, interface name and queue name, field by field;
   * the bound object, locality and retain count take no part.
   */
  predicate Equals(a: ObjectHandle, b: ObjectHandle) {
    && SameField(a.key.broker, b.key.broker)
    && a.key.id == b.key.id
    && a.key.iface == b.key.iface
    && SameField(a.key.queue, b.key.queue)
  }

  /** equals is exactly equality of the four-field key. */
  lemma EqualsIsKeyEquality(a: ObjectHandle, b: ObjectHandle)
    ensures Equals(a, b) <==> a.key == b.key
  {
  }

  /** A handle equals every handle with its key, whatever they are bound to. */
  lemma EqualsIgnoresBinding(a: ObjectHandle, target: Value, local: bool, retain: int)
    ensures Equals(a, ObjectHandle(a.key, target, local, retain))
  {
  }

  /** retain(): one more holder. */
  function Retain(h: ObjectHandle): (r: ObjectHandle)
    ensures r.retain == h.retain + 1
    ensures r.key == h.key && r.bound == h.bound && r.local == h.local
  {
    h.(retain := h.retain + 1)
  }

  /** release(): one holder fewer; true exactly when none is left. */
  function Release(h: ObjectHandle): (r: (ObjectHandle, bool))
    ensures r.0.retain == h.retain - 1
    ensures r.0.key == h.key && r.0.bound == h.bound && r.0.local == h.local
    ensures r.1 <==> h.retain == 1
  {
    var h' := h.(retain := h.retain - 1);
    (h', h'.retain == 0)
  }

  /** `n` successive retains. */
  function RetainTimes(h: ObjectHandle, n: nat): ObjectHandle {
    if n == 0 then h else Retain(RetainTimes(h, n - 1))
  }

  /** The results of `n` successive releases. */
  function ReleaseTimes(h: ObjectHandle, n: nat): seq<bool>
    decreases n
  {
    if n == 0 then [] else
      var (h', b) := Release(h);
      [b] + ReleaseTimes(h', n - 1)
  }

  lemma {:induction false} RetainTimesCount(h: ObjectHandle, n: nat)
    ensures RetainTimes(h, n).retain == h.retain + n
    ensures RetainTimes(h, n).key == h.key
  {
    if n > 0 {
      RetainTimesCount(h, n - 1);
    }
  }

  lemma {:induction false} ReleasesFromCount(h: ObjectHandle, n: nat)
    requires h.retain == n
    ensures |ReleaseTimes(h, n)| == n
    ensures forall i :: 0 <= i < n ==> (ReleaseTimes(h, n)[i] <==> i == n - 1)
    decreases n
  {
    if n > 0 {
      var (h', b) := Release(h);
      ReleasesFromCount(h', n - 1);
    }
  }

  /**
   * After n retains of a fresh handle, releases 1..n-1 report false and
   * release n reports true.
   */
  lemma RetainThenRelease(h: ObjectHandle, n: nat)
    requires h.retain == 0
    ensures |ReleaseTimes(RetainTimes(h, n), n)| == n
    ensures forall i :: 0 <= i < n ==> (ReleaseTimes(RetainTimes(h, n), n)[i] <==> i == n - 1)
  {
    RetainTimesCount(h, n);
    ReleasesFromCount(RetainTimes(h, n), n);
  }

  function OrNull(s: Option<string>): string {
    if s.Some? then s.value else "null"
  }

  /** toString, which the "could not find local object" message embeds. */
  function HandleText(h: ObjectHandle): string {
    "ObjectHandle [id=" + Decimal.IntText(h.key.id) + ", brokerURL=" + OrNull(h.key.broker)
      + ", iface=" + h.key.iface + ", queueName=" + OrNull(h.key.queue)
      + ", local=" + (if h.local then "true" else "false") + "]"
  }
}
