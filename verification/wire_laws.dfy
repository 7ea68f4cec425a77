/**
 * What reading gives back after writing. `Copy` is the value-level
 * account of a round trip: scalars and strings come back as they were,
 * handles come back as unbound non-local handles with the same four
 * fields, and objects come back as fresh instances of the reader's class
 * whose state holds what the setters accepted of the getters' values.
 */
module WireLaws {
  import opened Bytes
  import opened Wrappers
  import opened Values
  import opened Utf
  import opened Handles
  import opened Wire

  // ------------------------------------------------ the reference account

  function CopyHandle(k: HandleKey, cp: ClassPath, next: nat): Result<(Value, nat), Exn> {
    if k.iface in cp then Success((HandleRef(DecodedHandle(k)), next)) else Failure(ClassNotFound(k.iface))
  }

  /** The value a reader with class path `cp` rebuilds from `v`, and its next unused identity. */
  function Copy(v: Value, cp: ClassPath, next: nat): Result<(Value, nat), Exn>
    decreases Size(v), 0
  {
    match v
    case HandleRef(h) => CopyHandle(h.key, cp, next)
    case Proxy(_, h, _) => CopyHandle(h.key, cp, next)
    case Array(es) =>
      (match CopyAll(es, cp, next)
       case Failure(e) => Failure(e)
       case Success((ws, n)) => Success((Array(ws), n)))
    case Object(_, c, st) =>
      if c.name !in cp then Failure(ClassNotFound(c.name))
      else if !cp[c.name].hasDefaultCtor then Failure(CannotInstantiate(c.name))
      else
        var dc := cp[c.name];
        (match CopyPairs(Getters(c.declared), st, cp, dc, dc.defaults, next + 1)
         case Failure(e) => Failure(e)
         case Success((st', n)) => Success((Object(next, dc, st'), n)))
    case _ => Success((v, next))
  }

  function CopyAll(es: seq<Value>, cp: ClassPath, next: nat): Result<(seq<Value>, nat), Exn>
    decreases SeqSize(es), |es|
  {
    if |es| == 0 then Success(([], next))
    else
      match Copy(es[0], cp, next)
      case Failure(e) => Failure(e)
      case Success((w, n1)) =>
        match CopyAll(es[1..], cp, n1)
        case Failure(e) => Failure(e)
        case Success((ws, n2)) => Success(([w] + ws, n2))
  }

  /** Each getter's value, copied, offered to the reader's setter of the same property. */
  function CopyPairs(gs: seq<MethodSig>, st: seq<Prop>, cp: ClassPath, dc: ClassDesc, acc: seq<Prop>, next: nat)
    : Result<(seq<Prop>, nat), Exn>
    requires forall i :: 0 <= i < |gs| ==> IsGetter(gs[i])
    decreases 1 + StateSize(st), |gs|
  {
    if |gs| == 0 then Success((acc, next))
    else
      assert IsGetter(gs[0]);
      var p := PropName(gs[0].name);
      match Copy(GetProp(st, p), cp, next)
      case Failure(e) => Failure(e)
      case Success((w, n1)) =>
        match ApplyPair(dc, acc, p, w)
        case Failure(e) => Failure(e)
        case Success(acc') => CopyPairs(gs[1..], st, cp, dc, acc', n1)
  }

  /** Every array and every object's getter list has a length an int can hold. */
  predicate Countable(v: Value)
    decreases Size(v), 0
  {
    match v
    case Array(es) => |es| <= INT32_MAX && CountableAll(es)
    case Object(_, c, st) => |Getters(c.declared)| <= INT32_MAX && CountablePairs(Getters(c.declared), st)
    case _ => true
  }

  predicate CountableAll(es: seq<Value>)
    decreases SeqSize(es), |es|
  {
    |es| == 0 || (Countable(es[0]) && CountableAll(es[1..]))
  }

  predicate CountablePairs(gs: seq<MethodSig>, st: seq<Prop>)
    requires forall i :: 0 <= i < |gs| ==> IsGetter(gs[i])
    decreases 1 + StateSize(st), |gs|
  {
    if |gs| == 0 then true
    else
      assert IsGetter(gs[0]);
      Countable(GetProp(st, PropName(gs[0].name))) && CountablePairs(gs[1..], st)
  }

  function Lift(r: Result<(Value, nat), Exn>, rest: seq<byte>): Result<Decoded, Exn> {
    match r
    case Success((w, n)) => Success(Decoded(w, rest, n))
    case Failure(e) => Failure(e)
  }

  function LiftAll(r: Result<(seq<Value>, nat), Exn>, rest: seq<byte>): Result<DecodedSeq, Exn> {
    match r
    case Success((ws, n)) => Success(DecodedSeq(ws, rest, n))
    case Failure(e) => Failure(e)
  }

  function LiftPairs(r: Result<(seq<Prop>, nat), Exn>, rest: seq<byte>): Result<DecodedState, Exn> {
    match r
    case Success((st, n)) => Success(DecodedState(st, rest, n))
    case Failure(e) => Failure(e)
  }

  // ------------------------------------------------------- the round trip

  /**
   * Getters keeps the order of the methods it is given: the getters of two
   * lists one after the other are the getters of the first, then those of
   * the second.
   */
  lemma {:induction false} GettersAppend(a: seq<MethodSig>, b: seq<MethodSig>)
    ensures Getters(a + b) == Getters(a) + Getters(b)
    decreases |a|
  {
    if |a| == 0 {
      assert a + b == b;
    } else {
      var ab := a + b;
      assert ab[0] == a[0] && ab[1..] == a[1..] + b;
      GettersAppend(a[1..], b);
      if IsGetter(a[0]) {
        assert Getters(ab) == [a[0]] + Getters(a[1..] + b);
        assert Getters(a) == [a[0]] + Getters(a[1..]);
      } else {
        assert Getters(ab) == Getters(a[1..] + b);
        assert Getters(a) == Getters(a[1..]);
      }
    }
  }

  /** Each getter is kept as often as it is declared, and nothing else is kept. */
  lemma {:induction false} GettersCount(ms: seq<MethodSig>, m: MethodSig)
    ensures multiset(Getters(ms))[m] == if IsGetter(m) then multiset(ms)[m] else 0
    decreases |ms|
  {
    if |ms| > 0 {
      assert ms == [ms[0]] + ms[1..];
      GettersCount(ms[1..], m);
    }
  }

  lemma ReadTag(s: seq<byte>, cp: ClassPath, next: nat)
    requires |s| > 0
    ensures IsScalarTag(s[0]) ==> ReadValue(s, cp, next) == ReadScalar(s[0], s[1..], next)
    ensures s[0] == ARRAY ==> ReadValue(s, cp, next) == DecodeArray(s[1..], cp, next)
    ensures s[0] == OBJECT ==> ReadValue(s, cp, next) == DecodeObject(s[1..], cp, next)
    ensures s[0] == OBJECTHANDLE ==> ReadValue(s, cp, next) == LiftHandle(DecodeHandle(s[1..], cp, next))
  {
  }

  function LiftHandle(r: Result<(ObjectHandle, seq<byte>, nat), Exn>): Result<Decoded, Exn> {
    match r
    case Success((h, rest, n)) => Success(Decoded(HandleRef(h), rest, n))
    case Failure(e) => Failure(e)
  }

  /** The payload each scalar write puts after its tag. */
  function ScalarPayload(v: Value): seq<byte>
    requires IsPlainScalar(v) && WriteScalar(v).Complete()
  {
    WriteScalar(v).bytes[1..]
  }

  lemma ReadScalarPayload(v: Value, next: nat, rest: seq<byte>)
    requires IsPlainScalar(v) && WriteScalar(v).Complete()
    ensures |WriteScalar(v).bytes| >= 1
    ensures IsScalarTag(WriteScalar(v).bytes[0])
    ensures ReadScalar(WriteScalar(v).bytes[0], ScalarPayload(v) + rest, next) == Success(Decoded(v, rest, next))
  {
    Pow256Values();
    match v
    case Null =>
      assert ScalarPayload(v) + rest == rest;
    case Int(i) =>
      SignedRoundTrips(0, 0, i, 0);
      assert (Int32Bytes(i) + rest)[..4] == Int32Bytes(i);
      assert (Int32Bytes(i) + rest)[4..] == rest;
    case Byte(b) =>
      SignedRoundTrips(b, 0, 0, 0);
      assert (Int8Bytes(b) + rest)[..1] == Int8Bytes(b);
      assert (Int8Bytes(b) + rest)[1..] == rest;
    case Long(l) =>
      SignedRoundTrips(0, 0, 0, l);
      assert (Int64Bytes(l) + rest)[..8] == Int64Bytes(l);
      assert (Int64Bytes(l) + rest)[8..] == rest;
    case Short(x) =>
      SignedRoundTrips(0, x, 0, 0);
      assert (Int16Bytes(x) + rest)[..2] == Int16Bytes(x);
      assert (Int16Bytes(x) + rest)[2..] == rest;
    case Bool(z) =>
      assert ScalarPayload(v) == [if z then 1 else 0];
    case Double(d) =>
      DecodeEncodeBE(d, 8);
      assert (EncodeBE(d, 8) + rest)[..8] == EncodeBE(d, 8);
      assert (EncodeBE(d, 8) + rest)[8..] == rest;
    case Float(f) =>
      DecodeEncodeBE(f, 4);
      assert (EncodeBE(f, 4) + rest)[..4] == EncodeBE(f, 4);
      assert (EncodeBE(f, 4) + rest)[4..] == rest;
    case Str(str) =>
      ReadWriteUtf(str, rest);
      assert ScalarPayload(v) == WriteUtf(str).value;
  }

  /** A scalar or string written completely reads back unchanged, leaving what follows. */
  lemma ReadWrittenScalar(v: Value, cp: ClassPath, next: nat, rest: seq<byte>)
    requires IsPlainScalar(v) && WriteScalar(v).Complete()
    ensures ReadValue(WriteScalar(v).bytes + rest, cp, next) == Success(Decoded(v, rest, next))
  {
    var s := WriteScalar(v).bytes + rest;
    ReadScalarPayload(v, next, rest);
    assert s[1..] == ScalarPayload(v) + rest;
    ReadTag(s, cp, next);
  }

  /** Any value written completely reads back as `Copy` says, leaving what follows. */
  lemma {:induction false} ReadWritten(v: Value, cp: ClassPath, next: nat, rest: seq<byte>)
    requires WriteValue(v).Complete() && Countable(v)
    ensures ReadValue(WriteValue(v).bytes + rest, cp, next) == Lift(Copy(v, cp, next), rest)
    decreases Size(v), 1
  {
    match v
    case HandleRef(h) => ReadWrittenHandle(h, cp, next, rest);
    case Proxy(_, h, _) => ReadWrittenHandle(h, cp, next, rest);
    case Array(es) => ReadWrittenArray(es, cp, next, rest);
    case Object(oid, c, st) => ReadWrittenObject(oid, c, st, cp, next, rest);
    case _ => ReadWrittenScalar(v, cp, next, rest);
  }

  lemma {:induction false} ReadWrittenArray(es: seq<Value>, cp: ClassPath, next: nat, rest: seq<byte>)
    requires WriteValue(Array(es)).Complete() && Countable(Array(es))
    ensures ReadValue(WriteValue(Array(es)).bytes + rest, cp, next) == Lift(Copy(Array(es), cp, next), rest)
    decreases 1 + SeqSize(es), 0
  {
    var s := WriteValue(Array(es)).bytes + rest;
    ArrayBytes(es, rest);
    ReadTag(s, cp, next);
    ReadWrittenAll(es, cp, next, rest);
  }

  /** A written array: its tag, its count, then its elements. */
  lemma ArrayBytes(es: seq<Value>, rest: seq<byte>)
    requires WriteValue(Array(es)).Complete() && |es| <= INT32_MAX
    ensures var s := WriteValue(Array(es)).bytes + rest;
      && WriteAll(es).Complete()
      && |s| >= 5 && s[0] == ARRAY && |s[1..]| >= 4
      && ReadInt32(s[1..][..4]) == |es| && s[1..][4..] == WriteAll(es).bytes + rest
  {
    var n := Int32Bytes(Wrap32(|es|));
    assert WriteValue(Array(es)).bytes == [ARRAY] + n + WriteAll(es).bytes;
    AfterCount(ARRAY, n, WriteAll(es).bytes, rest);
    assert ReadInt32(n) == |es| by {
      SignedRoundTrips(0, 0, Wrap32(|es|), 0);
    }
  }

  /** After a tag and a four-byte count come the payload and the rest. */
  lemma AfterCount(tag: byte, n: seq<byte>, w: seq<byte>, rest: seq<byte>)
    requires |n| == 4
    ensures var s := [tag] + n + w + rest;
      |s| >= 5 && s[0] == tag && s[1..][..4] == n && s[1..][4..] == w + rest
  {
    var s := [tag] + n + w + rest;
    assert s[1..] == n + (w + rest);
  }

  lemma {:induction false} ReadWrittenObject(oid: nat, c: ClassDesc, st: seq<Prop>, cp: ClassPath, next: nat, rest: seq<byte>)
    requires WriteValue(Object(oid, c, st)).Complete() && Countable(Object(oid, c, st))
    ensures ReadValue(WriteValue(Object(oid, c, st)).bytes + rest, cp, next) == Lift(Copy(Object(oid, c, st), cp, next), rest)
    decreases 2 + StateSize(st), 0
  {
    var gs := Getters(c.declared);
    ObjectReadsAsPairs(oid, c, st, cp, next, rest);
    CopyObject(oid, c, st, cp, next);
    if c.name in cp && cp[c.name].hasDefaultCtor {
      var dc := cp[c.name];
      ReadWrittenPairs(gs, st, cp, dc, dc.defaults, next + 1, rest);
      LiftObject(ReadPairs(WritePairs(gs, st).bytes + rest, cp, next + 1, |gs|, dc, dc.defaults),
                 CopyPairs(gs, st, cp, dc, dc.defaults, next + 1), rest, next, dc);
    }
  }

  /** The reference copy of an object: a fresh instance of the reader's class, given the copied pairs. */
  lemma CopyObject(oid: nat, c: ClassDesc, st: seq<Prop>, cp: ClassPath, next: nat)
    ensures Copy(Object(oid, c, st), cp, next) ==
      if c.name !in cp then Failure(ClassNotFound(c.name))
      else if !cp[c.name].hasDefaultCtor then Failure(CannotInstantiate(c.name))
      else
        var cr := CopyPairs(Getters(c.declared), st, cp, cp[c.name], cp[c.name].defaults, next + 1);
        if cr.Failure? then Failure(cr.error) else Success((Object(next, cp[c.name], cr.value.0), cr.value.1))
  {
  }

  /** Reading the pairs as the copy states them yields the copied object, followed by the rest. */
  lemma LiftObject(r: Result<DecodedState, Exn>, cr: Result<(seq<Prop>, nat), Exn>, rest: seq<byte>, next: nat, dc: ClassDesc)
    requires r == LiftPairs(cr, rest)
    ensures (if r.Failure? then Failure(r.error)
             else Success(Decoded(Object(next, dc, r.value.state), r.value.rest, r.value.next)))
         == Lift(if cr.Failure? then Failure(cr.error) else Success((Object(next, dc, cr.value.0), cr.value.1)), rest)
  {
  }

  /** A written object reads back as its class, then as the pairs that follow the count. */
  lemma ObjectReadsAsPairs(oid: nat, c: ClassDesc, st: seq<Prop>, cp: ClassPath, next: nat, rest: seq<byte>)
    requires WriteValue(Object(oid, c, st)).Complete() && |Getters(c.declared)| <= INT32_MAX
    ensures WritePairs(Getters(c.declared), st).Complete()
    ensures ReadValue(WriteValue(Object(oid, c, st)).bytes + rest, cp, next) ==
      if c.name !in cp then Failure(ClassNotFound(c.name))
      else if !cp[c.name].hasDefaultCtor then Failure(CannotInstantiate(c.name))
      else
        var r := ReadPairs(WritePairs(Getters(c.declared), st).bytes + rest, cp, next + 1,
                           |Getters(c.declared)|, cp[c.name], cp[c.name].defaults);
        if r.Failure? then Failure(r.error)
        else Success(Decoded(Object(next, cp[c.name], r.value.state), r.value.rest, r.value.next))
  {
    var gs := Getters(c.declared);
    var w := WriteValue(Object(oid, c, st));
    var u := WriteUtf(c.name).value;
    var count := Int32Bytes(Wrap32(|gs|));
    var pairs := WritePairs(gs, st).bytes;
    ObjectBytes(oid, c, st);
    var s := w.bytes + rest;
    ReadTag(s, cp, next);
    var tail := count + (pairs + rest);
    AfterTag(OBJECT, u, count, pairs, rest);
    ReadWriteUtf(c.name, tail);
    assert ReadString(s[1..]) == Success((c.name, tail));
    ObjectHeader(s[1..], c.name, count, pairs + rest, cp, next);
    assert ReadInt32(count) == |gs| by {
      SignedRoundTrips(0, 0, Wrap32(|gs|), 0);
    }
  }

  /** Regrouping a tag and three fields followed by the rest of the stream. */
  lemma AfterTag(tag: byte, a: seq<byte>, b: seq<byte>, c: seq<byte>, rest: seq<byte>)
    ensures (([tag] + (a + (b + c))) + rest)[1..] == a + (b + (c + rest))
  {
    assert ([tag] + (a + (b + c))) + rest == [tag] + (a + (b + (c + rest)));
  }

  lemma ObjectBytes(oid: nat, c: ClassDesc, st: seq<Prop>)
    requires WriteValue(Object(oid, c, st)).Complete()
    ensures WriteUtf(c.name).Some? && WritePairs(Getters(c.declared), st).Complete()
    ensures WriteValue(Object(oid, c, st)).bytes
         == [OBJECT] + (WriteUtf(c.name).value + (Int32Bytes(Wrap32(|Getters(c.declared)|)) + WritePairs(Getters(c.declared), st).bytes))
  {
  }

  lemma ReadWrittenHandle(h: ObjectHandle, cp: ClassPath, next: nat, rest: seq<byte>)
    requires EncodeHandle(h).Complete()
    ensures ReadValue([OBJECTHANDLE] + EncodeHandle(h).bytes + rest, cp, next) == Lift(CopyHandle(h.key, cp, next), rest)
  {
    var s := [OBJECTHANDLE] + EncodeHandle(h).bytes + rest;
    assert s[1..] == EncodeHandle(h).bytes + rest;
    ReadTag(s, cp, next);
    DecodeWrittenHandle(h, cp, next, rest);
  }

  /** The four fields of a written handle read back as its key. */
  lemma DecodeWrittenHandle(h: ObjectHandle, cp: ClassPath, next: nat, rest: seq<byte>)
    requires EncodeHandle(h).Complete()
    ensures LiftHandle(DecodeHandle(EncodeHandle(h).bytes + rest, cp, next)) == Lift(CopyHandle(h.key, cp, next), rest)
  {
    var k := h.key;
    var b1 := WriteScalar(Int(k.id)).bytes;
    var b2 := WriteScalar(StringOrNull(k.broker)).bytes;
    var b3 := WriteScalar(StringOrNull(k.queue)).bytes;
    var b4 := WriteScalar(Str(k.iface)).bytes;
    HandleBytes(h, rest);
    ReadWrittenScalar(Int(k.id), cp, next, b2 + (b3 + (b4 + rest)));
    ReadWrittenScalar(StringOrNull(k.broker), cp, next, b3 + (b4 + rest));
    ReadWrittenScalar(StringOrNull(k.queue), cp, next, b4 + rest);
    ReadWrittenScalar(Str(k.iface), cp, next, rest);
    assert AsString(StringOrNull(k.broker)) == Success(k.broker);
    assert AsString(StringOrNull(k.queue)) == Success(k.queue);
  }

  lemma {:induction false} ReadWrittenAll(es: seq<Value>, cp: ClassPath, next: nat, rest: seq<byte>)
    requires WriteAll(es).Complete() && CountableAll(es)
    ensures ReadElems(WriteAll(es).bytes + rest, cp, next, |es|) == LiftAll(CopyAll(es, cp, next), rest)
    decreases SeqSize(es), |es| + 1
  {
    if |es| > 0 {
      var tail := WriteAll(es[1..]).bytes + rest;
      ElemsBytes(es, rest);
      ReadWritten(es[0], cp, next, tail);
      match Copy(es[0], cp, next)
      case Failure(_) =>
      case Success((w, n1)) =>
        ReadWrittenAll(es[1..], cp, n1, rest);
        assert ReadValue(WriteAll(es).bytes + rest, cp, next) == Success(Decoded(w, tail, n1));
        assert ReadElems(tail, cp, n1, |es| - 1) == LiftAll(CopyAll(es[1..], cp, n1), rest);
    } else {
      assert WriteAll(es).bytes + rest == rest;
    }
  }

  lemma {:induction false} ReadWrittenPairs(gs: seq<MethodSig>, st: seq<Prop>, cp: ClassPath, dc: ClassDesc,
                                            acc: seq<Prop>, next: nat, rest: seq<byte>)
    requires forall i :: 0 <= i < |gs| ==> IsGetter(gs[i])
    requires WritePairs(gs, st).Complete() && CountablePairs(gs, st)
    ensures ReadPairs(WritePairs(gs, st).bytes + rest, cp, next, |gs|, dc, acc)
         == LiftPairs(CopyPairs(gs, st, cp, dc, acc, next), rest)
    decreases 1 + StateSize(st), |gs| + 1
  {
    if |gs| > 0 {
      assert IsGetter(gs[0]);
      var p := PropName(gs[0].name);
      var v := GetProp(st, p);
      var tail := WritePairs(gs[1..], st).bytes + rest;
      var t := WriteValue(v).bytes + tail;
      PairsBytes(gs, st, rest);
      ReadWriteUtf(p, t);
      ReadWritten(v, cp, next, tail);
      match Copy(v, cp, next)
      case Failure(_) =>
      case Success((w, n1)) =>
        PairStep(WritePairs(gs, st).bytes + rest, p, t, w, tail, cp, next, n1, |gs|, dc, acc);
        match ApplyPair(dc, acc, p, w)
        case Failure(_) =>
        case Success(acc') =>
          ReadWrittenPairs(gs[1..], st, cp, dc, acc', n1, rest);
    } else {
      assert WritePairs(gs, st).bytes + rest == rest;
    }
  }
  /** One step of decodeObject's loop, once the name and the value have been read. */
  lemma PairStep(s: seq<byte>, p: string, t: seq<byte>, w: Value, tail: seq<byte>, cp: ClassPath, next: nat, n1: nat,
                 n: int, dc: ClassDesc, acc: seq<Prop>)
    requires n > 0 && ReadString(s) == Success((p, t)) && ReadValue(t, cp, next) == Success(Decoded(w, tail, n1))
    ensures var a := ApplyPair(dc, acc, p, w);
      ReadPairs(s, cp, next, n, dc, acc) ==
        if a.Failure? then Failure(a.error) else ReadPairs(tail, cp, n1, n - 1, dc, a.value)
  {
  }

  /** decodeObject once the class name and the four-byte count have been read. */
  lemma ObjectHeader(s: seq<byte>, name: string, count: seq<byte>, payload: seq<byte>, cp: ClassPath, next: nat)
    requires |count| == 4 && ReadString(s) == Success((name, count + payload))
    ensures DecodeObject(s, cp, next) ==
      if name !in cp then Failure(ClassNotFound(name))
      else if !cp[name].hasDefaultCtor then Failure(CannotInstantiate(name))
      else
        var r := ReadPairs(payload, cp, next + 1, ReadInt32(count), cp[name], cp[name].defaults);
        if r.Failure? then Failure(r.error)
        else Success(Decoded(Object(next, cp[name], r.value.state), r.value.rest, r.value.next))
  {
    var t := count + payload;
    assert t[..4] == count && t[4..] == payload;
  }

  /** A written handle: its four fields in turn. */
  lemma HandleBytes(h: ObjectHandle, rest: seq<byte>)
    requires EncodeHandle(h).Complete()
    ensures var k := h.key;
      && WriteScalar(Int(k.id)).Complete() && WriteScalar(StringOrNull(k.broker)).Complete()
      && WriteScalar(StringOrNull(k.queue)).Complete() && WriteScalar(Str(k.iface)).Complete()
      && EncodeHandle(h).bytes + rest
         == WriteScalar(Int(k.id)).bytes + (WriteScalar(StringOrNull(k.broker)).bytes
            + (WriteScalar(StringOrNull(k.queue)).bytes + (WriteScalar(Str(k.iface)).bytes + rest)))
  {
    var k := h.key;
    var a := WriteScalar(Int(k.id));
    var b := WriteScalar(StringOrNull(k.broker));
    var c := WriteScalar(StringOrNull(k.queue));
    var d := WriteScalar(Str(k.iface));
    assert EncodeHandle(h).bytes == a.bytes + (b.bytes + (c.bytes + d.bytes));
    Concat3(a.bytes, b.bytes + (c.bytes + d.bytes), rest);
    Concat3(b.bytes, c.bytes + d.bytes, rest);
    Concat3(c.bytes, d.bytes, rest);
  }

  /** Written elements: the first element's bytes, then the others'. */
  lemma ElemsBytes(es: seq<Value>, rest: seq<byte>)
    requires |es| > 0 && WriteAll(es).Complete()
    ensures WriteValue(es[0]).Complete() && WriteAll(es[1..]).Complete()
    ensures WriteAll(es).bytes + rest == WriteValue(es[0]).bytes + (WriteAll(es[1..]).bytes + rest)
  {
    var a := WriteValue(es[0]);
    var b := WriteAll(es[1..]);
    assert WriteAll(es) == Then(a, b);
    Concat3(a.bytes, b.bytes, rest);
  }

  lemma Concat3(a: seq<byte>, b: seq<byte>, c: seq<byte>)
    ensures (a + b) + c == a + (b + c)
  {
  }

  /** Written pairs: the first property's name and value, then the other pairs. */
  lemma PairsBytes(gs: seq<MethodSig>, st: seq<Prop>, rest: seq<byte>)
    requires forall i :: 0 <= i < |gs| ==> IsGetter(gs[i])
    requires |gs| > 0 && WritePairs(gs, st).Complete()
    ensures IsGetter(gs[0]) && WriteUtf(PropName(gs[0].name)).Some?
    ensures WriteValue(GetProp(st, PropName(gs[0].name))).Complete() && WritePairs(gs[1..], st).Complete()
    ensures WritePairs(gs, st).bytes + rest
         == WriteUtf(PropName(gs[0].name)).value
            + (WriteValue(GetProp(st, PropName(gs[0].name))).bytes + (WritePairs(gs[1..], st).bytes + rest))
  {
    assert IsGetter(gs[0]);
    var p := PropName(gs[0].name);
    var a := WriteString(p);
    var b := WriteValue(GetProp(st, p));
    var c := WritePairs(gs[1..], st);
    assert WritePairs(gs, st) == Then(a, Then(b, c));
    assert WritePairs(gs, st).bytes == a.bytes + (b.bytes + c.bytes);
    Concat3(a.bytes, b.bytes + c.bytes, rest);
    Concat3(b.bytes, c.bytes, rest);
  }
}

module WireFacts {
  import opened Bytes
  import opened Wrappers
  import opened Values
  import opened Utf
  import opened Handles
  import opened Wire
  import opened WireLaws

  /** Values that hold no handle, proxy or object anywhere. */
  predicate Plain(v: Value)
    decreases Size(v), 0
  {
    match v
    case Array(es) => PlainAll(es)
    case _ => IsPlainScalar(v)
  }

  predicate PlainAll(es: seq<Value>)
    decreases SeqSize(es), |es|
  {
    |es| == 0 || (Plain(es[0]) && PlainAll(es[1..]))
  }

  lemma {:induction false} CopyPlain(v: Value, cp: ClassPath, next: nat)
    requires Plain(v)
    ensures Copy(v, cp, next) == Success((v, next))
    decreases Size(v), 1
  {
    match v
    case Array(es) => CopyAllPlain(es, cp, next);
    case _ =>
  }

  lemma {:induction false} CopyAllPlain(es: seq<Value>, cp: ClassPath, next: nat)
    requires PlainAll(es)
    ensures CopyAll(es, cp, next) == Success((es, next))
    decreases SeqSize(es), |es| + 1
  {
    if |es| > 0 {
      CopyPlain(es[0], cp, next);
      CopyAllPlain(es[1..], cp, next);
      assert [es[0]] + es[1..] == es;
    }
  }

  /** Null, boxed primitives, strings and arrays of them come back exactly, whatever the class path. */
  lemma PlainRoundTrip(v: Value, cp: ClassPath, next: nat, rest: seq<byte>)
    requires Plain(v) && WriteValue(v).Complete() && Countable(v)
    ensures ReadValue(WriteValue(v).bytes + rest, cp, next) == Success(Decoded(v, rest, next))
  {
    ReadWritten(v, cp, next, rest);
    CopyPlain(v, cp, next);
  }

  /** Two values written one after the other are read back in the same order. */
  lemma ReadsInOrder(a: Value, b: Value, cp: ClassPath, next: nat, rest: seq<byte>)
    requires Plain(a) && WriteValue(a).Complete() && Countable(a)
    requires Plain(b) && WriteValue(b).Complete() && Countable(b)
    ensures ReadValue(WriteValue(a).bytes + WriteValue(b).bytes + rest, cp, next)
         == Success(Decoded(a, WriteValue(b).bytes + rest, next))
    ensures ReadValue(WriteValue(b).bytes + rest, cp, next) == Success(Decoded(b, rest, next))
  {
    assert WriteValue(a).bytes + WriteValue(b).bytes + rest == WriteValue(a).bytes + (WriteValue(b).bytes + rest);
    PlainRoundTrip(a, cp, next, WriteValue(b).bytes + rest);
    PlainRoundTrip(b, cp, next, rest);
  }

  /** A tag outside 1..12 is refused, naming the tag as a signed byte. */
  lemma UnknownTagRejected(tag: byte, t: seq<byte>, cp: ClassPath, next: nat)
    requires !KnownTag(tag)
    ensures ReadValue([tag] + t, cp, next) == Failure(UnknownType(tag))
  {
    assert ([tag] + t)[0] == tag;
  }

  /** A proxy is written exactly as the handle behind it. */
  lemma ProxyWritesAsHandle(pid: nat, h: ObjectHandle, ifaces: set<string>)
    ensures WriteValue(Proxy(pid, h, ifaces)) == WriteValue(HandleRef(h))
  {
  }

  /**
   * A handle comes back unbound and non-local with the same four fields,
   * hence equal to the original; an interface the reader cannot load fails.
   */
  lemma HandleRoundTrip(h: ObjectHandle, cp: ClassPath, next: nat, rest: seq<byte>)
    requires WriteValue(HandleRef(h)).Complete()
    ensures h.key.iface in cp ==>
      ReadValue(WriteValue(HandleRef(h)).bytes + rest, cp, next) == Success(Decoded(HandleRef(DecodedHandle(h.key)), rest, next))
    ensures h.key.iface in cp ==> Equals(DecodedHandle(h.key), h) && !DecodedHandle(h.key).local
    ensures h.key.iface !in cp ==>
      ReadValue(WriteValue(HandleRef(h)).bytes + rest, cp, next) == Failure(ClassNotFound(h.key.iface))
  {
    ReadWritten(HandleRef(h), cp, next, rest);
    EqualsIsKeyEquality(DecodedHandle(h.key), h);
  }

  /**
   * decode casts the id before it reads any further field: a first value
   * that is not an Integer fails the cast and a null one fails unboxing,
   * whatever bytes follow it.
   */
  lemma HandleIdMistyped(v: Value, t: seq<byte>, cp: ClassPath, next: nat)
    requires Plain(v) && WriteValue(v).Complete() && Countable(v) && !v.Int?
    ensures ReadValue([OBJECTHANDLE] + WriteValue(v).bytes + t, cp, next)
         == Failure(if v.Null? then NULL_POINTER else CLASS_CAST)
  {
    var s := [OBJECTHANDLE] + WriteValue(v).bytes + t;
    ReadTag(s, cp, next);
    assert s[1..] == WriteValue(v).bytes + t;
    PlainRoundTrip(v, cp, next, t);
  }

  /** A count that is negative is refused before any element is read. */
  lemma NegativeArrayRejected(n: i32, t: seq<byte>, cp: ClassPath, next: nat)
    requires n < 0
    ensures ReadValue([ARRAY] + Int32Bytes(n) + t, cp, next) == Failure(NEGATIVE_ARRAY_SIZE)
  {
    var s := [ARRAY] + Int32Bytes(n) + t;
    ReadTag(s, cp, next);
    assert s[1..][..4] == Int32Bytes(n);
    SignedRoundTrips(0, 0, n, 0);
  }

  /** An object whose class the reader lacks, or cannot instantiate, is refused. */
  lemma ObjectClassRequired(name: string, t: seq<byte>, cp: ClassPath, next: nat)
    requires WriteUtf(name).Some?
    ensures name !in cp ==> ReadValue([OBJECT] + WriteUtf(name).value + t, cp, next) == Failure(ClassNotFound(name))
    ensures name in cp && !cp[name].hasDefaultCtor ==>
      ReadValue([OBJECT] + WriteUtf(name).value + t, cp, next) == Failure(CannotInstantiate(name))
  {
    var s := [OBJECT] + WriteUtf(name).value + t;
    ReadTag(s, cp, next);
    assert s[1..] == WriteUtf(name).value + t;
    ReadWriteUtf(name, t);
  }

  /**
   * One (name, value) pair: the value is always consumed; it is stored
   * only if the class has a setter for the name, and refused if that
   * setter's parameter cannot take it.
   */
  lemma PairConsumed(p: string, v: Value, t: seq<byte>, cp: ClassPath, next: nat, n: int, c: ClassDesc, st: seq<Prop>)
    requires WriteUtf(p).Some? && Plain(v) && WriteValue(v).Complete() && Countable(v) && n >= 1
    ensures FindSetter(c, p).None? ==>
      ReadPairs(WriteUtf(p).value + WriteValue(v).bytes + t, cp, next, n, c, st) == ReadPairs(t, cp, next, n - 1, c, st)
    ensures FindSetter(c, p).Some? && Accepts(FindSetter(c, p).value.params[0], v) ==>
      ReadPairs(WriteUtf(p).value + WriteValue(v).bytes + t, cp, next, n, c, st)
        == ReadPairs(t, cp, next, n - 1, c, SetProp(st, p, v))
    ensures FindSetter(c, p).Some? && !Accepts(FindSetter(c, p).value.params[0], v) ==>
      ReadPairs(WriteUtf(p).value + WriteValue(v).bytes + t, cp, next, n, c, st) == Failure(ARGUMENT_MISMATCH)
  {
    assert WriteUtf(p).value + WriteValue(v).bytes + t == WriteUtf(p).value + (WriteValue(v).bytes + t);
    ReadWriteUtf(p, WriteValue(v).bytes + t);
    PlainRoundTrip(v, cp, next, t);
  }

  // ------------------------------------------------------------ beans

  function PropNames(gs: seq<MethodSig>): (names: set<string>)
    requires forall i :: 0 <= i < |gs| ==> IsGetter(gs[i])
    ensures forall i :: 0 <= i < |gs| ==> IsGetter(gs[i]) && PropName(gs[i].name) in names
  {
    if |gs| == 0 then {}
    else
      assert IsGetter(gs[0]);
      {PropName(gs[0].name)} + PropNames(gs[1..])
  }

  /** Property `p` holds a plain value that the reader's setter for `p` takes. */
  predicate BeanProp(p: string, st: seq<Prop>, dc: ClassDesc) {
    Plain(GetProp(st, p)) && FindSetter(dc, p).Some? && Accepts(FindSetter(dc, p).value.params[0], GetProp(st, p))
  }

  predicate BeanPairs(gs: seq<MethodSig>, st: seq<Prop>, dc: ClassDesc) {
    forall i :: 0 <= i < |gs| ==> IsGetter(gs[i]) && BeanProp(PropName(gs[i].name), st, dc)
  }

  lemma {:induction false} CopyBeanPairs(gs: seq<MethodSig>, st: seq<Prop>, cp: ClassPath, dc: ClassDesc, acc: seq<Prop>, next: nat)
    requires BeanPairs(gs, st, dc)
    ensures CopyPairs(gs, st, cp, dc, acc, next).Success?
    ensures CopyPairs(gs, st, cp, dc, acc, next).value.1 == next
    ensures forall p :: GetProp(CopyPairs(gs, st, cp, dc, acc, next).value.0, p)
                     == if p in PropNames(gs) then GetProp(st, p) else GetProp(acc, p)
  {
    if |gs| > 0 {
      var p0 := PropName(gs[0].name);
      var v := GetProp(st, p0);
      CopyPlain(v, cp, next);
      var acc1 := SetProp(acc, p0, v);
      assert ApplyPair(dc, acc, p0, v) == Success(acc1);
      assert BeanPairs(gs[1..], st, dc) by {
        forall i | 0 <= i < |gs[1..]| ensures IsGetter(gs[1..][i]) && BeanProp(PropName(gs[1..][i].name), st, dc) {
          assert gs[1..][i] == gs[i + 1];
        }
      }
      CopyBeanPairs(gs[1..], st, cp, dc, acc1, next);
      assert CopyPairs(gs, st, cp, dc, acc, next) == CopyPairs(gs[1..], st, cp, dc, acc1, next);
    }
  }

  /**
   * A bean whose every getter property is plain and has a setter taking
   * it comes back as a fresh instance of the reader's class: getter
   * properties equal the original's, every other property keeps the
   * class's default.
   */
  lemma BeanRoundTrip(oid: nat, c: ClassDesc, st: seq<Prop>, cp: ClassPath, next: nat, rest: seq<byte>)
    requires WriteValue(Object(oid, c, st)).Complete() && Countable(Object(oid, c, st))
    requires c.name in cp && cp[c.name].hasDefaultCtor
    requires BeanPairs(Getters(c.declared), st, cp[c.name])
    ensures var r := ReadValue(WriteValue(Object(oid, c, st)).bytes + rest, cp, next);
      && r.Success? && r.value.rest == rest && r.value.next == next + 1
      && r.value.value.Object? && r.value.value.oid == next && r.value.value.cls == cp[c.name]
      && forall p :: GetProp(r.value.value.state, p)
                  == if p in PropNames(Getters(c.declared)) then GetProp(st, p) else GetProp(cp[c.name].defaults, p)
  {
    ReadWritten(Object(oid, c, st), cp, next, rest);
    BeanCopy(oid, c, st, cp, next);
  }

  lemma BeanCopy(oid: nat, c: ClassDesc, st: seq<Prop>, cp: ClassPath, next: nat)
    requires c.name in cp && cp[c.name].hasDefaultCtor
    requires BeanPairs(Getters(c.declared), st, cp[c.name])
    ensures var r := Copy(Object(oid, c, st), cp, next);
      && r.Success? && r.value.1 == next + 1
      && r.value.0.Object? && r.value.0.oid == next && r.value.0.cls == cp[c.name]
      && forall p :: GetProp(r.value.0.state, p)
                  == if p in PropNames(Getters(c.declared)) then GetProp(st, p) else GetProp(cp[c.name].defaults, p)
  {
    var dc := cp[c.name];
    var gs := Getters(c.declared);
    CopyBeanPairs(gs, st, cp, dc, dc.defaults, next + 1);
  }
}
