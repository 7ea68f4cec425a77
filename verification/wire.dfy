/**
 * JMSLiteMessage: the self-describing value stream. Every value is one tag
 * byte and a payload; arrays carry a count and their elements, handles
 * their four fields, and any other object its class name and the values
 * of its getters. Reading rebuilds objects through their setters.
 */
module Wire {
  import opened Bytes
  import opened Wrappers
  import opened Values
  import opened Utf
  import opened Handles
  import Decimal

  const INTEGER: byte := 1
  const BOOLEAN: byte := 2
  const DOUBLE: byte := 3
  const STRING: byte := 4
  const ARRAY: byte := 5
  const FLOAT: byte := 6
  const LONG: byte := 7
  const SHORT: byte := 8
  const BYTE: byte := 9
  const OBJECT: byte := 10
  const NULL: byte := 11
  const OBJECTHANDLE: byte := 12

  predicate KnownTag(t: byte) {
    1 <= t <= 12
  }

  // Exceptions raised while reading and writing.

  /** The stream ended inside a value (the message's MessageEOFException). */
  const END_OF_MESSAGE := Exn("javax.jms.MessageEOFException", None)
  /** A string's bytes are not modified UTF-8 (the message's MessageFormatException). */
  const MALFORMED_STRING := Exn("javax.jms.MessageFormatException", None)
  /** A string holding an unpaired surrogate, which this model's strings cannot hold. */
  const UNPAIRED_SURROGATE := Exn("unpaired surrogate", None)

  function StringTooLong(n: int): Exn {
    Exn("javax.jms.JMSException", Some("encoded string too long: " + Decimal.IntText(n) + " bytes"))
  }

  function UnknownType(tag: byte): Exn {
    Pow256Values();
    Exn("java.lang.IllegalArgumentException",
        Some("Unknown type while reading message: " + Decimal.IntText(ToSigned(tag, 1))))
  }

  function ClassNotFound(name: string): Exn {
    Exn("java.lang.ClassNotFoundException", Some(name))
  }

  function CannotInstantiate(name: string): Exn {
    Exn("java.lang.InstantiationException", Some(name))
  }

  const CLASS_CAST := Exn("java.lang.ClassCastException", None)
  const NULL_POINTER := Exn("java.lang.NullPointerException", None)
  const NEGATIVE_ARRAY_SIZE := Exn("java.lang.NegativeArraySizeException", None)
  /** Method.invoke refusing an argument its parameter type cannot take. */
  const ARGUMENT_MISMATCH := Exn("java.lang.IllegalArgumentException", Some("argument type mismatch"))

  // ---------------------------------------------------------------- writing

  /** What a run of writes put into the message, and the exception that stopped it, if any. */
  datatype Written = Written(bytes: seq<byte>, failure: Option<Exn>) {
    predicate Complete() {
      failure.None?
    }
  }

  function Done(bs: seq<byte>): Written {
    Written(bs, None)
  }

  /** A write followed by another; the second is skipped once the first has thrown. */
  function Then(first: Written, next: Written): (w: Written)
    ensures w.Complete() <==> first.Complete() && next.Complete()
    ensures w.Complete() ==> w.bytes == first.bytes + next.bytes
    ensures !first.Complete() ==> w == first
  {
    if first.failure.Some? then first else Written(first.bytes + next.bytes, next.failure)
  }

  /** writeUTF: nothing is written when the encoding exceeds 65535 bytes. */
  function WriteString(s: string): (w: Written)
    ensures w.Complete() <==> WriteUtf(s).Some?
    ensures w.Complete() ==> w.bytes == WriteUtf(s).value
  {
    match WriteUtf(s)
    case Some(bs) => Done(bs)
    case None => Written([], Some(StringTooLong(|EncodeUnits(ToUnits(s))|)))
  }

  predicate IsPlainScalar(v: Value) {
    !(v.HandleRef? || v.Proxy? || v.Array? || v.Object?)
  }

  /** write() of null, a boxed primitive or a string: its tag and payload. */
  function WriteScalar(v: Value): (w: Written)
    requires IsPlainScalar(v)
    ensures |w.bytes| >= 1 || !w.Complete()
  {
    Pow256Values();
    match v
    case Null => Done([NULL])
    case Int(i) => Done([INTEGER] + Int32Bytes(i))
    case Byte(b) => Done([BYTE] + Int8Bytes(b))
    case Long(l) => Done([LONG] + Int64Bytes(l))
    case Short(x) => Done([SHORT] + Int16Bytes(x))
    case Bool(z) => Done([BOOLEAN, if z then 1 else 0])
    case Double(d) => Done([DOUBLE] + EncodeBE(d, 8))
    case Float(f) => Done([FLOAT] + EncodeBE(f, 4))
    case Str(s) => Then(Done([STRING]), WriteString(s))
  }

  function StringOrNull(s: Option<string>): Value {
    if s.Some? then Str(s.value) else Null
  }

  /** ObjectHandle.encode: id, broker URL, queue name, interface name, each as a value. */
  function EncodeHandle(h: ObjectHandle): Written {
    Then(WriteScalar(Int(h.key.id)),
      Then(WriteScalar(StringOrNull(h.key.broker)),
        Then(WriteScalar(StringOrNull(h.key.queue)),
          WriteScalar(Str(h.key.iface)))))
  }

  predicate StartsWith(s: string, prefix: string) {
    |prefix| <= |s| && s[..|prefix|] == prefix
  }

  /** A getter as encodeObject counts one: a get/is name and no parameters. */
  predicate IsGetter(m: MethodSig) {
    (StartsWith(m.name, "get") || StartsWith(m.name, "is")) && |m.params| == 0
  }

  /**
   * The getters among the declared methods, each as often as it occurs and
   * in the order getDeclaredMethods returned them (WireLaws.GettersAppend,
   * WireLaws.GettersCount).
   */
  function Getters(ms: seq<MethodSig>): (gs: seq<MethodSig>)
    ensures |gs| <= |ms|
    ensures forall m :: m in gs <==> m in ms && IsGetter(m)
  {
    if |ms| == 0 then []
    else if IsGetter(ms[0]) then [ms[0]] + Getters(ms[1..])
    else Getters(ms[1..])
  }

  /** encodeGetterValue's property name: the getter name less "get", or else less "is". */
  function PropName(getter: string): (p: string)
    requires StartsWith(getter, "get") || StartsWith(getter, "is")
    ensures StartsWith(getter, "get") ==> getter == "get" + p
    ensures !StartsWith(getter, "get") ==> getter == "is" + p
  {
    if StartsWith(getter, "get") then getter[3..] else getter[2..]
  }

  /** write(): the tag and payload of any value, stopping at the first exception. */
  function WriteValue(v: Value): (w: Written)
    decreases Size(v), 0
  {
    match v
    case HandleRef(h) => Then(Done([OBJECTHANDLE]), EncodeHandle(h))
    case Proxy(_, h, _) => Then(Done([OBJECTHANDLE]), EncodeHandle(h))
    case Array(es) => Then(Done([ARRAY] + Int32Bytes(Wrap32(|es|))), WriteAll(es))
    case Object(_, c, st) =>
      var gs := Getters(c.declared);
      Then(Done([OBJECT]), Then(WriteString(c.name), Then(Done(Int32Bytes(Wrap32(|gs|))), WritePairs(gs, st))))
    case _ => WriteScalar(v)
  }

  /** The elements of an array, each written in turn. */
  function WriteAll(es: seq<Value>): Written
    decreases SeqSize(es), |es|
  {
    if |es| == 0 then Done([])
    else Then(WriteValue(es[0]), WriteAll(es[1..]))
  }

  /** encodeObject's loop: for each getter, its property name and the value it returns. */
  function WritePairs(gs: seq<MethodSig>, st: seq<Prop>): Written
    requires forall i :: 0 <= i < |gs| ==> IsGetter(gs[i])
    decreases 1 + StateSize(st), |gs|
  {
    if |gs| == 0 then Done([])
    else
      assert IsGetter(gs[0]);
      var p := PropName(gs[0].name);
      Then(WriteString(p), Then(WriteValue(GetProp(st, p)), WritePairs(gs[1..], st)))
  }

  // ---------------------------------------------------------------- reading

  /** A value read from the stream, the bytes after it, and the next unused identity. */
  datatype Decoded = Decoded(value: Value, rest: seq<byte>, next: nat)
  datatype DecodedSeq = DecodedSeq(values: seq<Value>, rest: seq<byte>, next: nat)
  datatype DecodedState = DecodedState(state: seq<Prop>, rest: seq<byte>, next: nat)

  /** readUTF with the message's exceptions. */
  function ReadString(s: seq<byte>): (r: Result<(string, seq<byte>), Exn>)
    ensures r.Success? ==> |r.value.1| <= |s| - 2
  {
    match ReadUtf(s)
    case Success(p) => Success(p)
    case Failure(Truncated) => Failure(END_OF_MESSAGE)
    case Failure(Malformed) => Failure(MALFORMED_STRING)
    case Failure(LoneSurrogate) => Failure(UNPAIRED_SURROGATE)
  }

  /** The first public method named "set" + `name` with one parameter (findSetter). */
  function FindSetter(c: ClassDesc, name: string): (m: Option<MethodSig>)
    ensures m.Some? ==> m.value in c.methods && m.value.name == "set" + name && |m.value.params| == 1
    ensures m.None? ==> forall x :: x in c.methods ==> !(x.name == "set" + name && |x.params| == 1)
  {
    FirstSetter(c.methods, "set" + name)
  }

  function FirstSetter(ms: seq<MethodSig>, setter: string): (m: Option<MethodSig>)
    ensures m.Some? ==> m.value in ms && m.value.name == setter && |m.value.params| == 1
    ensures m.None? ==> forall x :: x in ms ==> !(x.name == setter && |x.params| == 1)
  {
    if |ms| == 0 then None
    else if ms[0].name == setter && |ms[0].params| == 1 then Some(ms[0])
    else FirstSetter(ms[1..], setter)
  }

  /** The state after one decoded pair: set through the setter if there is one, else unchanged. */
  function ApplyPair(c: ClassDesc, st: seq<Prop>, name: string, v: Value): Result<seq<Prop>, Exn> {
    match FindSetter(c, name)
    case None => Success(st)
    case Some(m) => if Accepts(m.params[0], v) then Success(SetProp(st, name, v)) else Failure(ARGUMENT_MISMATCH)
  }

  /** The tags whose payload is a fixed-width number or a string. */
  predicate IsScalarTag(tag: byte) {
    tag in {NULL, INTEGER, BYTE, LONG, SHORT, BOOLEAN, DOUBLE, FLOAT, STRING}
  }

  /** read() of null, a boxed primitive or a string, the tag already consumed. */
  function ReadScalar(tag: byte, t: seq<byte>, next: nat): (r: Result<Decoded, Exn>)
    requires IsScalarTag(tag)
    ensures r.Success? ==> |r.value.rest| <= |t| && r.value.next == next
  {
    Pow256Values();
    if tag == NULL then Success(Decoded(Null, t, next))
    else if tag == INTEGER then
      if |t| < 4 then Failure(END_OF_MESSAGE) else Success(Decoded(Int(ReadInt32(t[..4])), t[4..], next))
    else if tag == BYTE then
      if |t| < 1 then Failure(END_OF_MESSAGE) else Success(Decoded(Byte(ReadInt8(t[..1])), t[1..], next))
    else if tag == LONG then
      if |t| < 8 then Failure(END_OF_MESSAGE) else Success(Decoded(Long(ReadInt64(t[..8])), t[8..], next))
    else if tag == SHORT then
      if |t| < 2 then Failure(END_OF_MESSAGE) else Success(Decoded(Short(ReadInt16(t[..2])), t[2..], next))
    else if tag == BOOLEAN then
      if |t| < 1 then Failure(END_OF_MESSAGE) else Success(Decoded(Bool(t[0] != 0), t[1..], next))
    else if tag == DOUBLE then
      if |t| < 8 then Failure(END_OF_MESSAGE) else Success(Decoded(Double(DecodeBE(t[..8])), t[8..], next))
    else if tag == FLOAT then
      if |t| < 4 then Failure(END_OF_MESSAGE) else Success(Decoded(Float(DecodeBE(t[..4])), t[4..], next))
    else
      match ReadString(t)
      case Failure(e) => Failure(e)
      case Success((str, rest)) => Success(Decoded(Str(str), rest, next))
  }

  /** read(): one value; objects it rebuilds take identities from `next` upwards. */
  function ReadValue(s: seq<byte>, cp: ClassPath, next: nat): (r: Result<Decoded, Exn>)
    ensures r.Success? ==> |r.value.rest| < |s| && r.value.next >= next
    decreases |s|, 0
  {
    if |s| == 0 then Failure(END_OF_MESSAGE)
    else
      var tag := s[0];
      var t := s[1..];
      if IsScalarTag(tag) then ReadScalar(tag, t, next)
      else if tag == OBJECTHANDLE then
        match DecodeHandle(t, cp, next)
        case Failure(e) => Failure(e)
        case Success((h, rest, n)) => Success(Decoded(HandleRef(h), rest, n))
      else if tag == OBJECT then DecodeObject(t, cp, next)
      else if tag == ARRAY then DecodeArray(t, cp, next)
      else Failure(UnknownType(tag))
  }

  /** decodeArray: a non-negative count, then that many values. */
  function DecodeArray(t: seq<byte>, cp: ClassPath, next: nat): (r: Result<Decoded, Exn>)
    ensures r.Success? ==> |r.value.rest| < |t| && r.value.next >= next
    decreases |t|, 1
  {
    if |t| < 4 then Failure(END_OF_MESSAGE)
    else
      var len := ReadInt32(t[..4]);
      if len < 0 then Failure(NEGATIVE_ARRAY_SIZE)
      else
        match ReadElems(t[4..], cp, next, len)
        case Failure(e) => Failure(e)
        case Success(d) => Success(Decoded(Array(d.values), d.rest, d.next))
  }

  /** `(String) read()`: a string or null; anything else fails the cast. */
  function AsString(v: Value): Result<Option<string>, Exn> {
    match v
    case Str(s) => Success(Some(s))
    case Null => Success(None)
    case _ => Failure(CLASS_CAST)
  }

  /**
   * ObjectHandle.decode: reads id, broker URL, queue name and interface
   * name, casting each before the next is read, and loads the interface by
   * name.
   */
  function DecodeHandle(s: seq<byte>, cp: ClassPath, next: nat): (r: Result<(ObjectHandle, seq<byte>, nat), Exn>)
    ensures r.Success? ==> |r.value.1| < |s| && r.value.2 >= next
    ensures r.Success? ==> r.value.0 == DecodedHandle(r.value.0.key)
    decreases |s|, 1
  {
    match ReadValue(s, cp, next)
    case Failure(e) => Failure(e)
    case Success(d1) =>
      if d1.value.Null? then Failure(NULL_POINTER)
      else if !d1.value.Int? then Failure(CLASS_CAST)
      else
        match ReadValue(d1.rest, cp, d1.next)
        case Failure(e) => Failure(e)
        case Success(d2) =>
          match AsString(d2.value)
          case Failure(e) => Failure(e)
          case Success(broker) =>
            match ReadValue(d2.rest, cp, d2.next)
            case Failure(e) => Failure(e)
            case Success(d3) =>
              match AsString(d3.value)
              case Failure(e) => Failure(e)
              case Success(queue) =>
                match ReadValue(d3.rest, cp, d3.next)
                case Failure(e) => Failure(e)
                case Success(d4) =>
                  match AsString(d4.value)
                  case Failure(e) => Failure(e)
                  case Success(None) => Failure(NULL_POINTER)
                  case Success(Some(iface)) =>
                    if iface !in cp then Failure(ClassNotFound(iface))
                    else Success((DecodedHandle(HandleKey(d1.value.i, broker, queue, iface)), d4.rest, d4.next))
  }

  /**
   * decodeObject: the class name, a new instance from the no-argument
   * constructor, then the announced number of (name, value) pairs.
   */
  function DecodeObject(s: seq<byte>, cp: ClassPath, next: nat): (r: Result<Decoded, Exn>)
    ensures r.Success? ==> |r.value.rest| < |s| && r.value.next >= next
    decreases |s|, 1
  {
    match ReadString(s)
    case Failure(e) => Failure(e)
    case Success((name, t)) =>
      if name !in cp then Failure(ClassNotFound(name))
      else if !cp[name].hasDefaultCtor then Failure(CannotInstantiate(name))
      else if |t| < 4 then Failure(END_OF_MESSAGE)
      else
        var c := cp[name];
        match ReadPairs(t[4..], cp, next + 1, ReadInt32(t[..4]), c, c.defaults)
        case Failure(e) => Failure(e)
        case Success(d) => Success(Decoded(Object(next, c, d.state), d.rest, d.next))
  }

  /** decodeObject's loop: each pair's value is read, then applied if a setter takes it. */
  function ReadPairs(s: seq<byte>, cp: ClassPath, next: nat, n: int, c: ClassDesc, st: seq<Prop>): (r: Result<DecodedState, Exn>)
    ensures r.Success? ==> |r.value.rest| <= |s| && r.value.next >= next
    decreases |s|, 2
  {
    if n <= 0 then Success(DecodedState(st, s, next))
    else
      match ReadString(s)
      case Failure(e) => Failure(e)
      case Success((name, t)) =>
        match ReadValue(t, cp, next)
        case Failure(e) => Failure(e)
        case Success(d) =>
          match ApplyPair(c, st, name, d.value)
          case Failure(e) => Failure(e)
          case Success(st') => ReadPairs(d.rest, cp, d.next, n - 1, c, st')
  }

  /** decodeArray's loop: `n` values in turn. */
  function ReadElems(s: seq<byte>, cp: ClassPath, next: nat, n: int): (r: Result<DecodedSeq, Exn>)
    ensures r.Success? ==> |r.value.rest| <= |s| && r.value.next >= next
    ensures r.Success? ==> |r.value.values| == if n < 0 then 0 else n
    decreases |s|, 2
  {
    if n <= 0 then Success(DecodedSeq([], s, next))
    else
      match ReadValue(s, cp, next)
      case Failure(e) => Failure(e)
      case Success(d) =>
        match ReadElems(d.rest, cp, d.next, n - 1)
        case Failure(e) => Failure(e)
        case Success(ds) => Success(DecodedSeq([d.value] + ds.values, ds.rest, ds.next))
  }
}
