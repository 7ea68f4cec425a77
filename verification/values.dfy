/**
 * The objects the runtime moves between endpoints, as seen by the wire
 * codec and the object repository: Java types and class descriptions
 * (standing in for reflection), values, object handles and exceptions.
 */
module Values {
  import opened Bytes
  import opened Wrappers

  /** Java's primitive types. */
  datatype Prim = PInt | PByte | PLong | PShort | PBoolean | PDouble | PFloat | PChar

  /** A parameter or return type: a primitive, void, or a class or interface by name. */
  datatype Type = Primitive(kind: Prim) | Void | Class(name: string, isInterface: bool)

  /** A method as reflection reports it: name, parameter types, return type. */
  datatype MethodSig = MethodSig(name: string, params: seq<Type>, ret: Type)

  /**
   * What reflection tells about a runtime class: its name, whether it is an
   * interface, the names of all its supertypes, its declared methods
   * (getDeclaredMethods, in the order it returns them, which Java leaves
   * unspecified), its public methods including the
   * inherited ones (getMethods), whether it has a usable no-argument
   * constructor, and the property state that constructor leaves.
   */
  datatype ClassDesc = ClassDesc(
    name: string,
    isInterface: bool,
    supertypes: set<string>,
    declared: seq<MethodSig>,
    methods: seq<MethodSig>,
    hasDefaultCtor: bool,
    defaults: seq<Prop>)

  /** One property of an object's state: what its getters return, what its setter stores. */
  datatype Prop = Prop(name: string, value: Value)

  /** The four fields of a handle that travel and that equality compares. */
  datatype HandleKey = HandleKey(id: i32, broker: Option<string>, queue: Option<string>, iface: string)

  /** An ObjectHandle: its key plus the owner-side binding, locality flag and retain count. */
  datatype ObjectHandle = ObjectHandle(key: HandleKey, bound: Value, local: bool, retain: int)

  /**
   * A Java object reference as the codec's write and read see it. Boxed
   * primitives carry their Java range; float and double payloads are
   * opaque bit patterns. Object and Proxy carry an identity (`oid`, `pid`)
   * standing for reference identity, and a proxy also carries the
   * interfaces its class implements (ProxyInterfaces); every other object
   * of the codec (an Object[] array included) is told apart by its
   * contents.
   */
  datatype Value =
    | Null
    | Int(i: i32)
    | Byte(b: i8)
    | Long(l: i64)
    | Short(sh: i16)
    | Bool(z: bool)
    | Double(d: u64)
    | Float(f: u32)
    | Str(str: string)
    | HandleRef(h: ObjectHandle)
    | Proxy(pid: nat, h: ObjectHandle, ifaces: set<string>)
    | Array(elems: seq<Value>)
    | Object(oid: nat, cls: ClassDesc, state: seq<Prop>)

  /** A Java Throwable: class name and detail message (getMessage may be null). */
  datatype Exn = Exn(name: string, message: Option<string>)

  /** Class.forName: the classes an endpoint can load, by name. */
  type ClassPath = map<string, ClassDesc>

  const OBJECT_CLASS := "java.lang.Object"
  const HANDLE_CLASS := "com.jaliansystems.activeMQLite.impl.ObjectHandle"
  const IPROXY_CLASS := "com.jaliansystems.activeMQLite.impl.IProxy"
  const ARRAY_CLASS := "[Ljava.lang.Object;"
  /** Dynamic proxy classes get JVM-chosen names; this stands for all of them. */
  const PROXY_CLASS := "$Proxy"

  /** Class.getName of a parameter or return type. */
  function TypeName(t: Type): string {
    match t
    case Primitive(PInt) => "int"
    case Primitive(PByte) => "byte"
    case Primitive(PLong) => "long"
    case Primitive(PShort) => "short"
    case Primitive(PBoolean) => "boolean"
    case Primitive(PDouble) => "double"
    case Primitive(PFloat) => "float"
    case Primitive(PChar) => "char"
    case Void => "void"
    case Class(n, _) => n
  }

  /** Class.isPrimitive, which is true of void as well. */
  predicate IsPrimitive(t: Type) {
    t.Primitive? || t.Void?
  }

  function TypeOf(c: ClassDesc): Type {
    Class(c.name, c.isInterface)
  }

  function NumberTypes(box: string): set<string> {
    {box, "java.lang.Number", "java.lang.Comparable", "java.io.Serializable", OBJECT_CLASS}
  }

  /**
   * The interfaces a proxy class made for interface `iface` implements
   * besides IProxy: `iface` itself and every supertype the class path
   * records for it.
   */
  function ProxyInterfaces(cp: ClassPath, iface: string): (names: set<string>)
    ensures iface in names
    ensures iface in cp ==> cp[iface].supertypes <= names
    ensures forall n :: n in names ==> n == iface || (iface in cp && n in cp[iface].supertypes)
  {
    {iface} + (if iface in cp then cp[iface].supertypes else {})
  }

  /** The names of every class and interface `v` is an instance of (Class.isInstance). */
  function TypeNames(v: Value): set<string> {
    match v
    case Null => {}
    case Int(_) => NumberTypes("java.lang.Integer")
    case Byte(_) => NumberTypes("java.lang.Byte")
    case Long(_) => NumberTypes("java.lang.Long")
    case Short(_) => NumberTypes("java.lang.Short")
    case Double(_) => NumberTypes("java.lang.Double")
    case Float(_) => NumberTypes("java.lang.Float")
    case Bool(_) => {"java.lang.Boolean", "java.lang.Comparable", "java.io.Serializable", OBJECT_CLASS}
    case Str(_) => {"java.lang.String", "java.lang.CharSequence", "java.lang.Comparable", "java.io.Serializable", OBJECT_CLASS}
    case HandleRef(_) => {HANDLE_CLASS, OBJECT_CLASS}
    case Proxy(_, _, ifaces) => ifaces + {IPROXY_CLASS, "java.lang.reflect.Proxy", "java.io.Serializable", OBJECT_CLASS}
    case Array(_) => {ARRAY_CLASS, "java.lang.Cloneable", "java.io.Serializable", OBJECT_CLASS}
    case Object(_, c, _) => {c.name, OBJECT_CLASS} + c.supertypes
  }

  predicate InstanceOf(v: Value, typeName: string) {
    typeName in TypeNames(v)
  }

  /** getClass().getName() of a non-null value. */
  function RuntimeClassName(v: Value): string {
    match v
    case Null => "null"
    case Int(_) => "java.lang.Integer"
    case Byte(_) => "java.lang.Byte"
    case Long(_) => "java.lang.Long"
    case Short(_) => "java.lang.Short"
    case Double(_) => "java.lang.Double"
    case Float(_) => "java.lang.Float"
    case Bool(_) => "java.lang.Boolean"
    case Str(_) => "java.lang.String"
    case HandleRef(_) => HANDLE_CLASS
    case Proxy(_, _, _) => PROXY_CLASS
    case Array(_) => ARRAY_CLASS
    case Object(_, c, _) => c.name
  }

  /** The primitive kind a boxed value unboxes to, if it is one of the seven boxes. */
  function BoxKind(v: Value): Option<Prim> {
    match v
    case Int(_) => Some(PInt)
    case Byte(_) => Some(PByte)
    case Long(_) => Some(PLong)
    case Short(_) => Some(PShort)
    case Bool(_) => Some(PBoolean)
    case Double(_) => Some(PDouble)
    case Float(_) => Some(PFloat)
    case _ => None
  }

  /**
   * Reference identity (Java `==`): objects and proxies by their identity,
   * null by itself, every other value by its contents.
   */
  predicate Identical(a: Value, b: Value) {
    if a.Object? || b.Object? then a.Object? && b.Object? && a.oid == b.oid
    else if a.Proxy? || b.Proxy? then a.Proxy? && b.Proxy? && a.pid == b.pid
    else a == b
  }

  lemma IdenticalIsEquivalence(a: Value, b: Value, c: Value)
    ensures Identical(a, a)
    ensures Identical(a, b) ==> Identical(b, a)
    ensures Identical(a, b) && Identical(b, c) ==> Identical(a, c)
  {
  }

  /** Method.invoke's argument check, without widening conversions. */
  predicate Accepts(t: Type, v: Value) {
    match t
    case Primitive(p) => BoxKind(v) == Some(p)
    case Void => false
    case Class(n, _) => v == Null || InstanceOf(v, n)
  }

  /** A size measure: values nested in arrays and in object state are smaller. */
  function Size(v: Value): (n: nat)
    ensures n >= 1
    decreases v, 1
  {
    match v
    case Array(es) => 1 + SeqSize(es)
    case Object(_, _, st) => 2 + StateSize(st)
    case _ => 1
  }

  function SeqSize(es: seq<Value>): nat
    decreases es, 0
  {
    if |es| == 0 then 0 else Size(es[0]) + SeqSize(es[1..])
  }

  function StateSize(st: seq<Prop>): nat
    decreases st, 0
  {
    if |st| == 0 then 0 else Size(st[0].value) + StateSize(st[1..])
  }

  /** The value a getter of property `name` returns: the first entry for it, else null. */
  function GetProp(st: seq<Prop>, name: string): (v: Value)
    ensures Size(v) <= 1 + StateSize(st)
    ensures v != Null ==> exists i :: 0 <= i < |st| && st[i] == Prop(name, v)
  {
    if |st| == 0 then Null
    else if st[0].name == name then st[0].value
    else GetProp(st[1..], name)
  }

  /** What a setter of property `name` leaves: its entry replaced, or added at the end. */
  function SetProp(st: seq<Prop>, name: string, v: Value): (r: seq<Prop>)
    ensures GetProp(r, name) == v
    ensures forall n :: n != name ==> GetProp(r, n) == GetProp(st, n)
  {
    if |st| == 0 then [Prop(name, v)]
    else if st[0].name == name then [Prop(name, v)] + st[1..]
    else [st[0]] + SetProp(st[1..], name, v)
  }
}
