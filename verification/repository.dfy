/**
 * ObjectRepository: the table of handles for local objects that have been
 * handed out, the published and exported interfaces, and the reflective
 * dispatch of an incoming call onto a local object.
 */
module Repository {
  import opened Bytes
  import opened Wrappers
  import opened Values
  import opened Handles
  import opened Wire
  import Decimal

  /**
   * The repository's fields. `next` is the first identity not yet given
   * to an object or proxy this endpoint creates (decoded objects, proxies).
   */
  datatype Repo = Repo(
    list: seq<ObjectHandle>,
    published: map<Type, Value>,
    exported: seq<Type>,
    broker: Option<string>,
    queue: Option<string>,
    objectID: i32,
    next: nat)

  /** The constructor: an empty table for one broker URL and queue name. */
  function NewRepo(broker: Option<string>, queue: Option<string>, next: nat): (r: Repo)
    ensures r.list == [] && r.published == map[] && r.exported == [] && r.objectID == 0
  {
    Repo([], map[], [], broker, queue, 0, next)
  }

  // ------------------------------------------------------------ searching

  /** The first entry whose object is `o` itself (the `==` loop of createHandle). */
  function IndexOfObject(list: seq<ObjectHandle>, o: Value): (r: Option<nat>)
    ensures r.Some? ==> r.value < |list| && Identical(list[r.value].bound, o)
    ensures r.Some? ==> forall j :: 0 <= j < r.value ==> !Identical(list[j].bound, o)
    ensures r.None? ==> forall j :: 0 <= j < |list| ==> !Identical(list[j].bound, o)
  {
    if |list| == 0 then None
    else if Identical(list[0].bound, o) then Some(0)
    else
      match IndexOfObject(list[1..], o)
      case None => None
      case Some(i) => Some(i + 1)
  }

  /** list.indexOf(handle): the first entry equal to `h`. */
  function IndexOfHandle(list: seq<ObjectHandle>, h: ObjectHandle): (r: Option<nat>)
    ensures r.Some? ==> r.value < |list| && Equals(list[r.value], h)
    ensures r.Some? ==> forall j :: 0 <= j < r.value ==> !Equals(list[j], h)
    ensures r.None? ==> forall j :: 0 <= j < |list| ==> !Equals(list[j], h)
  {
    if |list| == 0 then None
    else if Equals(list[0], h) then Some(0)
    else
      match IndexOfHandle(list[1..], h)
      case None => None
      case Some(i) => Some(i + 1)
  }

  // ------------------------------------------------------------ the table

  /**
   * createHandle: the entry already holding `o` is retained and returned;
   * otherwise the next id is taken and a new local handle with count 1 is
   * appended.
   */
  function CreateHandle(r: Repo, o: Value, iface: string): (res: (Repo, ObjectHandle))
    ensures var (r', h) := res;
      && Identical(h.bound, o)
      && r'.published == r.published && r'.exported == r.exported && r'.next == r.next
      && r'.broker == r.broker && r'.queue == r.queue
    ensures var (r', h) := res;
      match IndexOfObject(r.list, o)
      case Some(i) =>
        && r'.list == r.list[i := h] && h == Retain(r.list[i]) && r'.objectID == r.objectID
      case None =>
        && r'.objectID == Wrap32(r.objectID as int + 1)
        && r'.list == r.list + [h]
        && h.key == HandleKey(r'.objectID, r.broker, r.queue, iface) && h.bound == o && h.retain == 1 && h.local
  {
    match IndexOfObject(r.list, o)
    case Some(i) =>
      var h := Retain(r.list[i]);
      (r.(list := r.list[i := h]), h)
    case None =>
      var id := Wrap32(r.objectID as int + 1);
      var h := Retain(NewHandle(id, o, iface, r.broker, r.queue));
      (r.(list := r.list + [h], objectID := id), h)
  }

  /** getObject: the object behind the entry equal to `h`, or null. */
  function GetObject(r: Repo, h: Option<ObjectHandle>): (v: Value)
    ensures h.None? ==> v == Null
    ensures h.Some? && IndexOfHandle(r.list, h.value).Some? ==> v == r.list[IndexOfHandle(r.list, h.value).value].bound
    ensures h.Some? && IndexOfHandle(r.list, h.value).None? ==> v == Null
  {
    if h.None? then Null
    else
      match IndexOfHandle(r.list, h.value)
      case Some(i) => r.list[i].bound
      case None => Null
  }

  /**
   * lookupHandle: the local object for a handle of this table, else a new
   * proxy for the remote object; a null handle fails when its interface
   * is asked for.
   */
  function LookupHandle(r: Repo, cp: ClassPath, h: Option<ObjectHandle>): (res: Result<(Repo, Value), Exn>)
    ensures h.None? <==> res.Failure?
    ensures res.Failure? ==> res.error == NULL_POINTER
    ensures res.Success? ==> (res.value.0.list == r.list && res.value.0.exported == r.exported
                          && res.value.0.published == r.published && res.value.0.objectID == r.objectID)
    ensures res.Success? && IndexOfHandle(r.list, h.value).Some? ==>
      res.value == (r, r.list[IndexOfHandle(r.list, h.value).value].bound)
    ensures res.Success? && IndexOfHandle(r.list, h.value).None? ==>
      res.value == (r.(next := r.next + 1), Proxy(r.next, h.value, ProxyInterfaces(cp, h.value.key.iface)))
  {
    match h
    case None => Failure(NULL_POINTER)
    case Some(k) =>
      match IndexOfHandle(r.list, k)
      case Some(i) => Success((r, r.list[i].bound))
      case None => Success((r.(next := r.next + 1), Proxy(r.next, k, ProxyInterfaces(cp, k.key.iface))))
  }

  /**
   * removeObject: false for a handle not in the table; otherwise one
   * release, the entry dropped when that was the last, and true.
   */
  function RemoveObject(r: Repo, h: Option<ObjectHandle>): (res: (Repo, bool))
    ensures res.0.published == r.published && res.0.exported == r.exported
         && res.0.objectID == r.objectID && res.0.next == r.next
    ensures (h.None? || IndexOfHandle(r.list, h.value).None?) <==> !res.1
    ensures !res.1 ==> res.0 == r
    ensures res.1 ==> var i := IndexOfHandle(r.list, h.value).value;
      if r.list[i].retain == 1 then res.0.list == r.list[..i] + r.list[i + 1..]
      else res.0.list == r.list[i := Release(r.list[i]).0]
  {
    if h.None? then (r, false)
    else
      match IndexOfHandle(r.list, h.value)
      case None => (r, false)
      case Some(i) =>
        var (e, last) := Release(r.list[i]);
        if last then (r.(list := r.list[..i] + r.list[i + 1..]), true)
        else (r.(list := r.list[i := e]), true)
  }

  // ---------------------------------------------------- interfaces

  const ILLEGAL_ACCESS := Exn("java.lang.IllegalAccessError", Some("Only objects that implement interfaces can be exported"))
  const NOT_AN_IMPLEMENTATION := Exn("java.lang.IllegalArgumentException", Some("The object should implement the interface"))

  predicate IsInterface(t: Type) {
    t.Class? && t.isInterface
  }

  /** An interface type registered through exportInterfaces or publish. */
  predicate IsExported(r: Repo, t: Type) {
    IsInterface(t) && t in r.exported
  }

  /** exportInterfaces: the given interfaces are added to the exported list. */
  function ExportInterfaces(r: Repo, ifaces: seq<Type>): (r': Repo)
    ensures forall t :: t in r'.exported <==> t in r.exported || t in ifaces
    ensures r' == r.(exported := r'.exported)
  {
    r.(exported := r.exported + ifaces)
  }

  /**
   * publish: only an instance of an interface; it becomes the object
   * lookups of that interface find, the interface is exported, and a
   * handle is created for it.
   */
  function Publish(r: Repo, o: Value, iface: Type): (res: Result<(Repo, ObjectHandle), Exn>)
    ensures !IsInterface(iface) ==> res == Failure(ILLEGAL_ACCESS)
    ensures IsInterface(iface) && !InstanceOf(o, iface.name) ==> res == Failure(NOT_AN_IMPLEMENTATION)
    ensures res.Success? <==> IsInterface(iface) && InstanceOf(o, iface.name)
    ensures res.Success? ==> var (r', h) := res.value;
      && r'.published == r.published[iface := o]
      && IsExported(r', iface)
      && Identical(h.bound, o)
      && (r', h) == CreateHandle(r.(published := r'.published, exported := r'.exported), o, iface.name)
  {
    if !IsInterface(iface) then Failure(ILLEGAL_ACCESS)
    else if !InstanceOf(o, iface.name) then Failure(NOT_AN_IMPLEMENTATION)
    else
      var r1 := r.(published := r.published[iface := o], exported := r.exported + [iface]);
      Success(CreateHandle(r1, o, iface.name))
  }

  /** lookup: a handle (retained once more) for the object published under `iface`, or null. */
  function Lookup(r: Repo, iface: Type): (res: (Repo, Option<ObjectHandle>))
    ensures (iface !in r.published || r.published[iface] == Null) <==> res.1.None?
    ensures res.1.None? ==> res.0 == r
    ensures res.1.Some? ==> (res.0, res.1.value) == CreateHandle(r, r.published[iface], TypeName(iface))
    ensures res.1.Some? ==> Identical(res.1.value.bound, r.published[iface])
  {
    if iface !in r.published || r.published[iface] == Null then (r, None)
    else
      var (r', h) := CreateHandle(r, r.published[iface], TypeName(iface));
      (r', Some(h))
  }

  // ---------------------------------------------------- the caller side

  const ARITY_MISMATCH := Exn("java.lang.IllegalArgumentException",
                              Some("In encodeMethodCall number of parameters and arguments do not match"))

  /** The arity test that encodeMethodCall and paramMatches share. */
  predicate ArityMatches(params: seq<Type>, args: Option<seq<Value>>) {
    if args.Some? then |params| == |args.value| else |params| == 0
  }

  /** encodeMethodCall's loop: an argument at an exported-interface parameter becomes a handle for it. */
  function ExportArgs(r: Repo, params: seq<Type>, args: seq<Value>): (res: (Repo, seq<Value>))
    requires |params| == |args|
    ensures |res.1| == |args|
    ensures res.0.published == r.published && res.0.exported == r.exported && res.0.next == r.next
         && res.0.broker == r.broker && res.0.queue == r.queue
    ensures forall i :: 0 <= i < |args| && !IsExported(r, params[i]) ==> res.1[i] == args[i]
    ensures forall i :: 0 <= i < |args| && IsExported(r, params[i]) ==>
      res.1[i].HandleRef? && Identical(res.1[i].h.bound, args[i])
    decreases |args|
  {
    if |args| == 0 then (r, [])
    else
      var (r1, a) := if IsExported(r, params[0]) then
                       var (r1, h) := CreateHandle(r, args[0], params[0].name); (r1, HandleRef(h))
                     else (r, args[0]);
      var (r2, rest) := ExportArgs(r1, params[1..], args[1..]);
      assert forall i :: 1 <= i < |args| ==> params[1..][i - 1] == params[i] && args[1..][i - 1] == args[i];
      (r2, [a] + rest)
  }

  /** The message body encodeMethodCall leaves, and the repository after it. */
  datatype Encoded = Encoded(repo: Repo, out: Written, args: Option<seq<Value>>)

  /** The handle and the method name, the first two values of a call. */
  function CallHead(h: ObjectHandle, name: string): Written {
    Then(WriteValue(HandleRef(h)), WriteValue(Str(name)))
  }

  /**
   * encodeMethodCall: the arity test, then the handle, the method name,
   * and the arguments with exported-interface ones replaced by handles.
   */
  function EncodeMethodCall(r: Repo, h: ObjectHandle, m: MethodSig, args: Option<seq<Value>>): (e: Encoded)
    ensures !ArityMatches(m.params, args) ==> e == Encoded(r, Written([], Some(ARITY_MISMATCH)), args)
    ensures ArityMatches(m.params, args) && !CallHead(h, m.name).Complete() ==> e == Encoded(r, CallHead(h, m.name), args)
    ensures ArityMatches(m.params, args) && CallHead(h, m.name).Complete() ==>
      e.out == Then(CallHead(h, m.name), WriteValue(if e.args.None? then Null else Array(e.args.value)))
    ensures e.args.None? <==> args.None?
    ensures e.args.Some? ==> |e.args.value| == |args.value|
    ensures e.args.Some? && ArityMatches(m.params, args) && CallHead(h, m.name).Complete() ==>
      forall i :: 0 <= i < |args.value| ==>
        if IsExported(r, m.params[i]) then e.args.value[i].HandleRef? && Identical(e.args.value[i].h.bound, args.value[i])
        else e.args.value[i] == args.value[i]
    ensures e.repo.published == r.published && e.repo.exported == r.exported && e.repo.next == r.next
  {
    if !ArityMatches(m.params, args) then Encoded(r, Written([], Some(ARITY_MISMATCH)), args)
    else
      var head := CallHead(h, m.name);
      if !head.Complete() then Encoded(r, head, args)
      else if args.None? then Encoded(r, Then(head, WriteValue(Null)), None)
      else
        var (r', args') := ExportArgs(r, m.params, args.value);
        Encoded(r', Then(head, WriteValue(Array(args'))), Some(args'))
  }

  // ---------------------------------------------------- the callee side

  /** A handle argument stands for the local object behind it. */
  function Resolve(r: Repo, v: Value): Value {
    if v.HandleRef? then GetObject(r, Some(v.h)) else v
  }

  /**
   * What paramMatches lets through for one parameter: a primitive (or void) takes
   * anything but a box of another primitive; a reference type takes an
   * original null or an instance.
   */
  predicate Permits(t: Type, original: Value, resolved: Value) {
    if IsPrimitive(t) then BoxKind(resolved).None? || (t.Primitive? && BoxKind(resolved) == Some(t.kind))
    else original == Null || InstanceOf(resolved, TypeName(t))
  }

  /** paramMatches' loop from parameter `i` on; handles are resolved in place until a refusal. */
  function MatchFrom(r: Repo, params: seq<Type>, args: seq<Value>, i: nat): (res: (bool, seq<Value>))
    requires |params| == |args| && i <= |args|
    ensures |res.1| == |args|
    ensures res.0 <==> forall j :: i <= j < |args| ==> Permits(params[j], args[j], Resolve(r, args[j]))
    ensures forall j :: 0 <= j < i ==> res.1[j] == args[j]
    ensures res.0 ==> forall j :: i <= j < |args| ==> res.1[j] == (if args[j] == Null then Null else Resolve(r, args[j]))
    decreases |args| - i
  {
    if i == |args| then (true, args)
    else
      var t := params[i];
      if !IsPrimitive(t) && args[i] == Null then MatchFrom(r, params, args, i + 1)
      else
        var v := Resolve(r, args[i]);
        var args' := args[i := v];
        if !Permits(t, args[i], v) then (false, args')
        else
          var res := MatchFrom(r, params, args', i + 1);
          assert forall j :: i < j < |args| ==> args'[j] == args[j];
          res
  }

  /** paramMatches: the arity test, then each parameter in turn. */
  function ParamMatches(r: Repo, m: MethodSig, args: Option<seq<Value>>): (res: (bool, Option<seq<Value>>))
    ensures res.1.None? <==> args.None?
    ensures res.1.Some? ==> |res.1.value| == |args.value|
    ensures res.0 <==> (ArityMatches(m.params, args)
                        && (args.Some? ==> forall j :: 0 <= j < |args.value| ==>
                              Permits(m.params[j], args.value[j], Resolve(r, args.value[j]))))
  {
    if !ArityMatches(m.params, args) then (false, args)
    else if args.None? then (true, None)
    else
      var (ok, args') := MatchFrom(r, m.params, args.value, 0);
      (ok, Some(args'))
  }

  /**
   * findMethod: the first public method with the name whose parameters
   * match; the argument array keeps what every tried match resolved.
   */
  function FindMethod(r: Repo, ms: seq<MethodSig>, name: Option<string>, args: Option<seq<Value>>)
    : (res: Result<(Option<MethodSig>, Option<seq<Value>>), Exn>)
    ensures |ms| > 0 && name.None? <==> res.Failure?
    ensures res.Failure? ==> res.error == NULL_POINTER
    ensures res.Success? ==> (res.value.1.None? <==> args.None?)
    ensures res.Success? && res.value.0.Some? ==> var m := res.value.0.value;
      && m in ms && name == Some(m.name) && ArityMatches(m.params, res.value.1)
  {
    if |ms| == 0 then Success((None, args))
    else if name.None? then Failure(NULL_POINTER)
    else if name.value == ms[0].name then
      var (ok, args') := ParamMatches(r, ms[0], args);
      if ok then Success((Some(ms[0]), args'))
      else FindMethod(r, ms[1..], name, args')
    else FindMethod(r, ms[1..], name, args)
  }

  /** The public methods reflection reports for a local object's runtime class. */
  function MethodsOf(v: Value): seq<MethodSig> {
    if v.Object? then v.cls.methods else []
  }

  /** What a remote method does: its return value, or the exception it throws. */
  type Behaviour = (Value, MethodSig, seq<Value>) -> Result<Value, Exn>

  const INVOCATION_TARGET := Exn("java.lang.reflect.InvocationTargetException", None)

  function ObjectNotFound(h: Option<ObjectHandle>): Exn {
    Exn("java.lang.IllegalArgumentException",
        Some("Could not find local object: " + (if h.Some? then HandleText(h.value) else "null")))
  }

  function MethodNotFound(name: Option<string>, target: Value): Exn {
    Exn("java.lang.NoSuchMethodError",
        Some("Could not find method: " + OrNull(name) + " on Object of type " + RuntimeClassName(target)))
  }

  /** The three values a call message carries after its type byte. */
  datatype Call = Call(handle: Option<ObjectHandle>, name: Option<string>, args: Option<seq<Value>>, next: nat)

  /** invoke's three casting reads, `(ObjectHandle)`, `(String)`, `(Object[])`, each cast before the next read. */
  function ReadCall(s: seq<byte>, cp: ClassPath, next: nat): (res: Result<Call, Exn>)
    ensures res.Success? ==> res.value.next >= next
  {
    match ReadValue(s, cp, next)
    case Failure(e) => Failure(e)
    case Success(d1) =>
      if !(d1.value.HandleRef? || d1.value.Null?) then Failure(CLASS_CAST)
      else
        match ReadValue(d1.rest, cp, d1.next)
        case Failure(e) => Failure(e)
        case Success(d2) =>
          if !(d2.value.Str? || d2.value.Null?) then Failure(CLASS_CAST)
          else
            match ReadValue(d2.rest, cp, d2.next)
            case Failure(e) => Failure(e)
            case Success(d3) =>
              if !(d3.value.Array? || d3.value.Null?) then Failure(CLASS_CAST)
              else
                Success(Call(if d1.value.HandleRef? then Some(d1.value.h) else None,
                             if d2.value.Str? then Some(d2.value.str) else None,
                             if d3.value.Array? then Some(d3.value.elems) else None,
                             d3.next))
  }

  /** With a client, every handle argument becomes its local object or a proxy. */
  function LookupArgs(r: Repo, cp: ClassPath, args: seq<Value>): (res: (Repo, seq<Value>))
    ensures |res.1| == |args|
    ensures res.0.list == r.list && res.0.exported == r.exported && res.0.published == r.published
         && res.0.objectID == r.objectID && res.0.next >= r.next
    ensures forall i :: 0 <= i < |args| && !args[i].HandleRef? ==> res.1[i] == args[i]
    ensures forall i :: 0 <= i < |args| && args[i].HandleRef? && IndexOfHandle(r.list, args[i].h).Some? ==>
      res.1[i] == r.list[IndexOfHandle(r.list, args[i].h).value].bound
    ensures forall i :: 0 <= i < |args| && args[i].HandleRef? && IndexOfHandle(r.list, args[i].h).None? ==>
      res.1[i].Proxy? && res.1[i].h == args[i].h
    decreases |args|
  {
    if |args| == 0 then (r, [])
    else
      var (r1, a) := if args[0].HandleRef? then LookupHandle(r, cp, Some(args[0].h)).value else (r, args[0]);
      var (r2, rest) := LookupArgs(r1, cp, args[1..]);
      assert forall i :: 1 <= i < |args| ==> args[1..][i - 1] == args[i];
      (r2, [a] + rest)
  }

  /** Method.invoke's own argument check. */
  predicate AllAccepted(params: seq<Type>, args: Option<seq<Value>>) {
    if args.None? then |params| == 0
    else |params| == |args.value| && forall j :: 0 <= j < |params| ==> Accepts(params[j], args.value[j])
  }

  /**
   * invoke: read the call, find the local object and a matching method,
   * run it, and turn a returned object of an exported interface into a
   * handle.
   */
  function Invoke(r: Repo, s: seq<byte>, cp: ClassPath, withClient: bool, behave: Behaviour): (res: Result<(Repo, Value), Exn>)
    ensures res.Success? ==> res.value.0.published == r.published && res.value.0.exported == r.exported
  {
    match ReadCall(s, cp, r.next)
    case Failure(e) => Failure(e)
    case Success(c) =>
      var r1 := r.(next := c.next);
      var target := GetObject(r1, c.handle);
      if target == Null then Failure(ObjectNotFound(c.handle))
      else
        var (r2, args) := if withClient && c.args.Some? then
                            var (r2, a) := LookupArgs(r1, cp, c.args.value); (r2, Some(a))
                          else (r1, c.args);
        CallMethod(r2, target, c.name, args, behave)
  }

  /**
   * The second half of invoke: find the method on the target, run it, and
   * turn a returned object of an exported interface into a handle.
   */
  function CallMethod(r: Repo, target: Value, name: Option<string>, args: Option<seq<Value>>, behave: Behaviour)
    : (res: Result<(Repo, Value), Exn>)
    ensures res.Success? ==> res.value.0.published == r.published && res.value.0.exported == r.exported
  {
    match FindMethod(r, MethodsOf(target), name, args)
    case Failure(e) => Failure(e)
    case Success((None, _)) => Failure(MethodNotFound(name, target))
    case Success((Some(m), args')) =>
      if !AllAccepted(m.params, args') then Failure(ARGUMENT_MISMATCH)
      else
        match behave(target, m, if args'.Some? then args'.value else [])
        case Failure(_) => Failure(INVOCATION_TARGET)
        case Success(rv) =>
          if IsExported(r, m.ret) && rv != Null then
            var (r3, h) := CreateHandle(r, rv, m.ret.name);
            Success((r3, HandleRef(h)))
          else Success((r, rv))
  }
}
