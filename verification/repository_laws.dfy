/**
 * What the repository's operations keep and promise across calls: the
 * handle table holds each object once, under increasing positive ids,
 * each entry local and held at least once; a handle that travelled finds
 * its object again; publish makes lookups succeed; remove undoes create.
 */
module RepositoryLaws {
  import opened Bytes
  import opened Wrappers
  import opened Values
  import opened Handles
  import opened Wire
  import opened WireLaws
  import opened WireFacts
  import opened Repository

  /** The handle table's invariant. */
  predicate Inv(r: Repo) {
    Table(r.list, r.objectID)
  }

  /**
   * Entries with ids in 1..top, held at least once and local; ids
   * increasing along the list; no object in two entries.
   */
  predicate Table(list: seq<ObjectHandle>, top: int) {
    && 0 <= top
    && (forall i :: 0 <= i < |list| ==> 1 <= list[i].key.id <= top && list[i].retain >= 1 && list[i].local)
    && (forall i, j :: 0 <= i < j < |list| ==> list[i].key.id < list[j].key.id)
    && (forall i, j :: 0 <= i < j < |list| ==> !Identical(list[i].bound, list[j].bound))
  }

  /** Dropping an entry keeps the table's invariant. */
  lemma TableDrop(list: seq<ObjectHandle>, top: int, i: nat)
    requires Table(list, top) && i < |list|
    ensures Table(list[..i] + list[i + 1..], top)
  {
    var l := list[..i] + list[i + 1..];
    assert forall a :: 0 <= a < |l| ==> l[a] == list[if a < i then a else a + 1];
  }

  /** Changing an entry's count, while it stays held, keeps the table's invariant. */
  lemma TableUpdate(list: seq<ObjectHandle>, top: int, i: nat, e: ObjectHandle)
    requires Table(list, top) && i < |list|
    requires e.key == list[i].key && e.bound == list[i].bound && e.local && e.retain >= 1
    ensures Table(list[i := e], top)
  {
  }

  /** Appending a new object under the next id keeps the table's invariant. */
  lemma TableAppend(list: seq<ObjectHandle>, top: int, e: ObjectHandle)
    requires Table(list, top) && e.key.id == top + 1 && e.local && e.retain >= 1
    requires forall j :: 0 <= j < |list| ==> !Identical(list[j].bound, e.bound)
    ensures Table(list + [e], top + 1)
  {
    var l := list + [e];
    assert forall j :: 0 <= j < |list| ==> l[j] == list[j];
    forall i, j | 0 <= i < j < |l|
      ensures !Identical(l[i].bound, l[j].bound)
    {
      if j == |list| {
        IdenticalIsEquivalence(list[i].bound, e.bound, e.bound);
      }
    }
  }

  lemma NewRepoInv(broker: Option<string>, queue: Option<string>, next: nat)
    ensures Inv(NewRepo(broker, queue, next))
  {
  }

  /** Ids are distinct, so a handle with an entry's key finds that entry and no other. */
  lemma FindsEntry(r: Repo, k: nat, h: ObjectHandle)
    requires Inv(r) && k < |r.list| && h.key == r.list[k].key
    ensures IndexOfHandle(r.list, h) == Some(k)
  {
    var j := IndexOfHandle(r.list, h);
    assert Equals(r.list[k], h) by { EqualsIsKeyEquality(r.list[k], h); }
    assert j.Some?;
    EqualsIsKeyEquality(r.list[j.value], h);
  }

  /** createHandle keeps the invariant while ids have not reached the int limit. */
  lemma CreateHandleInv(r: Repo, o: Value, iface: string)
    requires Inv(r) && (r.objectID < INT32_MAX || IndexOfObject(r.list, o).Some?)
    ensures Inv(CreateHandle(r, o, iface).0)
  {
    var (r', h) := CreateHandle(r, o, iface);
    match IndexOfObject(r.list, o)
    case Some(i) =>
      TableUpdate(r.list, r.objectID, i, h);
    case None =>
      TableAppend(r.list, r.objectID, h);
  }

  /** A handle just created, once it has travelled and come back, finds the same object. */
  lemma CreatedHandleResolves(r: Repo, o: Value, iface: string)
    requires Inv(r) && r.objectID < INT32_MAX
    ensures var (r', h) := CreateHandle(r, o, iface);
      && IndexOfHandle(r'.list, DecodedHandle(h.key)).Some?
      && Identical(GetObject(r', Some(DecodedHandle(h.key))), o)
  {
    var (r', h) := CreateHandle(r, o, iface);
    CreateHandleInv(r, o, iface);
    var k := match IndexOfObject(r.list, o) case Some(i) => i case None => |r.list|;
    assert r'.list[k] == h;
    FindsEntry(r', k, DecodedHandle(h.key));
  }

  /** Handing out the same object again returns the same handle, held once more, and adds no entry. */
  lemma CreateHandleAgain(r: Repo, o: Value, iface: string, iface2: string)
    requires Inv(r) && r.objectID < INT32_MAX
    ensures var (r1, h1) := CreateHandle(r, o, iface);
      var (r2, h2) := CreateHandle(r1, o, iface2);
      && h2.key == h1.key && h2.retain == h1.retain + 1
      && |r2.list| == |r1.list| && r2.objectID == r1.objectID
  {
    var (r1, h1) := CreateHandle(r, o, iface);
    var k := match IndexOfObject(r.list, o) case Some(i) => i case None => |r.list|;
    assert r1.list[k] == h1;
    CreateHandleInv(r, o, iface);
    var j := IndexOfObject(r1.list, o);
    assert j.Some? by { assert Identical(r1.list[k].bound, o); }
    IdenticalIsEquivalence(r1.list[j.value].bound, o, r1.list[k].bound);
    IdenticalIsEquivalence(r1.list[k].bound, o, o);
  }

  /** removeObject keeps the invariant. */
  lemma RemoveObjectInv(r: Repo, h: Option<ObjectHandle>)
    requires Inv(r)
    ensures Inv(RemoveObject(r, h).0)
  {
    var (r', ok) := RemoveObject(r, h);
    if ok {
      var i := IndexOfHandle(r.list, h.value).value;
      if r.list[i].retain == 1 {
        TableDrop(r.list, r.objectID, i);
      } else {
        TableUpdate(r.list, r.objectID, i, Release(r.list[i]).0);
      }
    }
  }

  /**
   * Remove undoes create: an object handed out once and then removed
   * through a travelled copy of its handle leaves the table as it was.
   */
  lemma CreateThenRemove(r: Repo, o: Value, iface: string)
    requires Inv(r) && r.objectID < INT32_MAX
    requires IndexOfObject(r.list, o).None?
    ensures var (r1, h) := CreateHandle(r, o, iface);
      var (r2, ok) := RemoveObject(r1, Some(DecodedHandle(h.key)));
      ok && r2.list == r.list
  {
    var (r1, h) := CreateHandle(r, o, iface);
    CreateHandleInv(r, o, iface);
    FindsEntry(r1, |r.list|, DecodedHandle(h.key));
    assert r1.list[..|r.list|] == r.list;
  }

  /** A handle held twice survives the first remove and is dropped by the second. */
  lemma RemoveTwice(r: Repo, o: Value, iface: string)
    requires Inv(r) && r.objectID < INT32_MAX
    requires IndexOfObject(r.list, o).None?
    ensures var (r1, h) := CreateHandle(r, o, iface);
      var (r2, h2) := CreateHandle(r1, o, iface);
      var (r3, ok3) := RemoveObject(r2, Some(DecodedHandle(h.key)));
      var (r4, ok4) := RemoveObject(r3, Some(DecodedHandle(h.key)));
      && ok3 && |r3.list| == |r2.list| && Identical(GetObject(r3, Some(DecodedHandle(h.key))), o)
      && ok4 && r4.list == r.list
  {
    var n := |r.list|;
    var (r1, h) := CreateHandle(r, o, iface);
    CreateHandleInv(r, o, iface);
    assert r1.list[n] == h;
    var (r2, h2) := CreateHandle(r1, o, iface);
    CreateHandleAgain(r, o, iface, iface);
    CreateHandleInv(r1, o, iface);
    assert IndexOfObject(r1.list, o) == Some(n) by {
      assert Identical(r1.list[n].bound, o);
    }
    assert r2.list[n] == h2 && h2.retain == 2;
    var d := DecodedHandle(h.key);
    FindsEntry(r2, n, d);
    var (r3, ok3) := RemoveObject(r2, Some(d));
    RemoveObjectInv(r2, Some(d));
    assert r3.list[n].key == h.key && r3.list[n].retain == 1;
    FindsEntry(r3, n, d);
    var (r4, ok4) := RemoveObject(r3, Some(d));
    assert r3.list[..n] == r.list;
  }

  /** After publish, a lookup of the interface hands out the published object's handle once more. */
  lemma PublishThenLookup(r: Repo, o: Value, iface: Type)
    requires Inv(r) && r.objectID < INT32_MAX
    requires IsInterface(iface) && InstanceOf(o, iface.name)
    ensures var (r1, h1) := Publish(r, o, iface).value;
      var (r2, h2) := Lookup(r1, iface);
      && h2.Some? && h2.value.key == h1.key && h2.value.retain == h1.retain + 1
      && Identical(h2.value.bound, o)
  {
    var r0 := r.(published := r.published[iface := o], exported := r.exported + [iface]);
    assert Inv(r0);
    CreateHandleAgain(r0, o, iface.name, TypeName(iface));
  }

  /**
   * A travelled handle of this table comes back as the local object; a
   * handle whose key no entry has comes back as a new proxy for it, taking
   * the next identity.
   */
  lemma LookupHandleLocalOrProxy(r: Repo, cp: ClassPath, o: Value, iface: string, other: ObjectHandle)
    requires Inv(r) && r.objectID < INT32_MAX
    ensures var (r', h) := CreateHandle(r, o, iface);
      var res := LookupHandle(r', cp, Some(DecodedHandle(h.key)));
      res.Success? && Identical(res.value.1, o)
    ensures (forall i :: 0 <= i < |r.list| ==> r.list[i].key != other.key) ==>
      LookupHandle(r, cp, Some(other)) == Success((r.(next := r.next + 1), Proxy(r.next, other, ProxyInterfaces(cp, other.key.iface))))
  {
    CreatedHandleResolves(r, o, iface);
    if forall i :: 0 <= i < |r.list| ==> r.list[i].key != other.key {
      forall i | 0 <= i < |r.list|
        ensures !Equals(r.list[i], other)
      {
        EqualsIsKeyEquality(r.list[i], other);
      }
    }
  }

  /**
   * A proxy made for a remote handle is an instance of the handle's
   * interface and of every supertype the class path records for it, so it
   * can be published under such a supertype and passed where one is
   * expected.
   */
  lemma ProxyImplementsSupertypes(r: Repo, cp: ClassPath, h: ObjectHandle, sup: string)
    requires IndexOfHandle(r.list, h).None? && h.key.iface in cp && sup in cp[h.key.iface].supertypes
    ensures var (_, p) := LookupHandle(r, cp, Some(h)).value;
      && p.Proxy? && InstanceOf(p, h.key.iface) && InstanceOf(p, sup)
      && Accepts(Class(sup, true), p)
      && Publish(r, p, Class(sup, true)).Success?
  {
  }

  // ------------------------------------------------------------ calls

  /** Arguments that paramMatches leaves as they are: no handles among them. */
  predicate NoHandles(args: Option<seq<Value>>) {
    args.Some? ==> forall j :: 0 <= j < |args.value| ==> !args.value[j].HandleRef?
  }

  lemma {:induction false} MatchFromNoHandles(r: Repo, params: seq<Type>, args: seq<Value>, i: nat)
    requires |params| == |args| && i <= |args|
    requires forall j :: 0 <= j < |args| ==> !args[j].HandleRef?
    ensures MatchFrom(r, params, args, i).1 == args
    decreases |args| - i
  {
    if i < |args| {
      if !(!IsPrimitive(params[i]) && args[i] == Null) {
        assert args[i := Resolve(r, args[i])] == args;
      }
      MatchFromNoHandles(r, params, args, i + 1);
    }
  }

  /**
   * With no handle arguments, findMethod finds a method exactly when some
   * method of that name has parameters that admit the arguments, and the
   * one it finds is the first such.
   */
  lemma {:induction false} FindMethodComplete(r: Repo, ms: seq<MethodSig>, name: string, args: Option<seq<Value>>)
    requires NoHandles(args)
    ensures FindMethod(r, ms, Some(name), args).Success?
    ensures var res := FindMethod(r, ms, Some(name), args).value;
      && res.1 == args
      && (res.0.None? <==> forall k :: 0 <= k < |ms| ==> !Hit(r, ms[k], name, args))
      && (res.0.Some? ==> exists k :: 0 <= k < |ms| && ms[k] == res.0.value && Hit(r, ms[k], name, args)
                            && forall k' :: 0 <= k' < k ==> !Hit(r, ms[k'], name, args))
  {
    if |ms| > 0 {
      ParamMatchesNoHandles(r, ms[0], args);
      FindMethodComplete(r, ms[1..], name, args);
      if !Hit(r, ms[0], name, args) {
        SkipFirst(r, ms, name, args, FindMethod(r, ms, Some(name), args).value.0);
      }
    }
  }

  /** The method matches by name and its parameters admit the arguments. */
  predicate Hit(r: Repo, m: MethodSig, name: string, args: Option<seq<Value>>) {
    m.name == name && ParamMatches(r, m, args).0
  }

  /** Without handle arguments, paramMatches hands the arguments back unchanged. */
  lemma ParamMatchesNoHandles(r: Repo, m: MethodSig, args: Option<seq<Value>>)
    requires NoHandles(args)
    ensures ParamMatches(r, m, args).1 == args
  {
    if args.Some? && ArityMatches(m.params, args) {
      MatchFromNoHandles(r, m.params, args.value, 0);
    }
  }

  /** The first hit of `ms` is the first hit of its tail when its head is no hit. */
  lemma SkipFirst(r: Repo, ms: seq<MethodSig>, name: string, args: Option<seq<Value>>, found: Option<MethodSig>)
    requires |ms| > 0 && !Hit(r, ms[0], name, args)
    requires found.None? <==> forall k :: 0 <= k < |ms[1..]| ==> !Hit(r, ms[1..][k], name, args)
    requires found.Some? ==> exists k :: 0 <= k < |ms[1..]| && ms[1..][k] == found.value && Hit(r, ms[1..][k], name, args)
                               && forall k' :: 0 <= k' < k ==> !Hit(r, ms[1..][k'], name, args)
    ensures found.None? <==> forall k :: 0 <= k < |ms| ==> !Hit(r, ms[k], name, args)
    ensures found.Some? ==> exists k :: 0 <= k < |ms| && ms[k] == found.value && Hit(r, ms[k], name, args)
                              && forall k' :: 0 <= k' < k ==> !Hit(r, ms[k'], name, args)
  {
    assert forall k :: 1 <= k < |ms| ==> ms[1..][k - 1] == ms[k];
    if found.Some? {
      var k :| 0 <= k < |ms[1..]| && ms[1..][k] == found.value && Hit(r, ms[1..][k], name, args)
               && forall k' :: 0 <= k' < k ==> !Hit(r, ms[1..][k'], name, args);
      assert ms[k + 1] == found.value;
      assert forall k' :: 0 <= k' < k + 1 ==> !Hit(r, ms[k'], name, args) by {
        forall k' | 0 <= k' < k + 1 ensures !Hit(r, ms[k'], name, args) {
          if k' > 0 { assert ms[k'] == ms[1..][k' - 1]; }
        }
      }
    }
  }

  /** A call whose target is not in the table is refused naming the handle. */
  lemma InvokeUnknownTarget(r: Repo, s: seq<byte>, cp: ClassPath, withClient: bool, behave: Behaviour)
    requires ReadCall(s, cp, r.next).Success?
    requires GetObject(r, ReadCall(s, cp, r.next).value.handle) == Null
    ensures Invoke(r, s, cp, withClient, behave) == Failure(ObjectNotFound(ReadCall(s, cp, r.next).value.handle))
  {
    var c := ReadCall(s, cp, r.next).value;
    assert GetObject(r.(next := c.next), c.handle) == GetObject(r, c.handle);
  }

  /**
   * invoke casts the target before it reads the method name: a first value
   * that is neither a handle nor null fails the cast, whatever follows it.
   */
  lemma CallTargetMistyped(r: Repo, v: Value, t: seq<byte>, cp: ClassPath, withClient: bool, behave: Behaviour)
    requires Plain(v) && WriteValue(v).Complete() && Countable(v) && !v.Null?
    ensures ReadCall(WriteValue(v).bytes + t, cp, r.next) == Failure(CLASS_CAST)
    ensures Invoke(r, WriteValue(v).bytes + t, cp, withClient, behave) == Failure(CLASS_CAST)
  {
    PlainRoundTrip(v, cp, r.next, t);
  }

  /**
   * The method name is cast before the arguments are read: after a handle,
   * a value that is neither a string nor null fails the cast, whatever
   * follows it.
   */
  lemma CallNameMistyped(r: Repo, h: ObjectHandle, v: Value, t: seq<byte>, cp: ClassPath, withClient: bool, behave: Behaviour)
    requires WriteValue(HandleRef(h)).Complete() && h.key.iface in cp
    requires Plain(v) && WriteValue(v).Complete() && Countable(v) && !v.Str? && !v.Null?
    ensures ReadCall(WriteValue(HandleRef(h)).bytes + WriteValue(v).bytes + t, cp, r.next) == Failure(CLASS_CAST)
    ensures Invoke(r, WriteValue(HandleRef(h)).bytes + WriteValue(v).bytes + t, cp, withClient, behave) == Failure(CLASS_CAST)
  {
    var s := WriteValue(HandleRef(h)).bytes + WriteValue(v).bytes + t;
    assert s == WriteValue(HandleRef(h)).bytes + (WriteValue(v).bytes + t);
    HandleRoundTrip(h, cp, r.next, WriteValue(v).bytes + t);
    PlainRoundTrip(v, cp, r.next, t);
  }

  /** Without handle arguments, the client-side lookup of arguments changes nothing. */
  lemma {:induction false} LookupArgsNoHandles(r: Repo, cp: ClassPath, args: seq<Value>)
    requires forall j :: 0 <= j < |args| ==> !args[j].HandleRef?
    ensures LookupArgs(r, cp, args) == (r, args)
    decreases |args|
  {
    if |args| > 0 {
      LookupArgsNoHandles(r, cp, args[1..]);
      assert [args[0]] + args[1..] == args;
    }
  }

  /** Without handle arguments, whether a method matches does not depend on the table. */
  lemma HitIgnoresTable(r: Repo, r': Repo, m: MethodSig, name: string, args: Option<seq<Value>>)
    requires NoHandles(args)
    ensures Hit(r, m, name, args) <==> Hit(r', m, name, args)
  {
  }

  /** Two first hits of the same list are the same method. */
  lemma FirstHitUnique(r: Repo, ms: seq<MethodSig>, name: string, args: Option<seq<Value>>, k: nat, k2: nat)
    requires k < |ms| && Hit(r, ms[k], name, args) && forall k' :: 0 <= k' < k ==> !Hit(r, ms[k'], name, args)
    requires k2 < |ms| && Hit(r, ms[k2], name, args) && forall k' :: 0 <= k' < k2 ==> !Hit(r, ms[k'], name, args)
    ensures k == k2
  {
  }

  /** invoke on a call without handle arguments whose target is in the table runs the method search on it. */
  lemma InvokeFindsTarget(r: Repo, s: seq<byte>, cp: ClassPath, withClient: bool, behave: Behaviour)
    requires ReadCall(s, cp, r.next).Success?
    requires var c := ReadCall(s, cp, r.next).value;
      NoHandles(c.args) && GetObject(r, c.handle) != Null
    ensures var c := ReadCall(s, cp, r.next).value;
      Invoke(r, s, cp, withClient, behave) == CallMethod(r.(next := c.next), GetObject(r, c.handle), c.name, c.args, behave)
  {
    var c := ReadCall(s, cp, r.next).value;
    var r1 := r.(next := c.next);
    assert GetObject(r1, c.handle) == GetObject(r, c.handle);
    if withClient && c.args.Some? {
      LookupArgsNoHandles(r1, cp, c.args.value);
    }
  }

  /**
   * Running method `m` on `target`: Method.invoke's own argument check,
   * InvocationTargetException for a method that throws, and a handle for a
   * non-null result at an exported interface return type.
   */
  function RunMethod(r: Repo, target: Value, m: MethodSig, args: Option<seq<Value>>, behave: Behaviour)
    : (res: Result<(Repo, Value), Exn>)
    ensures var out := behave(target, m, if args.Some? then args.value else []);
      && (res.Success? <==> AllAccepted(m.params, args) && out.Success?)
      && (res.Success? && IsExported(r, m.ret) && out.value != Null ==>
            res.value.1.HandleRef? && Identical(res.value.1.h.bound, out.value) && res.value.0.exported == r.exported)
      && (res.Success? && !(IsExported(r, m.ret) && out.value != Null) ==> res.value == (r, out.value))
  {
    var out := behave(target, m, if args.Some? then args.value else []);
    if !AllAccepted(m.params, args) then Failure(ARGUMENT_MISMATCH)
    else if out.Failure? then Failure(INVOCATION_TARGET)
    else if IsExported(r, m.ret) && out.value != Null then
      var (r3, h) := CreateHandle(r, out.value, m.ret.name);
      Success((r3, HandleRef(h)))
    else Success((r, out.value))
  }

  /**
   * The method search and run: no method of that name admitting the
   * arguments is refused with NoSuchMethodError; otherwise the first such
   * method is run, a throwing method yields InvocationTargetException, and
   * a non-null result at an exported interface return type comes back as
   * a handle for it.
   */
  lemma CallMethodOutcome(r: Repo, target: Value, name: string, args: Option<seq<Value>>, behave: Behaviour, k: nat)
    requires NoHandles(args)
    ensures var ms := MethodsOf(target);
      (forall j :: 0 <= j < |ms| ==> !Hit(r, ms[j], name, args)) ==>
        CallMethod(r, target, Some(name), args, behave) == Failure(MethodNotFound(Some(name), target))
    ensures var ms := MethodsOf(target);
      k < |ms| && Hit(r, ms[k], name, args) && (forall j :: 0 <= j < k ==> !Hit(r, ms[j], name, args)) ==>
        CallMethod(r, target, Some(name), args, behave) == RunMethod(r, target, ms[k], args, behave)
  {
    var ms := MethodsOf(target);
    FindMethodComplete(r, ms, name, args);
    var found := FindMethod(r, ms, Some(name), args).value;
    if k < |ms| && Hit(r, ms[k], name, args) && (forall j :: 0 <= j < k ==> !Hit(r, ms[j], name, args)) {
      var k2 :| 0 <= k2 < |ms| && ms[k2] == found.0.value && Hit(r, ms[k2], name, args)
                && forall j :: 0 <= j < k2 ==> !Hit(r, ms[j], name, args);
      FirstHitUnique(r, ms, name, args, k, k2);
    }
  }

  /**
   * invoke of a call whose target is in the table: refused with
   * NoSuchMethodError when no method admits the arguments, and otherwise
   * the first method that does is run (with the table as it was).
   */
  lemma InvokeDispatch(r: Repo, s: seq<byte>, cp: ClassPath, withClient: bool, behave: Behaviour, k: nat)
    requires ReadCall(s, cp, r.next).Success?
    requires var c := ReadCall(s, cp, r.next).value;
      c.name.Some? && NoHandles(c.args) && GetObject(r, c.handle) != Null
    ensures var c := ReadCall(s, cp, r.next).value;
      var target := GetObject(r, c.handle);
      var ms := MethodsOf(target);
      && ((forall j :: 0 <= j < |ms| ==> !Hit(r, ms[j], c.name.value, c.args)) ==>
            Invoke(r, s, cp, withClient, behave) == Failure(MethodNotFound(c.name, target)))
      && (k < |ms| && Hit(r, ms[k], c.name.value, c.args) && (forall j :: 0 <= j < k ==> !Hit(r, ms[j], c.name.value, c.args)) ==>
            Invoke(r, s, cp, withClient, behave) == RunMethod(r.(next := c.next), target, ms[k], c.args, behave))
  {
    var c := ReadCall(s, cp, r.next).value;
    var r1 := r.(next := c.next);
    var target := GetObject(r, c.handle);
    var ms := MethodsOf(target);
    InvokeFindsTarget(r, s, cp, withClient, behave);
    forall j | 0 <= j < |ms|
      ensures Hit(r1, ms[j], c.name.value, c.args) <==> Hit(r, ms[j], c.name.value, c.args)
    {
      HitIgnoresTable(r1, r, ms[j], c.name.value, c.args);
    }
    CallMethodOutcome(r1, target, c.name.value, c.args, behave, k);
  }

  /**
   * What encodeMethodCall writes, invoke reads back: the handle (now
   * unbound), the method name and the arguments, when no parameter is an
   * exported interface and the arguments are plain values.
   */
  lemma EncodedCallReads(r: Repo, h: ObjectHandle, m: MethodSig, args: Option<seq<Value>>,
                         cp: ClassPath, next: nat, rest: seq<byte>)
    requires ArityMatches(m.params, args)
    requires forall i :: 0 <= i < |m.params| ==> !IsExported(r, m.params[i])
    requires args.Some? ==> PlainAll(args.value) && Countable(Array(args.value))
    requires EncodeMethodCall(r, h, m, args).out.Complete()
    requires h.key.iface in cp
    ensures ReadCall(EncodeMethodCall(r, h, m, args).out.bytes + rest, cp, next)
         == Success(Call(Some(DecodedHandle(h.key)), Some(m.name), args, next))
  {
    var a := if args.None? then Null else Array(args.value);
    EncodedBytes(r, h, m, args);
    assert EncodeMethodCall(r, h, m, args).out.bytes
        == WriteValue(HandleRef(h)).bytes + WriteValue(Str(m.name)).bytes + WriteValue(a).bytes;
    CallReads(h, m.name, a, cp, next, rest);
  }

  /** With no exported parameter, the call is the handle, the name and the arguments as given. */
  lemma EncodedBytes(r: Repo, h: ObjectHandle, m: MethodSig, args: Option<seq<Value>>)
    requires ArityMatches(m.params, args)
    requires forall i :: 0 <= i < |m.params| ==> !IsExported(r, m.params[i])
    requires EncodeMethodCall(r, h, m, args).out.Complete()
    ensures var a := if args.None? then Null else Array(args.value);
      && WriteValue(HandleRef(h)).Complete() && WriteValue(Str(m.name)).Complete() && WriteValue(a).Complete()
      && EncodeMethodCall(r, h, m, args).out.bytes
         == WriteValue(HandleRef(h)).bytes + WriteValue(Str(m.name)).bytes + WriteValue(a).bytes
  {
    var e := EncodeMethodCall(r, h, m, args);
    assert CallHead(h, m.name).Complete();
    if args.Some? {
      assert e.args.value == args.value;
    }
  }

  /** invoke's three reads of a written handle, name and argument array. */
  lemma CallReads(h: ObjectHandle, name: string, a: Value, cp: ClassPath, next: nat, rest: seq<byte>)
    requires WriteValue(HandleRef(h)).Complete() && WriteValue(Str(name)).Complete() && WriteValue(a).Complete()
    requires h.key.iface in cp && Plain(a) && Countable(a) && (a.Array? || a.Null?)
    ensures ReadCall(WriteValue(HandleRef(h)).bytes + WriteValue(Str(name)).bytes + WriteValue(a).bytes + rest, cp, next)
         == Success(Call(Some(DecodedHandle(h.key)), Some(name), if a.Array? then Some(a.elems) else None, next))
  {
    var b1 := WriteValue(HandleRef(h)).bytes;
    var b2 := WriteValue(Str(name)).bytes;
    var b3 := WriteValue(a).bytes;
    assert b1 + b2 + b3 + rest == b1 + (b2 + (b3 + rest));
    HandleRoundTrip(h, cp, next, b2 + (b3 + rest));
    PlainRoundTrip(Str(name), cp, next, b3 + rest);
    PlainRoundTrip(a, cp, next, rest);
  }
}
