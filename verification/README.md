# ActiveMQLite remote objects, modelled in Dafny

ActiveMQLite lets a Java program publish an object under an interface on a
message broker and lets other programs look it up and call its methods.
Calls travel as JMS bytes messages. This project models the core of that
runtime:

- the value codec of `JMSLiteMessage`: one tag byte per value (null, the
  boxed primitives, strings, object handles, `Object[]` arrays, and
  JavaBeans written as getter/setter pairs);
- `ObjectHandle`: the four-field name of a remotely reachable object, its
  wire form, its equality and its retain count;
- `ObjectRepository`: the table of handed-out handles, the published and
  exported interfaces, the encoding of an outgoing call and the reflective
  dispatch of an incoming one;
- `RepositoryService`: the endpoint that answers lookup, call and remove
  requests;
- `RepositoryClient`: correlation ids, the map of waiting responses, and
  the handling of each kind of response.

Everything is pure functions over immutable datatypes. Java ints are subset
types (`i8` … `i64`) written big-endian in two's complement. Strings use
`writeUTF`'s modified UTF-8 over UTF-16 code units. A write is a `Written`:
the bytes put out so far plus the exception that stopped the write, if
any. Reference identity (`==` in `createHandle`) is an identity number on
objects and proxies. Every decoded object and every new proxy takes the
next unused number. Reflection is a `ClassPath` map from class names to
class descriptions. A remote method's body is a `Behaviour` function that
the caller supplies.

Modules, in dependency order:

- `Wrappers`, `Bytes`, `Utf`, `Decimal`: results, integer layouts,
  `writeUTF`/`readUTF`, and `Integer.toString`/`parseInt`.
- `Values`: the value model.
- `Handles`: `ObjectHandle.java`.
- `Wire`: `JMSLiteMessage.java`, plus the handle's `encode`/`decode`.
- `WireLaws`, `WireFacts`: the codec's round trips, stated against `Copy`,
  an independent value-level account of what a reader rebuilds.
- `Repository`, `RepositoryLaws`: `ObjectRepository.java` and its table
  invariant, create/remove and publish/lookup laws, and method dispatch.
- `Service`, `ServiceLaws`: `RepositoryService.java`.
- `Client`, `ClientLaws`: `RepositoryClient.java`.
- `Session`: whole exchanges, from a client's request through the
  endpoint's answer to what the waiting requester gets.

A requester's blocking send-then-wait is split into two steps. `Begin…`
builds the request and its waiting slot. `Finish…` gives the outcome once
the response handler has notified the slot, and `Waiting` while it has
not.

## Model

Source paths are under `src/main/java/com/jaliansystems/activeMQLite/impl/`.

| member | source | states |
|---|---|---|
| Bytes.SignedRoundTrips | src/main/java/com/jaliansystems/activeMQLite/impl/JMSLiteMessage.java:112-119 | every byte, short, int and long read back from its big-endian two's-complement bytes is the value written |
| Bytes.BitsRoundTrip | src/main/java/com/jaliansystems/activeMQLite/impl/JMSLiteMessage.java:122-125 | float and double bit patterns read back unchanged from their 4 and 8 bytes |
| Bytes.Wrap32 | src/main/java/com/jaliansystems/activeMQLite/impl/ObjectRepository.java:93-95 | the int that `++` on a Java int yields: the successor below 2^31 - 1, wrapping to -2^31 past it |
| Utf.ReadWriteUtf | src/main/java/com/jaliansystems/activeMQLite/impl/JMSLiteMessage.java:126-127 | every string writeUTF accepts is read back by readUTF unchanged, consuming exactly its bytes |
| Utf.ShortStringsWrite | src/main/java/com/jaliansystems/activeMQLite/impl/JMSLiteMessage.java:174-176 | a string of at most 10922 characters always fits writeUTF's 65535-byte limit |
| Decimal.ParseIntText | src/main/java/com/jaliansystems/activeMQLite/impl/RepositoryClient.java:243 | Integer.parseInt of the text a correlation id is sent as gives back that id, for every int |
| Decimal.IntTextInjective | src/main/java/com/jaliansystems/activeMQLite/impl/RepositoryClient.java:115-119 | distinct ids are sent as distinct texts |
| Values.ProxyInterfaces | src/main/java/com/jaliansystems/activeMQLite/impl/ObjectRepository.java:126-127 | the interfaces a proxy class implements besides IProxy are the handle's interface and exactly the supertypes the class path records for it |
| Values.GetProp | src/main/java/com/jaliansystems/activeMQLite/impl/JMSLiteMessage.java:277 | a getter returns the stored value of its property, or null when none is stored |
| Values.SetProp | src/main/java/com/jaliansystems/activeMQLite/impl/JMSLiteMessage.java:230 | after a setter call, the property reads back as the value set and every other property reads as before |
| Handles.NewHandle | src/main/java/com/jaliansystems/activeMQLite/impl/ObjectHandle.java:50-58 | the five-argument constructor makes a local handle bound to the object, with the given four fields and retain count 0 |
| Handles.DecodedHandle | src/main/java/com/jaliansystems/activeMQLite/impl/ObjectHandle.java:38-39 | a handle built for decoding is unbound, not local, and has retain count 0 |
| Handles.EqualsIsKeyEquality | src/main/java/com/jaliansystems/activeMQLite/impl/ObjectHandle.java:92-118 | equals holds exactly when broker URL, id, interface name and queue name agree |
| Handles.EqualsIgnoresBinding | src/main/java/com/jaliansystems/activeMQLite/impl/ObjectHandle.java:92-118 | the bound object, the locality flag and the retain count take no part in equals |
| Handles.Retain | src/main/java/com/jaliansystems/activeMQLite/impl/ObjectHandle.java:189-191 | retain raises the count by one and changes nothing else |
| Handles.Release | src/main/java/com/jaliansystems/activeMQLite/impl/ObjectHandle.java:198-200 | release lowers the count by one and reports true exactly when the count was 1 |
| Handles.RetainTimesCount | src/main/java/com/jaliansystems/activeMQLite/impl/ObjectHandle.java:189-191 | n retains raise the count by n and keep the key |
| Handles.ReleasesFromCount | src/main/java/com/jaliansystems/activeMQLite/impl/ObjectHandle.java:198-200 | from count n, n releases report false except the last, which reports true |
| Handles.RetainThenRelease | src/main/java/com/jaliansystems/activeMQLite/impl/ObjectHandle.java:189-200 | after n retains of a new handle, exactly the n-th release reports that no holder is left |
| Wire.Then | src/main/java/com/jaliansystems/activeMQLite/impl/JMSLiteMessage.java:150-193 | two writes in a row complete exactly when both do, give both outputs in order, and stop at the first one's exception |
| Wire.WriteString | src/main/java/com/jaliansystems/activeMQLite/impl/JMSLiteMessage.java:174-176 | a string's write completes exactly when writeUTF accepts it, and then puts out writeUTF's bytes |
| Wire.Getters | src/main/java/com/jaliansystems/activeMQLite/impl/JMSLiteMessage.java:262-276 | the methods encodeObject writes are exactly the declared get/is methods without parameters |
| WireLaws.GettersAppend | src/main/java/com/jaliansystems/activeMQLite/impl/JMSLiteMessage.java:262-276 | the getters keep the order in which getDeclaredMethods returned them: the getters of two lists in a row are those of the first, then those of the second |
| WireLaws.GettersCount | src/main/java/com/jaliansystems/activeMQLite/impl/JMSLiteMessage.java:262-276 | every getter is written as often as it is declared, and no other method is |
| Wire.PropName | src/main/java/com/jaliansystems/activeMQLite/impl/JMSLiteMessage.java:245-249 | the property name written is the getter's name without its "get" prefix, or else without its "is" prefix |
| Wire.FindSetter | src/main/java/com/jaliansystems/activeMQLite/impl/JMSLiteMessage.java:291-299 | the setter found is a public one-parameter "set"+name method of the class; none is found only when there is no such method |
| Wire.ReadValue | src/main/java/com/jaliansystems/activeMQLite/impl/JMSLiteMessage.java:107-140 | a successful read consumes at least its tag and never takes back an identity; what it reads is stated by WireLaws.ReadWritten and the WireFacts lemmas |
| Wire.DecodeArray | src/main/java/com/jaliansystems/activeMQLite/impl/JMSLiteMessage.java:204-210 | a successful array read consumes at least its count; the elements are stated by WireLaws.ReadWrittenArray |
| Wire.ReadElems | src/main/java/com/jaliansystems/activeMQLite/impl/JMSLiteMessage.java:207-208 | reading n elements yields exactly n values (none for a count of 0 or less) |
| Wire.DecodeHandle | src/main/java/com/jaliansystems/activeMQLite/impl/ObjectHandle.java:66-71 | a decoded handle is the unbound, non-local handle of the four fields read |
| WireFacts.HandleIdMistyped | src/main/java/com/jaliansystems/activeMQLite/impl/ObjectHandle.java:67 | the id is cast before any further field is read: a first value that is not an Integer fails with ClassCastException, a null one with NullPointerException, whatever follows |
| Wire.DecodeObject | src/main/java/com/jaliansystems/activeMQLite/impl/JMSLiteMessage.java:219-233 | a successful object read consumes input and takes the next identity or later; its content is stated by WireLaws.ReadWrittenObject |
| Wire.ReadPairs | src/main/java/com/jaliansystems/activeMQLite/impl/JMSLiteMessage.java:224-231 | reading the pairs never consumes more than the input; each pair's effect is stated by WireFacts.PairConsumed |
| WireLaws.ReadScalarPayload | src/main/java/com/jaliansystems/activeMQLite/impl/JMSLiteMessage.java:107-176 | the tag written for null, a box or a string is a scalar tag, and its payload reads back as the value |
| WireLaws.ReadWrittenScalar | src/main/java/com/jaliansystems/activeMQLite/impl/JMSLiteMessage.java:107-176 | a scalar or string written completely reads back unchanged, leaving exactly the bytes after it |
| WireLaws.ReadWritten | src/main/java/com/jaliansystems/activeMQLite/impl/JMSLiteMessage.java:107-193 | every value written completely reads back as the reference `Copy` says, with or without an error, leaving the bytes after it |
| WireLaws.ReadWrittenArray | src/main/java/com/jaliansystems/activeMQLite/impl/JMSLiteMessage.java:183-189 | a written array reads back as the copies of its elements, in order |
| WireLaws.ArrayBytes | src/main/java/com/jaliansystems/activeMQLite/impl/JMSLiteMessage.java:184-189 | a written array is its tag, its length as an int, then its elements |
| WireLaws.ReadWrittenAll | src/main/java/com/jaliansystems/activeMQLite/impl/JMSLiteMessage.java:204-210 | the written elements read back as their copies, stopping at the first element that fails |
| WireLaws.ReadWrittenObject | src/main/java/com/jaliansystems/activeMQLite/impl/JMSLiteMessage.java:259-280 | a written object reads back as `Copy` says: a new instance of the reader's class given the copied pairs, or the class-loading or instantiation error |
| WireLaws.ObjectReadsAsPairs | src/main/java/com/jaliansystems/activeMQLite/impl/JMSLiteMessage.java:219-223 | reading a written object takes its class name, loads and instantiates the class, then reads exactly the getter count of pairs |
| WireLaws.ObjectBytes | src/main/java/com/jaliansystems/activeMQLite/impl/JMSLiteMessage.java:259-280 | a written object is its tag, its class name, the number of its getters as an int, then one pair per getter |
| WireLaws.PairsBytes | src/main/java/com/jaliansystems/activeMQLite/impl/JMSLiteMessage.java:272-279 | the written pairs are each getter's property name then its value, in getter order |
| WireLaws.ReadWrittenPairs | src/main/java/com/jaliansystems/activeMQLite/impl/JMSLiteMessage.java:224-231 | the written pairs read back as each copied value offered to the reader's setter, in order |
| WireLaws.HandleBytes | src/main/java/com/jaliansystems/activeMQLite/impl/ObjectHandle.java:79-84 | a written handle is its id, broker URL, queue name and interface name, each as a value |
| WireLaws.DecodeWrittenHandle | src/main/java/com/jaliansystems/activeMQLite/impl/ObjectHandle.java:66-84 | decode reads back the four fields encode wrote, or fails when the interface cannot be loaded |
| WireLaws.ReadWrittenHandle | src/main/java/com/jaliansystems/activeMQLite/impl/JMSLiteMessage.java:128-131 | a written handle's tag and fields read back as the reference copy of its key |
| WireFacts.CopyPlain | src/main/java/com/jaliansystems/activeMQLite/impl/JMSLiteMessage.java:107-189 | the reference copy of null, boxes, strings and arrays of them is the value itself and takes no identity |
| WireFacts.PlainRoundTrip | src/main/java/com/jaliansystems/activeMQLite/impl/JMSLiteMessage.java:107-189 | null, boxes, strings and arrays of them come back exactly, under any class path |
| WireFacts.ReadsInOrder | src/main/java/com/jaliansystems/activeMQLite/impl/JMSLiteMessage.java:107-189 | two values written one after the other are read back in the same order |
| WireFacts.UnknownTagRejected | src/main/java/com/jaliansystems/activeMQLite/impl/JMSLiteMessage.java:136-138 | a tag outside 1..12 is refused with the unknown-type exception naming the tag as a signed byte |
| WireFacts.ProxyWritesAsHandle | src/main/java/com/jaliansystems/activeMQLite/impl/JMSLiteMessage.java:180-182 | a proxy is written byte for byte as the handle it wraps |
| WireFacts.HandleRoundTrip | src/main/java/com/jaliansystems/activeMQLite/impl/JMSLiteMessage.java:177-179 | a handle comes back unbound and non-local with the same four fields, hence equal to the original; an unloadable interface fails with ClassNotFoundException |
| WireFacts.NegativeArrayRejected | src/main/java/com/jaliansystems/activeMQLite/impl/JMSLiteMessage.java:205-206 | a negative array length is refused before any element is read |
| WireFacts.ObjectClassRequired | src/main/java/com/jaliansystems/activeMQLite/impl/JMSLiteMessage.java:220-222 | an object of a class the reader lacks, or cannot instantiate, is refused with that error |
| WireFacts.PairConsumed | src/main/java/com/jaliansystems/activeMQLite/impl/JMSLiteMessage.java:225-230 | a pair's value is always consumed: ignored with no setter, stored when the setter takes it, and refused with "argument type mismatch" otherwise |
| WireFacts.PropNames | src/main/java/com/jaliansystems/activeMQLite/impl/JMSLiteMessage.java:245-249 | every getter's property name is among the names the pairs carry |
| WireFacts.CopyBeanPairs | src/main/java/com/jaliansystems/activeMQLite/impl/JMSLiteMessage.java:224-231 | when every pair is a plain value its setter takes, the pairs copy without error; the getter properties take the written values and all others keep their prior values |
| WireFacts.BeanRoundTrip | src/main/java/com/jaliansystems/activeMQLite/impl/JMSLiteMessage.java:219-280 | such a bean comes back as a new instance of the reader's class with the next identity: getter properties equal to the original's, all others at the class's defaults |
| WireFacts.BeanCopy | src/main/java/com/jaliansystems/activeMQLite/impl/JMSLiteMessage.java:219-233 | the reference copy of such a bean is that new instance |
| Repository.NewRepo | src/main/java/com/jaliansystems/activeMQLite/impl/ObjectRepository.java:69-72 | a new repository has no handles, no published or exported interfaces, and object id 0 |
| Repository.IndexOfObject | src/main/java/com/jaliansystems/activeMQLite/impl/ObjectRepository.java:85-91 | finds the first entry bound to the object itself (identity), and none only when no entry is |
| Repository.IndexOfHandle | src/main/java/com/jaliansystems/activeMQLite/impl/ObjectRepository.java:183-185 | finds the first entry equal to the handle, and none only when no entry is |
| Repository.CreateHandle | src/main/java/com/jaliansystems/activeMQLite/impl/ObjectRepository.java:84-100 | the returned handle is bound to the object; an object already in the table gets its entry retained, otherwise a new local entry with the next id and count 1 is appended; nothing else changes |
| Repository.GetObject | src/main/java/com/jaliansystems/activeMQLite/impl/ObjectRepository.java:182-188 | the object of the first entry equal to the handle, or null for a handle not in the table or a null handle |
| Repository.LookupHandle | src/main/java/com/jaliansystems/activeMQLite/impl/ObjectRepository.java:118-128 | a handle of the table gives its local object, any other a new proxy for it that implements the handle's interface and its recorded supertypes; a null handle fails with NullPointerException; the table is unchanged |
| Repository.RemoveObject | src/main/java/com/jaliansystems/activeMQLite/impl/ObjectRepository.java:289-300 | false, changing nothing, for a handle not in the table; otherwise the entry is released, dropped if that was its last holder, and the answer is true |
| Repository.ExportInterfaces | src/main/java/com/jaliansystems/activeMQLite/impl/ObjectRepository.java:171-173 | the exported interfaces become the old ones plus the given ones; nothing else changes |
| Repository.Publish | src/main/java/com/jaliansystems/activeMQLite/impl/ObjectRepository.java:265-275 | refuses a non-interface with IllegalAccessError and a non-instance with IllegalArgumentException; otherwise publishes and exports the interface and returns createHandle's handle |
| Repository.Lookup | src/main/java/com/jaliansystems/activeMQLite/impl/ObjectRepository.java:249-254 | null, changing nothing, for an interface with no published object; otherwise createHandle's handle for the published object |
| Repository.ExportArgs | src/main/java/com/jaliansystems/activeMQLite/impl/ObjectRepository.java:156-161 | each argument at an exported-interface parameter becomes a handle bound to it; every other argument is kept |
| Repository.EncodeMethodCall | src/main/java/com/jaliansystems/activeMQLite/impl/ObjectRepository.java:145-163 | an arity mismatch fails before writing; otherwise the handle, the method name and the argument array are written, with exported-interface arguments replaced by handles |
| Repository.MatchFrom | src/main/java/com/jaliansystems/activeMQLite/impl/ObjectRepository.java:318-343 | the loop accepts exactly when every remaining parameter permits its argument, after resolving handle arguments to local objects |
| Repository.ParamMatches | src/main/java/com/jaliansystems/activeMQLite/impl/ObjectRepository.java:313-344 | true exactly when the arity matches and every parameter permits its resolved argument |
| Repository.FindMethod | src/main/java/com/jaliansystems/activeMQLite/impl/ObjectRepository.java:302-311 | a null name fails with NullPointerException when there are methods; a method found has the name, is public and matches the arity |
| Repository.ReadCall | src/main/java/com/jaliansystems/activeMQLite/impl/ObjectRepository.java:216-218 | reads a call's three values and never takes back an identity (what it reads is stated by RepositoryLaws.CallReads) |
| Repository.LookupArgs | src/main/java/com/jaliansystems/activeMQLite/impl/ObjectRepository.java:224-228 | each handle argument becomes its local object or a proxy for it; every other argument is kept; the table is unchanged |
| Repository.Invoke | src/main/java/com/jaliansystems/activeMQLite/impl/ObjectRepository.java:214-240 | a completed call leaves the published and exported interfaces unchanged; its outcome is stated by RepositoryLaws.InvokeDispatch |
| Repository.CallMethod | src/main/java/com/jaliansystems/activeMQLite/impl/ObjectRepository.java:229-239 | a completed method call leaves the published and exported interfaces unchanged |
| RepositoryLaws.TableDrop | src/main/java/com/jaliansystems/activeMQLite/impl/ObjectRepository.java:297-298 | dropping an entry keeps the table invariant |
| RepositoryLaws.TableUpdate | src/main/java/com/jaliansystems/activeMQLite/impl/ObjectRepository.java:89 | changing an entry's count while it stays held keeps the table invariant |
| RepositoryLaws.NewRepoInv | src/main/java/com/jaliansystems/activeMQLite/impl/ObjectRepository.java:69-72 | a new repository satisfies the table invariant |
| RepositoryLaws.TableAppend | src/main/java/com/jaliansystems/activeMQLite/impl/ObjectRepository.java:92-99 | appending a new object's entry under the next id keeps the table invariant |
| RepositoryLaws.FindsEntry | src/main/java/com/jaliansystems/activeMQLite/impl/ObjectRepository.java:183-185 | under the invariant, a handle with an entry's key finds that entry and no other |
| RepositoryLaws.CreateHandleInv | src/main/java/com/jaliansystems/activeMQLite/impl/ObjectRepository.java:84-100 | createHandle keeps the invariant (ids increasing, each object in one entry, every entry held) while ids have not reached the int limit |
| RepositoryLaws.CreatedHandleResolves | src/main/java/com/jaliansystems/activeMQLite/impl/ObjectRepository.java:84-100 | a handle just created, once it has travelled, is found in the table and gives back the same object |
| RepositoryLaws.CreateHandleAgain | src/main/java/com/jaliansystems/activeMQLite/impl/ObjectRepository.java:85-91 | handing out the same object again returns the same key, held once more, and adds no entry |
| RepositoryLaws.RemoveObjectInv | src/main/java/com/jaliansystems/activeMQLite/impl/ObjectRepository.java:289-300 | removeObject keeps the invariant |
| RepositoryLaws.CreateThenRemove | src/main/java/com/jaliansystems/activeMQLite/impl/ObjectRepository.java:289-300 | an object handed out once and removed through a travelled copy of its handle leaves the table as it was, and the remove answers true |
| RepositoryLaws.RemoveTwice | src/main/java/com/jaliansystems/activeMQLite/impl/ObjectRepository.java:297-299 | an object handed out twice survives the first remove and is dropped by the second |
| RepositoryLaws.PublishThenLookup | src/main/java/com/jaliansystems/activeMQLite/impl/ObjectRepository.java:249-275 | after publish, a lookup of the interface returns the published handle's key, held once more and bound to the object |
| RepositoryLaws.LookupHandleLocalOrProxy | src/main/java/com/jaliansystems/activeMQLite/impl/ObjectRepository.java:118-127 | a travelled handle of this table comes back as the local object itself; a handle whose key no entry has comes back as a new proxy for it, taking the next identity and implementing the handle's interface and its recorded supertypes |
| RepositoryLaws.ProxyImplementsSupertypes | src/main/java/com/jaliansystems/activeMQLite/impl/ObjectRepository.java:124-127 | a proxy for a remote handle is an instance of every supertype of the handle's interface, so publish accepts it under such an interface and a parameter of that type admits it |
| RepositoryLaws.MatchFromNoHandles | src/main/java/com/jaliansystems/activeMQLite/impl/ObjectRepository.java:318-324 | without handle arguments the loop leaves the argument array unchanged |
| RepositoryLaws.ParamMatchesNoHandles | src/main/java/com/jaliansystems/activeMQLite/impl/ObjectRepository.java:313-324 | without handle arguments paramMatches leaves the arguments unchanged |
| RepositoryLaws.FindMethodComplete | src/main/java/com/jaliansystems/activeMQLite/impl/ObjectRepository.java:302-311 | without handle arguments, findMethod finds nothing exactly when no method of the name admits the arguments, and otherwise finds the first that does |
| RepositoryLaws.SkipFirst | src/main/java/com/jaliansystems/activeMQLite/impl/ObjectRepository.java:305-309 | the first matching method of a list whose head does not match is the first match of its tail |
| RepositoryLaws.InvokeUnknownTarget | src/main/java/com/jaliansystems/activeMQLite/impl/ObjectRepository.java:220-223 | a call whose handle names no object of the table fails with "Could not find local object" and the handle's text |
| RepositoryLaws.CallTargetMistyped | src/main/java/com/jaliansystems/activeMQLite/impl/ObjectRepository.java:216-217 | the target is cast before the method name is read: a first value that is neither a handle nor null makes invoke fail with ClassCastException, whatever follows |
| RepositoryLaws.CallNameMistyped | src/main/java/com/jaliansystems/activeMQLite/impl/ObjectRepository.java:217-218 | the method name is cast before the arguments are read: after a handle, a value that is neither a string nor null makes invoke fail with ClassCastException, whatever follows |
| RepositoryLaws.LookupArgsNoHandles | src/main/java/com/jaliansystems/activeMQLite/impl/ObjectRepository.java:224-228 | without handle arguments the client-side argument lookup changes nothing |
| RepositoryLaws.InvokeFindsTarget | src/main/java/com/jaliansystems/activeMQLite/impl/ObjectRepository.java:214-229 | a call without handle arguments to an object of the table goes on to the method search on that object |
| RepositoryLaws.RunMethod | src/main/java/com/jaliansystems/activeMQLite/impl/ObjectRepository.java:233-239 | running a found method succeeds exactly when Method.invoke accepts the arguments and the method returns; a non-null result at an exported interface return type comes back as a handle bound to it; any other result comes back as is |
| RepositoryLaws.CallMethodOutcome | src/main/java/com/jaliansystems/activeMQLite/impl/ObjectRepository.java:229-239 | with no matching method the call fails with NoSuchMethodError; otherwise the first matching method is run |
| RepositoryLaws.InvokeDispatch | src/main/java/com/jaliansystems/activeMQLite/impl/ObjectRepository.java:214-240 | a call without handle arguments to an object of the table fails with NoSuchMethodError when no public method of the name admits the arguments, and otherwise runs the first that does |
| RepositoryLaws.EncodedBytes | src/main/java/com/jaliansystems/activeMQLite/impl/ObjectRepository.java:153-162 | with no exported parameter, an encoded call is the handle, the name and the arguments as given |
| RepositoryLaws.CallReads | src/main/java/com/jaliansystems/activeMQLite/impl/ObjectRepository.java:216-218 | invoke's three reads of a written handle, name and plain argument array give back the handle's key, the name and the arguments |
| RepositoryLaws.EncodedCallReads | src/main/java/com/jaliansystems/activeMQLite/impl/ObjectRepository.java:145-163 | what encodeMethodCall writes, invoke reads back as the handle's key, the method name and the arguments, when no parameter is exported and the arguments are plain |
| Service.Reply | src/main/java/com/jaliansystems/activeMQLite/impl/RepositoryService.java:136-139 | an answer goes to the request's reply-to destination under its correlation id |
| Service.TypedWrite | src/main/java/com/jaliansystems/activeMQLite/impl/RepositoryService.java:126-127 | whatever follows a written type byte, the answer begins with that byte |
| Service.CallAnswerTyped | src/main/java/com/jaliansystems/activeMQLite/impl/RepositoryService.java:123-135 | both the success and the error answer to a call begin with the call type byte |
| Service.Answer | src/main/java/com/jaliansystems/activeMQLite/impl/RepositoryService.java:136-139 | an answer is sent exactly when its body was written completely and there is a reply-to destination |
| Service.RequestType | src/main/java/com/jaliansystems/activeMQLite/impl/RepositoryService.java:117 | there is a type byte exactly when the request's first value reads as a Byte; it is that byte, and the rest is what follows that value |
| Service.HandleLookup | src/main/java/com/jaliansystems/activeMQLite/impl/RepositoryService.java:174-184 | an answer to a lookup is a reply beginning with the lookup type byte; the published and exported interfaces are unchanged |
| Service.HandleCall | src/main/java/com/jaliansystems/activeMQLite/impl/RepositoryService.java:122-139 | an answer to a call is a reply beginning with the call type byte; the published and exported interfaces are unchanged |
| Service.HandleRemove | src/main/java/com/jaliansystems/activeMQLite/impl/RepositoryService.java:140-148 | an answer to a remove is a reply beginning with the remove type byte; the published and exported interfaces are unchanged |
| Service.OnMessage | src/main/java/com/jaliansystems/activeMQLite/impl/RepositoryService.java:112-154 | a non-bytes message or one whose first value is not a Byte is ignored; any answer goes to the reply-to destination under the correlation id and begins with a known request type |
| ServiceLaws.RequestTypeOf | src/main/java/com/jaliansystems/activeMQLite/impl/RepositoryService.java:117 | a request written as a type byte then a payload reads as that type and that payload |
| ServiceLaws.Dispatch | src/main/java/com/jaliansystems/activeMQLite/impl/RepositoryService.java:117-149 | the type byte selects the lookup, call or remove handler, and any other type is ignored |
| ServiceLaws.UnknownRequestIgnored | src/main/java/com/jaliansystems/activeMQLite/impl/RepositoryService.java:117-149 | a type other than lookup, call and remove gets no answer and changes nothing |
| ServiceLaws.LookupOf | src/main/java/com/jaliansystems/activeMQLite/impl/RepositoryService.java:174-184 | a lookup of a loadable interface answers with createHandle's handle for the published object, or with null when nothing is published |
| ServiceLaws.LookupAnswered | src/main/java/com/jaliansystems/activeMQLite/impl/RepositoryService.java:118-121 | the same, for a whole lookup request as the client writes it |
| ServiceLaws.LookupUnknownClass | src/main/java/com/jaliansystems/activeMQLite/impl/RepositoryService.java:176 | a lookup naming a class the endpoint cannot load gets no answer and changes nothing |
| ServiceLaws.KnownKey | src/main/java/com/jaliansystems/activeMQLite/impl/ObjectHandle.java:92-118 | the table has an entry equal to a decoded handle exactly when some entry has its four fields |
| ServiceLaws.RemoveOf | src/main/java/com/jaliansystems/activeMQLite/impl/RepositoryService.java:140-148 | a remove payload that reads as a handle is answered with removeObject's Boolean |
| ServiceLaws.RemoveAnswered | src/main/java/com/jaliansystems/activeMQLite/impl/RepositoryService.java:140-148 | a remove request for a handle answers true exactly when the table has an entry with its key, and releases that entry |
| ServiceLaws.RemoveNullAnswered | src/main/java/com/jaliansystems/activeMQLite/impl/RepositoryService.java:140-148 | a remove request for null answers false and changes nothing |
| ServiceLaws.CallAnswered | src/main/java/com/jaliansystems/activeMQLite/impl/RepositoryService.java:122-139 | a call is answered with CALL_SUCCESS and the value when invoking and writing succeed, and with CALL_ERROR, the exception's class name and its message when invoking fails |
| ServiceLaws.CallToUnknownObject | src/main/java/com/jaliansystems/activeMQLite/impl/RepositoryService.java:122-139 | a call naming no object of the table is answered with the not-found error |
| Client.NewSlot | src/main/java/com/jaliansystems/activeMQLite/impl/RepositoryClient.java:120 | a new response slot is waiting, holds null and no error |
| Client.NewClient | src/main/java/com/jaliansystems/activeMQLite/impl/RepositoryClient.java:64-66 | a new client's counter is 0 and its response map is empty |
| ClientLaws.NewClientInv | src/main/java/com/jaliansystems/activeMQLite/impl/RepositoryClient.java:64-66 | a new client satisfies the invariant that every waiting slot's id was handed out by the counter |
| Client.Allocate | src/main/java/com/jaliansystems/activeMQLite/impl/RepositoryClient.java:115-121 | the pre-incremented counter is the id, and a new waiting slot is put under it; no other slot changes; below the int limit the id is new and the map stays consistent |
| Client.Request | src/main/java/com/jaliansystems/activeMQLite/impl/RepositoryClient.java:114-119 | a request is a bytes message answered on the client's reply queue, whose correlation id parses back to the id |
| Client.Send | src/main/java/com/jaliansystems/activeMQLite/impl/RepositoryClient.java:111-125 | a request body whose write fails raises its exception before any id is taken; otherwise the id is allocated and the request sent under it |
| Client.BeginInvoke | src/main/java/com/jaliansystems/activeMQLite/impl/RepositoryClient.java:111-127 | an arity mismatch fails before anything is sent; a sent call goes to the handle's queue with a call slot, its body the call type byte and encodeMethodCall's output |
| Client.BeginLookup | src/main/java/com/jaliansystems/activeMQLite/impl/RepositoryClient.java:155-171 | a lookup goes to the endpoint's request queue, its body the lookup type byte and the interface name |
| Client.BeginRemove | src/main/java/com/jaliansystems/activeMQLite/impl/RepositoryClient.java:205-221 | a remove goes to the handle's queue, its body the remove type byte and the handle |
| Client.RemoteError | src/main/java/com/jaliansystems/activeMQLite/impl/RepositoryClient.java:129-131 | an error response becomes a java.lang.Exception with a message |
| Client.Removed | src/main/java/com/jaliansystems/activeMQLite/impl/RepositoryClient.java:128 | a woken requester removes exactly its own slot |
| Client.FinishInvoke | src/main/java/com/jaliansystems/activeMQLite/impl/RepositoryClient.java:128-138 | a call still waits until notified; then an error becomes RemoteError, a handle becomes lookupHandle's object, and any other value is returned |
| Client.FinishLookup | src/main/java/com/jaliansystems/activeMQLite/impl/RepositoryClient.java:172-173 | a lookup still waits until notified, then returns the stored response |
| Client.FinishRemove | src/main/java/com/jaliansystems/activeMQLite/impl/RepositoryClient.java:222-225 | a remove still waits until notified; then a stored Boolean is returned, null fails with NullPointerException and anything else with ClassCastException |
| Client.ReadError | src/main/java/com/jaliansystems/activeMQLite/impl/RepositoryClient.java:256-262 | an unreadable call answer stores the fixed ReadError exception and message |
| Client.ErrorFields | src/main/java/com/jaliansystems/activeMQLite/impl/RepositoryClient.java:251-262 | the error branch always marks the slot as an error |
| Client.CallFields | src/main/java/com/jaliansystems/activeMQLite/impl/RepositoryClient.java:247-262 | reading a call answer changes only the slot's content, never its kind or its notification |
| Client.HandleCallResponse | src/main/java/com/jaliansystems/activeMQLite/impl/RepositoryClient.java:242-265 | only the call slot named by the correlation id changes, and it is always notified, whatever the answer holds |
| Client.Notify | src/main/java/com/jaliansystems/activeMQLite/impl/RepositoryClient.java:272-273 | the named slot gets the value and is notified; no other slot changes |
| Client.HandleLookupResponseAsWritten | src/main/java/com/jaliansystems/activeMQLite/impl/RepositoryClient.java:267-275 | as written, at most the slot named by the correlation id changes |
| Client.HandleLookupResponse | src/main/java/com/jaliansystems/activeMQLite/impl/RepositoryClient.java:267-275 | corrected, at most the slot named by the correlation id changes |
| Client.HandleRemoveResponse | src/main/java/com/jaliansystems/activeMQLite/impl/RepositoryClient.java:277-285 | at most the slot named by the correlation id changes, and the repository not at all |
| Client.Route | src/main/java/com/jaliansystems/activeMQLite/impl/RepositoryClient.java:179-194 | onMessage's routing, with the lookup handler as written or corrected: at most the slot named by the correlation id changes; the handle table and the interfaces are unchanged; a non-bytes message or one without a type byte is ignored |
| Client.OnResponseAsWritten | src/main/java/com/jaliansystems/activeMQLite/impl/RepositoryClient.java:179-194 | onMessage as written, lookup answers going to handleLookupResponse as written: at most the named slot changes, the table and interfaces are unchanged, and untyped or non-bytes messages are ignored |
| Client.OnResponse | src/main/java/com/jaliansystems/activeMQLite/impl/RepositoryClient.java:179-194 | onMessage with the corrected lookup handler (see Findings): at most the named slot changes, the table and interfaces are unchanged, and untyped or non-bytes messages are ignored |
| ClientLaws.SuccessiveIdsDistinct | src/main/java/com/jaliansystems/activeMQLite/impl/RepositoryClient.java:115-121 | two requests in a row get different ids, and the second leaves the first one's slot waiting |
| ClientLaws.ResponseDispatch | src/main/java/com/jaliansystems/activeMQLite/impl/RepositoryClient.java:183-190 | with the corrected lookup handler, the type byte selects the lookup, call or remove response handler, and any other type is ignored |
| ClientLaws.ResponseDispatchAsWritten | src/main/java/com/jaliansystems/activeMQLite/impl/RepositoryClient.java:183-190 | as written, the type byte selects handleLookupResponse as written, the call or the remove response handler, and any other type is ignored |
| ClientLaws.AsWrittenAgreesExceptNull | src/main/java/com/jaliansystems/activeMQLite/impl/RepositoryClient.java:179-194 | onMessage as written and corrected agree on every response except a lookup answer that reads as null |
| ClientLaws.NullLookupResponseAsWritten | src/main/java/com/jaliansystems/activeMQLite/impl/RepositoryClient.java:179-194 | as written, a lookup answer that reads as null leaves the client and the table unchanged, the exception being swallowed |
| ClientLaws.LookupAnswerReceived | src/main/java/com/jaliansystems/activeMQLite/impl/RepositoryClient.java:267-275 | a lookup answer carrying a handle wakes the lookup with lookupHandle's object for it |
| ClientLaws.NullLookupAnswerReceived | src/main/java/com/jaliansystems/activeMQLite/impl/RepositoryClient.java:267-275 | corrected, a null lookup answer wakes the lookup with null |
| ClientLaws.NullLookupAsWritten | src/main/java/com/jaliansystems/activeMQLite/impl/RepositoryClient.java:267-275 | as written, a null lookup answer leaves the client unchanged, so a waiting lookup stays waiting |
| ClientLaws.NullLookupCorrected | src/main/java/com/jaliansystems/activeMQLite/impl/RepositoryClient.java:267-275 | corrected, a null lookup answer notifies the slot, and the lookup finishes with null |
| ClientLaws.RemoveAnswerReceived | src/main/java/com/jaliansystems/activeMQLite/impl/RepositoryClient.java:277-285 | a remove answer wakes the remove with its Boolean |
| ClientLaws.SuccessFieldsRead | src/main/java/com/jaliansystems/activeMQLite/impl/RepositoryClient.java:248-250 | the success branch stores the returned value |
| ClientLaws.CallSuccessReceived | src/main/java/com/jaliansystems/activeMQLite/impl/RepositoryClient.java:242-265 | a success answer stores the returned value in the call slot and wakes it |
| ClientLaws.ErrorFieldsRead | src/main/java/com/jaliansystems/activeMQLite/impl/RepositoryClient.java:251-255 | the error branch stores the remote exception's class name and message |
| ClientLaws.CallErrorReceived | src/main/java/com/jaliansystems/activeMQLite/impl/RepositoryClient.java:242-265 | an error answer stores the remote exception's class name and message, marks the error and wakes the call |
| ClientLaws.CallReadError | src/main/java/com/jaliansystems/activeMQLite/impl/RepositoryClient.java:256-263 | an unreadable call answer stores the fixed ReadError exception and message, and still wakes the call |
| Session.ServedHandle | src/main/java/com/jaliansystems/activeMQLite/impl/RepositoryService.java:174-184 | the handle a lookup hands out is bound to the published object |
| Session.LookupPublishedRoundTrip | src/main/java/com/jaliansystems/activeMQLite/impl/RepositoryClient.java:154-174 | a lookup of a published interface is answered on the client's reply queue and wakes the requester with the client's object for the served handle: its own object if in its table, else a new proxy |
| Session.LookupUnpublishedRoundTrip | src/main/java/com/jaliansystems/activeMQLite/impl/RepositoryClient.java:154-174 | a lookup of an interface nobody published changes nothing at the endpoint and, with the corrected handler, wakes the requester with null |
| Session.LookupUnpublishedAsWritten | src/main/java/com/jaliansystems/activeMQLite/impl/RepositoryClient.java:267-275 | the same exchange with the handler as written: the null answer arrives, but the requester is never woken |
| Session.RemoveRoundTrip | src/main/java/com/jaliansystems/activeMQLite/impl/RepositoryClient.java:204-226 | a remove releases the endpoint's entry for the handle's key, and the requester learns whether there was one |
| Session.CallReturnsRoundTrip | src/main/java/com/jaliansystems/activeMQLite/impl/RepositoryClient.java:109-139 | a call the endpoint answers with a plain value returns that value to the requester |
| Session.CallFailsRoundTrip | src/main/java/com/jaliansystems/activeMQLite/impl/RepositoryClient.java:109-139 | a call the endpoint cannot complete reaches the requester as a RemoteError naming the remote exception's class and message |

## Left out

- JMS plumbing is not modelled: connections, sessions, producers, consumers, temporary queues and `findQueue`'s queue cache. Destinations are plain values and `send` is the returned message.
- Concurrency is not modelled. `synchronized` blocks and `wait`/`notify` are the two steps Begin/Finish, with a `notified` flag; a response to a request not yet sent cannot arrive.
- Reflection is not modelled directly. `Class.forName`, `newInstance`, `getMethods` and `getDeclaredMethods` read a class path of class descriptions, and remote method bodies are a caller-supplied function. A proxy made by `Proxy.newProxyInstance` implements the handle's interface, IProxy and the supertypes the class path records for the interface.
- `java.lang.reflect.Proxy` and `RemoteInvocationHandler` are not part of this model: a proxy is a value carrying its handle, and the handler's forwarding to `invoke` and its finalizer's `remove` are not modelled.
- Floating point: float and double values are their IEEE bit patterns; no arithmetic is done on them.
- Method.invoke's widening conversions (an Integer passed to a long parameter) are not modelled; only exact box-to-primitive matches are accepted.
- Only `Object[]` arrays are modelled. `write` of a primitive array throws ClassCastException in the source; that case is not modelled.
- Methods of built-in classes: reflection on strings, boxes, arrays, handles and proxies reports no methods here, so calls on such targets find no method.
- The messages of JVM exceptions (NullPointerException, ClassCastException, NegativeArraySizeException) are not modelled; they carry no message.
- Strings holding an unpaired surrogate cannot be expressed: a read that would produce one fails instead.
- A request without a reply-to destination gets no answer, where the source would fail inside send.
- `hashCode`, `toString` beyond the not-found message, logging and stack traces are not modelled.
- `retainCount` is an unbounded integer; its 32-bit wrap after 2^31 retains is not modelled.
- RepositoryLaws.CreateHandleInv: holds only while `objectID` is below the int limit; after 2^31 - 1 handles the source wraps ids and can reuse one.
- ClientLaws.SuccessiveIdsDistinct: holds only while the counter is below the int limit; the source wraps and can reuse ids.
- Values.GetProp: a getter is assumed to be public and never to throw. In the source, `method.invoke(value)` can throw IllegalAccessException for a non-public declared getter, or InvocationTargetException when the getter's body throws; either aborts the write part-way. Neither failure is modelled.
- Values.SetProp: a setter is assumed never to throw. In the source, `method.invoke(instance, value)` throws InvocationTargetException when the setter's body throws, which aborts the read; that failure is not modelled. A value that does not fit the parameter type is modelled (Wire.ApplyPair fails with IllegalArgumentException).
- Values.Identical: reference identity (`==`) is modelled only for beans and proxies, which carry an identity. Strings, boxed primitives, arrays and handles are compared by content, so two equal strings that were decoded separately, and are distinct objects in Java, count as one object. When an interface such as CharSequence or Comparable is exported, `createHandle` then gives them one handle and one retain count where the source gives two.
- Values.ProxyInterfaces: the supertypes come from the class path of the endpoint that makes the proxy, standing for the `Class` object the handle holds. A handle whose interface is missing from that class path gets a proxy of that interface alone; the handles that reach `lookupHandle` in the source have been decoded, which loads the interface.
- Decimal.ParseInt: only ASCII digits are modelled. `Integer.parseInt` reads digits through `Character.digit` and so also accepts other Unicode decimal digits; the correlation texts the client writes contain only ASCII digits.
- Repository.FindMethod: its contract states only that a method found has the name and the arity; completeness and first-match are proved in RepositoryLaws.FindMethodComplete for calls without handle arguments only.
- RepositoryLaws.InvokeDispatch: stated for calls without handle arguments; with handles, `paramMatches` resolves them in place and later candidates see the resolved array.
- RepositoryLaws.EncodedCallReads: stated for plain arguments and no exported parameter; the general case follows from WireLaws.ReadWritten.
- Wire.ReadValue: its own contract states only how much input it consumes; what it reads is stated by the WireLaws.ReadWritten and WireFacts lemmas.
- Wire.DecodeArray: its own contract states only how much input it consumes; what it reads is stated by the WireLaws.ReadWrittenArray lemmas.
- Wire.DecodeObject: its own contract states only how much input it consumes; what it reads is stated by the WireLaws.ReadWrittenObject and WireFacts.BeanRoundTrip lemmas.
- Wire.ReadPairs: its own contract states only how much input it consumes; what it reads is stated by the WireLaws.ReadWrittenPairs and WireFacts.PairConsumed lemmas.
- Repository.ReadCall: its own contract states only that it never takes back an identity; what it reads, and which cast fails first, is stated by the RepositoryLaws.CallReads, CallTargetMistyped and CallNameMistyped lemmas.
- Service.HandleLookup: its own contract states the shape of the answer only; what it answers is stated by the ServiceLaws.LookupOf lemmas.
- Service.HandleCall: its own contract states the shape of the answer only; what it answers is stated by the ServiceLaws.CallAnswered lemmas.
- Service.HandleRemove: its own contract states the shape of the answer only; what it answers is stated by the ServiceLaws.RemoveOf lemmas.

## Findings

| source | as written | input that shows it | evidently intended | confidence | as-written member | corrected member |
|---|---|---|---|---|---|---|
| src/main/java/com/jaliansystems/activeMQLite/impl/RepositoryClient.java:267-275 | the looked-up handle is passed to `lookupHandle` even when it is null; `lookupHandle` throws NullPointerException on it, `onMessage` swallows the exception, and the waiting slot is never notified | a lookup of an interface the endpoint has not published, which the endpoint answers with null | the waiting lookup is notified and returns null | not executed | ClientLaws.NullLookupAsWritten, ClientLaws.NullLookupResponseAsWritten, Session.LookupUnpublishedAsWritten | ClientLaws.NullLookupCorrected, Session.LookupUnpublishedRoundTrip |

Where the behaviour differs from a plain reading of the documentation, the model follows the code:

- `createHandle` matches entries by the object alone, whatever the interface (see the Values.Identical line under "## Left out" for what matching the object means here).
- `getObject` returns null for an unknown handle; there is no separate not-found result.
- An exception thrown by a remote method reaches the caller as InvocationTargetException, whose message is null.
