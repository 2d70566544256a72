# WeakEvents.Fody weaver core, in Dafny

WeakEvents.Fody is a Fody weaver. It rewrites the `add` and `remove` accessors of
events on types marked `[ImplementWeakEvents]`, so that a subscriber is held
through a weak event handler instead of strongly. This project models the part
of the weaver that decides what to weave and what the woven code looks like:

- **Eligibility filter** (`type_filter.dfy`, module `TypeDefinitionExtensions`).
  A type is processed when it declares events, is not an interface, and carries
  an attribute whose type's full name is exactly
  `WeakEvents.ImplementWeakEventsAttribute`.
- **Emitter chains** (`il_emitter.dfy`, module `IlEmit`; `emit_load_method.dfy`,
  module `StandardIl`). Emitter chains are an immutable, predecessor-linked
  datatype. `Emit` recurses to the root, and so does `Method`. The node that
  loads a method pointer pushes `ldnull`/`ldftn t` when the woven method is
  static, and `ldarg.0`/`ldftn t` when it is an instance method.
- **Method body edits** (`method_bodies.dfy`, module `MethodBodies`).
  - Appending a local.
  - The insertion loop, which splices emitted instructions in at an index.
  - The append loop.
  - The forward pass, which replaces every load of the handler argument after
    the prologue with a load of the new local.

  These are imperative methods on a `MethodDef` object. Each is proved against
  a specification function on instruction sequences.
- **Shared weaving rules** (`weaving.dfy`, module `Weaving`). These are the
  outcome of processing one event and the unsubscribe method's name template.
  They also include its attributes: `Private | HideBySig`, plus `Static`
  exactly when the add accessor is static.
- **The event weaver** (`event_weaver.dfy`, module `EventWeaving`). For each
  event, `ProcessEvent` does one of two things:
  - It skips the event when there is no backing field, or when the field's type
    is not a valid event delegate. Nothing changes then.
  - Otherwise it rewrites both accessors, add first. The add accessor gets a
    `MakeWeak` prologue and a synthesised unsubscribe method. The remove
    accessor gets a `FindWeak` prologue. The delegate conversions are emitted
    only when the closed `EventHandler<T>` and the field type have different
    full names. The opcode redirected is `ldarg.0` for a static add accessor,
    and `ldarg.1` otherwise.
- **The older weaver** (`weak_event_weaver.dfy`, module `LegacyWeaving`). The
  same process, with three differences:
  - it always converts;
  - it calls the helpers through generic `Call` nodes;
  - it always redirects `ldarg.1`.

The Mono.Cecil object model is in `cecil.dfy` (module `Cecil`).
- Method and type definitions are classes. Their parameter, attribute, local,
  instruction and method lists are `seq` fields that the weaver reassigns.
- Type, field and method references, instructions and events are values.
- Method attributes are `bv16`, with the flag values of ECMA-335 partition II,
  section 23.1.10.

Emitter nodes whose C# source is not part of this model are opaque: a node
such as `DelegateConvert(T)`, `LoadField(f)`, `MakeWeak(T)`, `FindWeak(T)`,
`Store(v)` or `Return` emits one `Block` instruction that names the node.
`LoadMethod1stArg` is the exception. Its code is not shown either, but it is
taken to emit `ldarg.0` for a static method and `ldarg.1` for an instance
method. This rests on three things:
- the weaver's own comments at `EventWeaver.cs:69` and `:107` ("Ldarg_1, or Ldarg_0 if static");
- the opcode that `GetMethodLoad1stArgumentCode` (`EventWeaver.cs:195-204`) replaces;
- the CLI calling convention, under which an instance method's receiver is argument 0.

`Cecil.GetMethodLoad1stArgumentCode` states that slot rule.

The library symbols loaded at construction time are constructor parameters
of the weaver classes: CompilerGenerated, `Action<T>..ctor`, `EventHandler<T>`,
`MakeWeak<T>`, `FindWeak<T>` and `void`. So are the delegate queries whose code
is not shown: the event-arguments type of a delegate type, and whether a type is
a valid event delegate. The logger is not modelled. Only the outcome is.

## Model

| member | source | states |
|---|---|---|
| Cecil.GetMethodLoad1stArgumentCode | WeakEvents.Fody/EventWeaver.cs:195-204 | the opcode returned loads physical argument slot 0 of a static method and slot 1 of an instance method, i.e. the first real parameter in both cases |
| IlEmit.ChainIsLinear | WeakEvents.Fody/IlEmit/IlEmitter.cs:25-45 | carries the contract of `Method` (line 44) and of the predecessor link: following predecessor links from any node gives a linear chain: it starts at a root whose method is the node's method, each later node's predecessor is the node before it, it ends at the node, and every node on it reports the root's method |
| IlEmit.Emit | WeakEvents.Fody/IlEmit/IlEmitter.cs:17-18 | the instructions of a chain are a function of its links alone; a root emits nothing (the prefix and per-node properties are in the rows for `EmitPreceeding`, `EmitGrowsAlongChain` and `StandardIl.LoadMethod`) |
| IlEmit.EmitPreceeding | WeakEvents.Fody/IlEmit/IlEmitter.cs:37-41 | a node's own output begins with exactly these instructions, its predecessor's output |
| IlEmit.EmitGrowsAlongChain | WeakEvents.Fody/IlEmit/IlEmitter.cs:17-18 | along a chain, each node's output is a prefix of the output of every later node |
| StandardIl.LoadMethod | WeakEvents.Fody/IlEmit/StandardIl/EmitLoadMethod.cs:19-35 | the node keeps the chain's method; its output is the predecessor's output followed by the receiver load for the chain's method and `ldftn target`, which is always the last instruction |
| StandardIl.LoadMethodOf | WeakEvents.Fody/IlEmit/StandardIl/EmitLoadMethod.cs:36-39 | on a fresh root for the woven method the output is exactly the receiver load and `ldftn target`, and the chain's method is the woven method |
| StandardIl.LoadMethodAppendsTwo | WeakEvents.Fody/IlEmit/StandardIl/EmitLoadMethod.cs:21-26 | exactly two instructions are appended, after an unchanged prefix: `ldnull` then `ldftn` for a static chain, `ldarg.0` then `ldftn` for an instance chain |
| StandardIl.ReceiverIgnoresTarget | WeakEvents.Fody/IlEmit/StandardIl/EmitLoadMethod.cs:21 | the receiver load chosen does not depend on which method is the target |
| TypeDefinitionExtensions.AnyMarker | WeakEvents.Fody/TypeDefinitionExtensions.cs:15 | true exactly when some attribute in the list has the marker's full name |
| TypeDefinitionExtensions.HasWeakEventAttribute | WeakEvents.Fody/TypeDefinitionExtensions.cs:13-16 | true exactly when some attribute of the type has the marker's full name |
| TypeDefinitionExtensions.IsTypeToProcess | WeakEvents.Fody/TypeDefinitionExtensions.cs:8-11 | true exactly when the type has at least one event, is not an interface, and has a marker attribute |
| TypeDefinitionExtensions.NoEventsNotProcessed | WeakEvents.Fody/TypeDefinitionExtensions.cs:10 | a type with no events is never processed, whatever its attributes |
| TypeDefinitionExtensions.InterfaceNotProcessed | WeakEvents.Fody/TypeDefinitionExtensions.cs:10 | an interface is never processed |
| TypeDefinitionExtensions.OneMarkerSuffices | WeakEvents.Fody/TypeDefinitionExtensions.cs:15 | one marker anywhere among other attributes is enough |
| TypeDefinitionExtensions.MatchIsCaseSensitive | WeakEvents.Fody/TypeDefinitionExtensions.cs:15 | an attribute of any named type whose name is not exactly the marker's, which includes every case variant of it, does not match |
| TypeDefinitionExtensions.CaseVariantsDoNotMatch | WeakEvents.Fody/TypeDefinitionExtensions.cs:15 | two case variants of the marker's name, spelt out, do not match |
| TypeDefinitionExtensions.GenericMarkerDoesNotMatch | WeakEvents.Fody/TypeDefinitionExtensions.cs:15 | a generic instance over the marker's name has a different full name and does not match |
| MethodBodies.CreateVariable | WeakEvents.Fody/WeakEventWeaver.cs:180-185 | exactly one local of the given type is appended after the existing ones, and its index is returned |
| MethodBodies.InsertInstructions | WeakEvents.Fody/WeakEventWeaver.cs:95-103 | the emitted instructions appear in order from the insertion point; the instructions before it are kept, those after it keep their order shifted by the count; the index returned is the insertion point plus the count |
| MethodBodies.AppendInstructions | WeakEvents.Fody/WeakEventWeaver.cs:164-167 | the emitted instructions are appended in order after the existing ones |
| MethodBodies.RedirectArgumentLoads | WeakEvents.Fody/EventWeaver.cs:107-116 | the new body is the forward-pass specification applied to the old body: loads of the given opcode from the start index on become loads of the local |
| MethodBodies.RedirectAt | WeakEvents.Fody/EventWeaver.cs:110-116 | the pass keeps the length, leaves every instruction before the start index alone, and from the start index on changes exactly the instructions with the given opcode |
| MethodBodies.SpliceThenRedirect | WeakEvents.Fody/EventWeaver.cs:103-116 | after splicing a prologue in at index 0 and redirecting from just past it: the length is the sum, the prologue is unchanged, only the matching instructions of the old body change, and no matching opcode remains after the prologue |
| MethodBodies.RedirectIdempotent | WeakEvents.Fody/EventWeaver.cs:110-116 | running the pass a second time changes nothing |
| Weaving.UnsubscribeMethodName | WeakEvents.Fody/EventWeaver.cs:155 | the body is `"<" + name + ">_Weak_Unsubscribe"`; the ensures fixes its length at the name's length plus 19; `UnsubscribeNameRoundTrip`, `AccessorNameOfSound` and `UnsubscribeNameInjective` prove its content |
| Weaving.UnsubscribeNameRoundTrip | WeakEvents.Fody/EventWeaver.cs:155 | the add accessor's name can be read back from the unsubscribe method's name |
| Weaving.AccessorNameOfSound | WeakEvents.Fody/EventWeaver.cs:155 | every name the reader accepts is the template filled with what it read |
| Weaving.UnsubscribeNameInjective | WeakEvents.Fody/WeakEventWeaver.cs:150 | different add accessor names give different unsubscribe method names |
| Weaving.GetUnsubscribeMethodAttributes | WeakEvents.Fody/EventWeaver.cs:181-187 | the access is private, HideBySig is set, Static is set exactly when the add accessor is static, and no other flag is set |
| EventWeaving.EventWeaver.constructor | WeakEvents.Fody/EventWeaver.cs:27-35 | the weaver keeps the CompilerGenerated attribute, `Action<T>..ctor` and `EventHandler<T>` it is given, together with `void` and the two delegate queries |
| EventWeaving.EventWeaver.ClosedHandlerFullName | WeakEvents.Fody/EventWeaver.cs:189-193 | carries the contract of `GetEquivalentGenericEventHandler`: the result is `EventHandler<T>` closed over the field type's event-arguments type, and its full name is the open type's name followed by that argument's name in angle brackets |
| EventWeaving.EventWeaver.NeedsCastIffNamesDiffer | WeakEvents.Fody/EventWeaver.cs:85 | carries the contract of `NeedsCast`: it holds exactly when the field type's full name differs from the closed handler's full name; the same test is repeated at lines 124 and 152 |
| EventWeaving.ConvertIf | WeakEvents.Fody/EventWeaver.cs:88-91 | the chain keeps its method, and its code is followed by one conversion exactly when `cast` holds |
| EventWeaving.EventWeaver.WeaveFindWeakCall | WeakEvents.Fody/EventWeaver.cs:82-99 | the chain is built on the accessor and ends by storing into the new local; `FindWeakCallCode` gives its whole code |
| EventWeaving.EventWeaver.WeaveMakeWeakCall | WeakEvents.Fody/EventWeaver.cs:121-139 | the chain is built on the accessor and ends by storing into the new local; `MakeWeakCallCode` gives its whole code |
| EventWeaving.EventWeaver.UnsubscribeBody | WeakEvents.Fody/EventWeaver.cs:164-175 | the chain is built on the unsubscribe method and ends with the field store and the return; `UnsubscribeBodyCode` gives its whole code |
| EventWeaving.EventWeaver.CastForNonGenericDelegate | WeakEvents.Fody/EventWeaver.cs:85 | a field typed by a non-generic delegate always needs the conversion |
| EventWeaving.EventWeaver.NoCastForClosedHandler | WeakEvents.Fody/EventWeaver.cs:85 | a field already typed by the closed `EventHandler<T>` needs none |
| EventWeaving.EventWeaver.MakeWeakCallCode | WeakEvents.Fody/EventWeaver.cs:121-139 | the add prologue, in order: the handler load, an optional conversion, the receiver load, `ldftn unsubscribe`, the `Action<T>` construction, `MakeWeak`, an optional conversion, and the store to the local |
| EventWeaving.EventWeaver.FindWeakCallCode | WeakEvents.Fody/EventWeaver.cs:82-99 | the remove prologue, in order: the field load, the handler load, an optional conversion, `FindWeak`, an optional conversion, and the store to the local |
| EventWeaving.EventWeaver.UnsubscribeBodyCode | WeakEvents.Fody/EventWeaver.cs:164-176 | the unsubscribe body, in order: the field load, the handler load, an optional conversion, `Delegate.Remove`, an optional conversion, the field store, and the return |
| EventWeaving.EventWeaver.ConversionsIffNeedsCast | WeakEvents.Fody/EventWeaver.cs:85-98 | each of the two prologues and the unsubscribe body contains a conversion exactly when the full names differ |
| EventWeaving.EventWeaver.MakeWeakLoadsHandlerOnce | WeakEvents.Fody/EventWeaver.cs:127 | the add prologue loads the handler argument exactly once, as its first instruction |
| EventWeaving.EventWeaver.WovenAddShape | WeakEvents.Fody/EventWeaver.cs:101-117 | the woven add accessor is the prologue followed by the old body. The prologue is unchanged and begins with the handler load. In the old body only the handler loads become loads of the new local, and no handler load remains after the prologue |
| EventWeaving.EventWeaver.WovenRemoveShape | WeakEvents.Fody/EventWeaver.cs:63-79 | the same for the remove accessor. The opcode replaced is chosen by the add accessor's static-ness |
| EventWeaving.EventWeaver.StaticHandlerLoadsRedirected | WeakEvents.Fody/EventWeaver.cs:107-116 | in a static add accessor every `ldarg.0` of the old body becomes a load of the new local |
| EventWeaving.EventWeaver.AddUnsubscribeMethodForEvent | WeakEvents.Fody/EventWeaver.cs:149-179 | the new method has the template name and the unsubscribe attributes. It returns `void`, takes one parameter of the closed handler type, is CompilerGenerated and has no locals. Its body is the unsubscribe code. It is appended to the declaring type's methods |
| EventWeaving.EventWeaver.ProcessAddMethod | WeakEvents.Fody/EventWeaver.cs:101-117 | one local of the field type is appended, one unsubscribe method is added to the type, and the body is the woven add body |
| EventWeaving.EventWeaver.ProcessRemoveMethod | WeakEvents.Fody/EventWeaver.cs:63-79 | one local of the field type is appended, and the body is the woven remove body |
| EventWeaving.EventWeaver.ProcessEvent | WeakEvents.Fody/EventWeaver.cs:37-61 | no field means a skip and an invalid delegate type means a skip; a skip leaves both accessors and the declaring type unchanged, and otherwise both accessors are woven |
| LegacyWeaving.WeakEventWeaver.constructor | WeakEvents.Fody/WeakEventWeaver.cs:28-38 | the weaver keeps the CompilerGenerated attribute, `MakeWeak<T>`, `FindWeak<T>`, `Action<T>..ctor` and `EventHandler<T>` it is given, together with `void` and the two delegate queries |
| LegacyWeaving.WeakEventWeaver.ClosedHandlerFullName | WeakEvents.Fody/WeakEventWeaver.cs:187-191 | carries the contract of `GetEquivalentGenericEventHandler`: the result is `EventHandler<T>` closed over the field type's event-arguments type, with the corresponding full name |
| LegacyWeaving.WeakEventWeaver.WeaveFindWeakCall | WeakEvents.Fody/WeakEventWeaver.cs:84-93 | the chain is built on the accessor and ends by storing into the new local; `FindWeakCallCode` gives its whole code |
| LegacyWeaving.WeakEventWeaver.WeaveMakeWeakCall | WeakEvents.Fody/WeakEventWeaver.cs:124-135 | the chain is built on the accessor and ends by storing into the new local; `MakeWeakCallCode` gives its whole code |
| LegacyWeaving.WeakEventWeaver.UnsubscribeBody | WeakEvents.Fody/WeakEventWeaver.cs:159-162 | the chain is built on the unsubscribe method and ends with the field store and the return; `UnsubscribeBodyCode` gives its whole code |
| LegacyWeaving.WeakEventWeaver.MakeWeakCallCode | WeakEvents.Fody/WeakEventWeaver.cs:124-135 | the add prologue always holds both conversions, around a generic call to `MakeWeak<T>` of the handler and the `Action<T>` |
| LegacyWeaving.WeakEventWeaver.FindWeakCallCode | WeakEvents.Fody/WeakEventWeaver.cs:84-93 | the remove prologue always holds both conversions, around a generic call to `FindWeak<T>` of the field and the handler |
| LegacyWeaving.WeakEventWeaver.UnsubscribeBodyCode | WeakEvents.Fody/WeakEventWeaver.cs:159-162 | the unsubscribe body always converts the handler and the result of `Delegate.Remove` |
| LegacyWeaving.WeakEventWeaver.WovenAddShape | WeakEvents.Fody/WeakEventWeaver.cs:105-120 | the woven add accessor is the prologue unchanged followed by the old body with only its `ldarg.1` loads redirected |
| LegacyWeaving.WeakEventWeaver.WovenRemoveShape | WeakEvents.Fody/WeakEventWeaver.cs:66-81 | the woven remove accessor is the prologue unchanged followed by the old body with only its `ldarg.1` loads redirected |
| LegacyWeaving.WeakEventWeaver.StaticHandlerLoadsKept | WeakEvents.Fody/WeakEventWeaver.cs:111-119 | in a static add accessor the handler is `ldarg.0`, and every such load in the old body survives the pass |
| LegacyWeaving.WeakEventWeaver.StaticAccessorCounterexample | WeakEvents.Fody/WeakEventWeaver.cs:111-119 | a concrete static add body whose handler load is still in place after weaving |
| LegacyWeaving.WeakEventWeaver.AddUnsubscribeMethodForEvent | WeakEvents.Fody/WeakEventWeaver.cs:145-170 | the same new method as the event weaver's (name, attributes, `void`, one parameter, CompilerGenerated), with the always-converting body appended instruction by instruction |
| LegacyWeaving.WeakEventWeaver.ProcessAddMethod | WeakEvents.Fody/WeakEventWeaver.cs:105-120 | one local appended, one unsubscribe method added, and the body is the legacy woven add body |
| LegacyWeaving.WeakEventWeaver.ProcessRemoveMethod | WeakEvents.Fody/WeakEventWeaver.cs:66-81 | one local appended, and the body is the legacy woven remove body |
| LegacyWeaving.WeakEventWeaver.ProcessEvent | WeakEvents.Fody/WeakEventWeaver.cs:40-64 | the same three outcomes as the event weaver; a skip changes nothing |

## Left out

- Loading library symbols (`LoadCompilerGeneratedAttribute`, `LoadOpenActionTConstructor`, `LoadOpenEventHandlerT`, `LoadOpenMakeWeakT`, `LoadOpenFindWeakT`, `Import`, `Resolve`, `Single`): these are Mono.Cecil library calls. Their results are constructor parameters of the weaver classes.
- Generic closing (`MakeGenericInstanceType`, `MakeMethodClosedGeneric`, `MakeDeclaringTypeClosedGeneric`): closed types and methods are records of what was closed over what. Only the full name of a closed type is interpreted, following Cecil's `Open<Arg>` rule.
- `GetEventDelegate` is not part of this model. Its result is the event's optional backing field, given as data.
- `IsValidEventDelegate` and `GetEventArgsType` are not part of this model. They are function-valued parameters of the weavers.
- The emitter nodes other than `EmitLoadMethod` are not part of this model. They are opaque blocks, as are the extension methods that build them. `LoadMethod1stArg` is taken to emit `ldarg.0` for a static method and `ldarg.1` otherwise, as the comments at `EventWeaver.cs:69` and `:107` say. The root (`EmptyEmitter`) emits nothing.
- The logger: only the outcome of `ProcessEvent` is modelled, not the messages.
- Runtime behaviour: weak references, garbage collection, `Delegate.Remove`, and what `MakeWeak`/`FindWeak` do at run time.
- Branch-target identity and IL stack typing: an instruction is a value, so a branch aimed at a replaced instruction is not tracked.
- MethodBodies.InsertInstructions: requires the insertion point to lie within the body. Every caller passes 0.
- EventWeaving.EventWeaver.ProcessEvent: requires the add and remove accessors to be distinct objects. C# compilers always emit two separate accessor methods for an event. If one method were both accessors, the code would give it two new locals and splice both prologues into it, one after the other. The model does not describe that state.
- LegacyWeaving.WeakEventWeaver.ProcessEvent: requires the add and remove accessors to be distinct objects, for the same reason. Compilers emit two separate accessors. A method serving as both would get two locals and both prologues.
- The order in which the two accessors are rewritten is not stated. Add comes first in the model as in the code, but the final state does not depend on it.
- The extension-method `CreateVariable` and `InsertInstructions` used by `EventWeaver.cs` are not part of this model. They are taken to behave like the private methods of the same names in `WeakEventWeaver.cs`.
- The older weaver's `GetUnsubscribeMethodAttributes` and name template are identical to the event weaver's. Both weavers use `Weaving.GetUnsubscribeMethodAttributes` and `Weaving.UnsubscribeMethodName`.
- Integer widths: local indices and instruction counts are unbounded naturals. The code's `int` indices never approach their limit on realistic method bodies.

## Findings

| source | as written | input that shows it | evidently intended | confidence | as-written member | corrected member |
|---|---|---|---|---|---|---|
| WeakEvents.Fody/WeakEventWeaver.cs:111-119 | the forward pass of the older weaver always redirects `ldarg.1`. In a static add accessor the handler is argument 0, loaded by `ldarg.0`, so its loads are left alone | a static add accessor whose body is `ldsfld; ldarg.0; call Combine; stsfld; ret` keeps `ldarg.0` after the prologue, so the strong handler is subscribed rather than its weak wrapper | redirect the load of the first real argument: `ldarg.0` when the accessor is static, `ldarg.1` otherwise, as `EventWeaver.cs` does | not executed | LegacyWeaving.WeakEventWeaver.StaticAccessorCounterexample | EventWeaving.EventWeaver.StaticHandlerLoadsRedirected |
