/**
 The older weaver. It does what the event weaver does, with three
 differences: it always emits both delegate conversions, it calls the helpers
 through a generic `Call` over joined arguments, and its forward pass always
 redirects `Ldarg_1`, whatever the accessor's static-ness.
 */
module LegacyWeaving {
  import opened Cecil
  import opened IlEmit
  import opened StandardIl
  import opened MethodBodies
  import opened Weaving

  class WeakEventWeaver {
    const compilerGeneratedAttribute: CustomAttribute
    const openMakeWeakT: MethodRef
    const openFindWeakT: MethodRef
    const openActionTCtor: MethodRef
    const openEventHandlerT: TypeRef
    const voidType: TypeRef
    const eventArgsType: TypeRef -> TypeRef
    const isValidEventDelegate: TypeRef -> bool

    constructor (compilerGeneratedAttribute: CustomAttribute, openMakeWeakT: MethodRef, openFindWeakT: MethodRef,
                 openActionTCtor: MethodRef, openEventHandlerT: TypeRef, voidType: TypeRef,
                 eventArgsType: TypeRef -> TypeRef, isValidEventDelegate: TypeRef -> bool)
      ensures this.compilerGeneratedAttribute == compilerGeneratedAttribute
      ensures this.openMakeWeakT == openMakeWeakT && this.openFindWeakT == openFindWeakT
      ensures this.openActionTCtor == openActionTCtor && this.openEventHandlerT == openEventHandlerT
      ensures this.voidType == voidType
      ensures this.eventArgsType == eventArgsType && this.isValidEventDelegate == isValidEventDelegate
    {
      this.compilerGeneratedAttribute := compilerGeneratedAttribute;
      this.openMakeWeakT := openMakeWeakT;
      this.openFindWeakT := openFindWeakT;
      this.openActionTCtor := openActionTCtor;
      this.openEventHandlerT := openEventHandlerT;
      this.voidType := voidType;
      this.eventArgsType := eventArgsType;
      this.isValidEventDelegate := isValidEventDelegate;
    }

    function GetEquivalentGenericEventHandler(f: FieldRef): TypeRef
    {
      GenericInstance(openEventHandlerT, eventArgsType(f.fieldType))
    }

    /** The closed handler's full name: the open type's, then the field type's
        event-arguments type in angle brackets. */
    lemma ClosedHandlerFullName(f: FieldRef)
      ensures GetEquivalentGenericEventHandler(f).argument == eventArgsType(f.fieldType)
      ensures FullName(GetEquivalentGenericEventHandler(f)) ==
              FullName(openEventHandlerT) + "<" + FullName(eventArgsType(f.fieldType)) + ">"
    {
    }

    /** `FindWeak<T>(<field>, (EventHandler<T>)value)`, converted back and stored. */
    function WeaveFindWeakCall(accessor: MethodDef, f: FieldRef, weakEventHandler: nat): (e: Emitter)
      ensures Method(e) == accessor
      ensures e.Step? && e.node == Store(weakEventHandler)
    {
      var closedEventHandlerT := GetEquivalentGenericEventHandler(f);
      var loadField := Step(Empty(accessor), LoadField(f));
      assert Method(loadField) == accessor;
      var findWeakParams := Join(loadField, Step(Step(Empty(accessor), LoadFirstArg), DelegateConvert(closedEventHandlerT)));
      var callFindWeak := Step(findWeakParams, Call(ClosedGeneric(openFindWeakT, closedEventHandlerT.argument)));
      assert Method(callFindWeak) == accessor;
      var weakHandler := Step(callFindWeak, DelegateConvert(f.fieldType));
      Step(weakHandler, Store(weakEventHandler))
    }

    /** `MakeWeak<T>((EventHandler<T>)value, new Action<EventHandler<T>>(unsubscribe))`, converted back and stored. */
    function WeaveMakeWeakCall(accessor: MethodDef, f: FieldRef, unsubscribe: MethodDef, weakEventHandler: nat): (e: Emitter)
      ensures Method(e) == accessor
      ensures e.Step? && e.node == Store(weakEventHandler)
    {
      var closedEventHandlerT := GetEquivalentGenericEventHandler(f);
      var unsubscribeAction := Step(LoadMethodOf(accessor, Defined(unsubscribe)), NewObject(OnClosedType(openActionTCtor, closedEventHandlerT)));
      var load := Step(Empty(accessor), LoadFirstArg);
      assert Method(load) == accessor;
      var genericHandler := Step(load, DelegateConvert(closedEventHandlerT));
      var makeWeakParams := Join(genericHandler, unsubscribeAction);
      assert Method(makeWeakParams) == accessor;
      var genericWeakHandler := Step(makeWeakParams, Call(ClosedGeneric(openMakeWeakT, closedEventHandlerT.argument)));
      var weakHandler := Step(genericWeakHandler, DelegateConvert(f.fieldType));
      assert Method(weakHandler) == accessor;
      Step(weakHandler, Store(weakEventHandler))
    }

    function UnsubscribeBody(unsubscribe: MethodDef, f: FieldRef): (e: Emitter)
      ensures Method(e) == unsubscribe
      ensures e.Step? && e.node == Return && e.prev.Step? && e.prev.node == StoreField(f)
    {
      var weakHandler := Step(Step(Empty(unsubscribe), LoadFirstArg), DelegateConvert(f.fieldType));
      var loadField := Step(Empty(unsubscribe), LoadField(f));
      assert Method(loadField) == unsubscribe;
      var removeFromFieldDelegate := Step(Join(loadField, weakHandler), CallDelegateRemove);
      assert Method(removeFromFieldDelegate) == unsubscribe;
      var compatibleHandler := Step(removeFromFieldDelegate, DelegateConvert(f.fieldType));
      assert Method(compatibleHandler) == unsubscribe;
      var stored := Step(compatibleHandler, StoreField(f));
      assert Method(stored) == unsubscribe;
      Step(stored, Return)
    }

    /** The add prologue: both conversions are always there. */
    lemma MakeWeakCallCode(accessor: MethodDef, f: FieldRef, unsubscribe: MethodDef, weakEventHandler: nat)
      ensures var closedEventHandlerT := GetEquivalentGenericEventHandler(f);
        Emit(WeaveMakeWeakCall(accessor, f, unsubscribe, weakEventHandler)) ==
          [Op(GetMethodLoad1stArgumentCode(accessor)), Marker(DelegateConvert(closedEventHandlerT)),
           ReceiverLoad(accessor), Instruction(Ldftn, MethodOperand(Defined(unsubscribe))),
           Marker(NewObject(OnClosedType(openActionTCtor, closedEventHandlerT))),
           Marker(Call(ClosedGeneric(openMakeWeakT, eventArgsType(f.fieldType)))),
           Marker(DelegateConvert(f.fieldType)), Marker(Store(weakEventHandler))]
    {
      var closedEventHandlerT := GetEquivalentGenericEventHandler(f);
      var load := Step(Empty(accessor), LoadFirstArg);
      assert Emit(load) == [Op(GetMethodLoad1stArgumentCode(accessor))];
      var genericHandler := Step(load, DelegateConvert(closedEventHandlerT));
      assert Emit(genericHandler) == [Op(GetMethodLoad1stArgumentCode(accessor)), Marker(DelegateConvert(closedEventHandlerT))];
      var unsubscribeAction := Step(LoadMethodOf(accessor, Defined(unsubscribe)), NewObject(OnClosedType(openActionTCtor, closedEventHandlerT)));
      assert Emit(unsubscribeAction) == [ReceiverLoad(accessor), Instruction(Ldftn, MethodOperand(Defined(unsubscribe))),
                                         Marker(NewObject(OnClosedType(openActionTCtor, closedEventHandlerT)))];
      var genericWeakHandler := Step(Join(genericHandler, unsubscribeAction), Call(ClosedGeneric(openMakeWeakT, closedEventHandlerT.argument)));
      assert Emit(genericWeakHandler) == Emit(genericHandler) + Emit(unsubscribeAction)
                                        + [Marker(Call(ClosedGeneric(openMakeWeakT, closedEventHandlerT.argument)))];
      var weakHandler := Step(genericWeakHandler, DelegateConvert(f.fieldType));
      assert Emit(weakHandler) == Emit(genericWeakHandler) + [Marker(DelegateConvert(f.fieldType))];
    }

    /** The remove prologue: both conversions are always there. */
    lemma FindWeakCallCode(accessor: MethodDef, f: FieldRef, weakEventHandler: nat)
      ensures var closedEventHandlerT := GetEquivalentGenericEventHandler(f);
        Emit(WeaveFindWeakCall(accessor, f, weakEventHandler)) ==
          [Marker(LoadField(f)), Op(GetMethodLoad1stArgumentCode(accessor)), Marker(DelegateConvert(closedEventHandlerT)),
           Marker(Call(ClosedGeneric(openFindWeakT, eventArgsType(f.fieldType)))),
           Marker(DelegateConvert(f.fieldType)), Marker(Store(weakEventHandler))]
    {
      var closedEventHandlerT := GetEquivalentGenericEventHandler(f);
      var loadField := Step(Empty(accessor), LoadField(f));
      assert Emit(loadField) == [Marker(LoadField(f))];
      var load := Step(Empty(accessor), LoadFirstArg);
      assert Emit(load) == [Op(GetMethodLoad1stArgumentCode(accessor))];
      var handler := Step(load, DelegateConvert(closedEventHandlerT));
      assert Emit(handler) == [Op(GetMethodLoad1stArgumentCode(accessor)), Marker(DelegateConvert(closedEventHandlerT))];
      var callFindWeak := Step(Join(loadField, handler), Call(ClosedGeneric(openFindWeakT, closedEventHandlerT.argument)));
      assert Emit(callFindWeak) == Emit(loadField) + Emit(handler)
                                 + [Marker(Call(ClosedGeneric(openFindWeakT, closedEventHandlerT.argument)))];
      var weakHandler := Step(callFindWeak, DelegateConvert(f.fieldType));
      assert Emit(weakHandler) == Emit(callFindWeak) + [Marker(DelegateConvert(f.fieldType))];
    }

    /** The unsubscribe body, in emitted order. */
    lemma UnsubscribeBodyCode(unsubscribe: MethodDef, f: FieldRef)
      ensures Emit(UnsubscribeBody(unsubscribe, f)) ==
          [Marker(LoadField(f)), Op(GetMethodLoad1stArgumentCode(unsubscribe)), Marker(DelegateConvert(f.fieldType)),
           Marker(CallDelegateRemove), Marker(DelegateConvert(f.fieldType)), Marker(StoreField(f)), Marker(Return)]
    {
      var loadField := Step(Empty(unsubscribe), LoadField(f));
      assert Emit(loadField) == [Marker(LoadField(f))];
      var load := Step(Empty(unsubscribe), LoadFirstArg);
      assert Emit(load) == [Op(GetMethodLoad1stArgumentCode(unsubscribe))];
      var weakHandler := Step(load, DelegateConvert(f.fieldType));
      assert Emit(weakHandler) == [Op(GetMethodLoad1stArgumentCode(unsubscribe)), Marker(DelegateConvert(f.fieldType))];
      var remove := Step(Join(loadField, weakHandler), CallDelegateRemove);
      assert Emit(remove) == Emit(loadField) + Emit(weakHandler) + [Marker(CallDelegateRemove)];
      var compatible := Step(remove, DelegateConvert(f.fieldType));
      assert Emit(compatible) == Emit(remove) + [Marker(DelegateConvert(f.fieldType))];
      var stored := Step(compatible, StoreField(f));
      assert Emit(stored) == Emit(compatible) + [Marker(StoreField(f))];
    }

    /** The add accessor after weaving: the forward pass always looks for `Ldarg_1`. */
    function WovenAddBody(body: seq<Instruction>, add: MethodDef, f: FieldRef, unsubscribe: MethodDef, weakEventHandler: nat): seq<Instruction>
    {
      var prologue := Emit(WeaveMakeWeakCall(add, f, unsubscribe, weakEventHandler));
      Redirect(prologue + body, |prologue|, Ldarg1, weakEventHandler)
    }

    function WovenRemoveBody(body: seq<Instruction>, remove: MethodDef, f: FieldRef, weakEventHandler: nat): seq<Instruction>
    {
      var prologue := Emit(WeaveFindWeakCall(remove, f, weakEventHandler));
      Redirect(prologue + body, |prologue|, Ldarg1, weakEventHandler)
    }

    /** A woven add accessor: prologue kept, only `Ldarg_1` of the old body redirected. */
    lemma WovenAddShape(body: seq<Instruction>, add: MethodDef, f: FieldRef, unsubscribe: MethodDef, weakEventHandler: nat)
      ensures var prologue := Emit(WeaveMakeWeakCall(add, f, unsubscribe, weakEventHandler));
        var r := WovenAddBody(body, add, f, unsubscribe, weakEventHandler);
        && |r| == |prologue| + |body|
        && r[..|prologue|] == prologue
        && (forall k :: 0 <= k < |body| ==> r[|prologue| + k] == (if body[k].code == Ldarg1 then LoadLocal(weakEventHandler) else body[k]))
    {
      var prologue := Emit(WeaveMakeWeakCall(add, f, unsubscribe, weakEventHandler));
      SpliceThenRedirect(prologue, body, Ldarg1, weakEventHandler);
    }

    /** A woven remove accessor: prologue kept, only `Ldarg_1` of the old body redirected. */
    lemma WovenRemoveShape(body: seq<Instruction>, remove: MethodDef, f: FieldRef, weakEventHandler: nat)
      ensures var prologue := Emit(WeaveFindWeakCall(remove, f, weakEventHandler));
        var r := WovenRemoveBody(body, remove, f, weakEventHandler);
        && |r| == |prologue| + |body|
        && r[..|prologue|] == prologue
        && (forall k :: 0 <= k < |body| ==> r[|prologue| + k] == (if body[k].code == Ldarg1 then LoadLocal(weakEventHandler) else body[k]))
    {
      var prologue := Emit(WeaveFindWeakCall(remove, f, weakEventHandler));
      SpliceThenRedirect(prologue, body, Ldarg1, weakEventHandler);
    }

    /** In a static add accessor the handler is argument 0, and every load of
        it in the old body survives the pass: the subscription still uses the
        handler itself rather than its weak wrapper. */
    lemma StaticHandlerLoadsKept(body: seq<Instruction>, add: MethodDef, f: FieldRef, unsubscribe: MethodDef, weakEventHandler: nat)
      requires add.IsStatic()
      ensures GetMethodLoad1stArgumentCode(add) == Ldarg0
      ensures var prologue := Emit(WeaveMakeWeakCall(add, f, unsubscribe, weakEventHandler));
        var r := WovenAddBody(body, add, f, unsubscribe, weakEventHandler);
        |r| == |prologue| + |body| &&
        forall k :: 0 <= k < |body| && body[k].code == Ldarg0 ==> r[|prologue| + k] == body[k]
    {
      WovenAddShape(body, add, f, unsubscribe, weakEventHandler);
    }

    /** A concrete static add accessor body (`ldsfld; ldarg.0; call Combine; stsfld; ret`,
        the opcodes other than `ldarg.0` left abstract): after weaving the
        handler is still loaded directly. */
    lemma StaticAccessorCounterexample(add: MethodDef, f: FieldRef, unsubscribe: MethodDef, weakEventHandler: nat)
      requires add.IsStatic()
      ensures var body := [Op(Other(0x7E)), Op(Ldarg0), Op(Other(0x28)), Op(Other(0x80)), Op(Other(0x2A))];
        var prologue := Emit(WeaveMakeWeakCall(add, f, unsubscribe, weakEventHandler));
        var r := WovenAddBody(body, add, f, unsubscribe, weakEventHandler);
        |r| == |prologue| + 5 && r[|prologue| + 1] == Op(Ldarg0)
    {
      var body := [Op(Other(0x7E)), Op(Ldarg0), Op(Other(0x28)), Op(Other(0x80)), Op(Other(0x2A))];
      StaticHandlerLoadsKept(body, add, f, unsubscribe, weakEventHandler);
      assert body[1].code == Ldarg0;
    }

    ghost predicate IsUnsubscribeMethodFor(u: MethodDef, ev: EventDef, f: FieldRef)
      reads u
    {
      && u.name == UnsubscribeMethodName(ev.addMethod.name)
      && u.attributes == GetUnsubscribeMethodAttributes(ev)
      && u.returnType == voidType
      && u.parameters == [GetEquivalentGenericEventHandler(f)]
      && u.customAttributes == [compilerGeneratedAttribute]
      && u.variables == []
      && u.instructions == Emit(UnsubscribeBody(u, f))
    }

    /** Builds the unsubscribe method, appends it to the declaring type, and
        adds its body instruction by instruction. */
    method AddUnsubscribeMethodForEvent(ev: EventDef, f: FieldRef) returns (unsubscribe: MethodDef)
      modifies ev.declaringType`methods
      ensures fresh(unsubscribe) && IsUnsubscribeMethodFor(unsubscribe, ev, f)
      ensures ev.declaringType.methods == old(ev.declaringType.methods) + [unsubscribe]
    {
      var closedEventHandlerT := GetEquivalentGenericEventHandler(f);
      var unsubscribeMethodName := UnsubscribeMethodName(ev.addMethod.name);
      unsubscribe := new MethodDef(unsubscribeMethodName, GetUnsubscribeMethodAttributes(ev), voidType);
      unsubscribe.parameters := unsubscribe.parameters + [closedEventHandlerT];
      unsubscribe.customAttributes := unsubscribe.customAttributes + [compilerGeneratedAttribute];
      ev.declaringType.methods := ev.declaringType.methods + [unsubscribe];
      var instructions := UnsubscribeBody(unsubscribe, f);
      AppendInstructions(unsubscribe, instructions);
    }

    twostate predicate AddAccessorWoven(ev: EventDef, f: FieldRef)
      reads ev.addMethod, ev.declaringType, ev.declaringType.methods
    {
      && ev.addMethod.variables == old(ev.addMethod.variables) + [f.fieldType]
      && |ev.declaringType.methods| == |old(ev.declaringType.methods)| + 1
      && var u := ev.declaringType.methods[|old(ev.declaringType.methods)|];
      && ev.declaringType.methods == old(ev.declaringType.methods) + [u]
      && fresh(u) && IsUnsubscribeMethodFor(u, ev, f)
      && ev.addMethod.instructions == WovenAddBody(old(ev.addMethod.instructions), ev.addMethod, f, u, |old(ev.addMethod.variables)|)
    }

    twostate predicate RemoveAccessorWoven(ev: EventDef, f: FieldRef)
      reads ev.removeMethod
    {
      && ev.removeMethod.variables == old(ev.removeMethod.variables) + [f.fieldType]
      && ev.removeMethod.instructions ==
           WovenRemoveBody(old(ev.removeMethod.instructions), ev.removeMethod, f, |old(ev.removeMethod.variables)|)
    }

    method ProcessAddMethod(ev: EventDef, f: FieldRef)
      modifies ev.addMethod`variables, ev.addMethod`instructions, ev.declaringType`methods
      ensures AddAccessorWoven(ev, f)
    {
      var weakEventHandler := CreateVariable(ev.addMethod, f.fieldType);
      var unsubscribe := AddUnsubscribeMethodForEvent(ev, f);
      var makeWeak := WeaveMakeWeakCall(ev.addMethod, f, unsubscribe, weakEventHandler);
      var oldCodeIndex := InsertInstructions(ev.addMethod, makeWeak, 0);
      RedirectArgumentLoads(ev.addMethod, oldCodeIndex, Ldarg1, weakEventHandler);
    }

    method ProcessRemoveMethod(ev: EventDef, f: FieldRef)
      modifies ev.removeMethod`variables, ev.removeMethod`instructions
      ensures RemoveAccessorWoven(ev, f)
    {
      var weakEventHandler := CreateVariable(ev.removeMethod, f.fieldType);
      var findWeak := WeaveFindWeakCall(ev.removeMethod, f, weakEventHandler);
      var oldCodeIndex := InsertInstructions(ev.removeMethod, findWeak, 0);
      RedirectArgumentLoads(ev.removeMethod, oldCodeIndex, Ldarg1, weakEventHandler);
    }

    method ProcessEvent(ev: EventDef) returns (outcome: Outcome)
      requires ev.addMethod != ev.removeMethod
      modifies ev.addMethod`variables, ev.addMethod`instructions
      modifies ev.removeMethod`variables, ev.removeMethod`instructions
      modifies ev.declaringType`methods
      ensures ev.eventDelegate.None? ==> outcome == SkippedNoField
      ensures ev.eventDelegate.Some? && !isValidEventDelegate(ev.eventDelegate.value.fieldType) ==> outcome == SkippedIncompatibleType
      ensures ev.eventDelegate.Some? && isValidEventDelegate(ev.eventDelegate.value.fieldType) ==> outcome == Woven
      ensures outcome != Woven ==> unchanged(ev.addMethod, ev.removeMethod, ev.declaringType)
      ensures outcome == Woven ==>
        AddAccessorWoven(ev, ev.eventDelegate.value) && RemoveAccessorWoven(ev, ev.eventDelegate.value)
    {
      match ev.eventDelegate
      case None =>
        outcome := SkippedNoField;
      case Some(eventDelegate) =>
        if isValidEventDelegate(eventDelegate.fieldType) {
          ProcessAddMethod(ev, eventDelegate);
          ProcessRemoveMethod(ev, eventDelegate);
          outcome := Woven;
        } else {
          outcome := SkippedIncompatibleType;
        }
    }
  }
}
