/**
 The event weaver. For each event it either skips (no backing field, or a
 field whose type is not a valid event delegate) or rewrites both accessors,
 add first. Rewriting an accessor appends a local, splices a prologue in at
 index 0 that wraps the handler argument (add: `MakeWeak`) or looks its
 wrapper up (remove: `FindWeak`) and stores the result in the local, then
 redirects every later load of the handler argument to that local.
 */
module EventWeaving {
  import opened Cecil
  import opened IlEmit
  import opened StandardIl
  import opened MethodBodies
  import opened Weaving

  /** Whether an instruction is the code of a delegate conversion node. */
  predicate IsConversion(i: Instruction)
  {
    i.operand.NodeOperand? && i.operand.node.DelegateConvert?
  }

  /** A chain, followed by a conversion to `t` when `cast` holds: the same
      method, and the chain's code followed by the conversion's, if any. */
  function ConvertIf(cast: bool, e: Emitter, t: TypeRef): (r: Emitter)
    ensures Method(r) == Method(e)
    ensures Emit(r) == Emit(e) + ConversionCode(cast, t)
  {
    if cast then Step(e, DelegateConvert(t)) else e
  }

  function ConversionCode(cast: bool, t: TypeRef): seq<Instruction>
  {
    if cast then [Marker(DelegateConvert(t))] else []
  }

  /**
   The library symbols the weaver loads when it is created are given to it
   as values; so are the two type queries whose code is not part of this
   model: the event-arguments type of a delegate type (already imported) and
   whether a type is a valid event delegate.
   */
  class EventWeaver {
    const compilerGeneratedAttribute: CustomAttribute
    const openActionTCtor: MethodRef
    const openEventHandlerT: TypeRef
    const voidType: TypeRef
    const eventArgsType: TypeRef -> TypeRef
    const isValidEventDelegate: TypeRef -> bool

    constructor (compilerGeneratedAttribute: CustomAttribute, openActionTCtor: MethodRef,
                 openEventHandlerT: TypeRef, voidType: TypeRef,
                 eventArgsType: TypeRef -> TypeRef, isValidEventDelegate: TypeRef -> bool)
      ensures this.compilerGeneratedAttribute == compilerGeneratedAttribute
      ensures this.openActionTCtor == openActionTCtor && this.openEventHandlerT == openEventHandlerT
      ensures this.voidType == voidType
      ensures this.eventArgsType == eventArgsType && this.isValidEventDelegate == isValidEventDelegate
    {
      this.compilerGeneratedAttribute := compilerGeneratedAttribute;
      this.openActionTCtor := openActionTCtor;
      this.openEventHandlerT := openEventHandlerT;
      this.voidType := voidType;
      this.eventArgsType := eventArgsType;
      this.isValidEventDelegate := isValidEventDelegate;
    }

    /** `EventHandler<T>` closed over the field type's event-arguments type. */
    function GetEquivalentGenericEventHandler(f: FieldRef): TypeRef
    {
      GenericInstance(openEventHandlerT, eventArgsType(f.fieldType))
    }

    /** The closed handler's full name: the open type's, then the field type's
        event-arguments type in angle brackets. */
    lemma ClosedHandlerFullName(f: FieldRef)
      ensures GetEquivalentGenericEventHandler(f).argument == eventArgsType(f.fieldType)
      ensures FullName(GetEquivalentGenericEventHandler(f)) ==
              FullName(openEventHandlerT) + "<" + FullName(eventArgsType(f.fieldType)) + ">"
    {
    }

    /** A conversion is emitted only when the closed handler type and the
        field's type have different full names. */
    predicate NeedsCast(f: FieldRef)
    {
      FullName(GetEquivalentGenericEventHandler(f)) != FullName(f.fieldType)
    }

    /** The conversion decision in terms of the two types' names alone. */
    lemma NeedsCastIffNamesDiffer(f: FieldRef)
      ensures NeedsCast(f) <==>
              FullName(f.fieldType) != FullName(openEventHandlerT) + "<" + FullName(eventArgsType(f.fieldType)) + ">"
    {
      ClosedHandlerFullName(f);
    }

    /** A field typed by a non-generic delegate (no `<` in its name) always needs the conversion. */
    lemma CastForNonGenericDelegate(f: FieldRef)
      requires f.fieldType.Named? && '<' !in f.fieldType.name
      ensures NeedsCast(f)
    {
      var o := FullName(openEventHandlerT);
      var closedName := FullName(GetEquivalentGenericEventHandler(f));
      assert closedName[|o|] == '<';
      assert FullName(f.fieldType) == f.fieldType.name;
    }

    /** A field already typed by the closed handler needs no conversion. */
    lemma NoCastForClosedHandler(f: FieldRef)
      requires f.fieldType == GetEquivalentGenericEventHandler(f)
      ensures !NeedsCast(f)
    {
    }

    /** `<field type> b = (<field type>)FindWeak(<field>, (EventHandler<T>)value)`, the
        conversions present only when needed. */
    function WeaveFindWeakCall(accessor: MethodDef, f: FieldRef, weakEventHandler: nat): (e: Emitter)
      ensures Method(e) == accessor
      ensures e.Step? && e.node == Store(weakEventHandler)
    {
      var closedEventHandlerT := GetEquivalentGenericEventHandler(f);
      var cast := NeedsCast(f);
      var handler := ConvertIf(cast, Step(Empty(accessor), LoadFirstArg), closedEventHandlerT);
      var loadField := Step(Empty(accessor), LoadField(f));
      assert Method(loadField) == accessor;
      var callFindWeak := Step(Join(loadField, handler), FindWeak(closedEventHandlerT));
      Step(ConvertIf(cast, callFindWeak, f.fieldType), Store(weakEventHandler))
    }

    /** `<field type> b = (<field type>)MakeWeak((EventHandler<T>)value, new Action<EventHandler<T>>(unsubscribe))`,
        the conversions present only when needed. */
    function WeaveMakeWeakCall(accessor: MethodDef, f: FieldRef, unsubscribe: MethodDef, weakEventHandler: nat): (e: Emitter)
      ensures Method(e) == accessor
      ensures e.Step? && e.node == Store(weakEventHandler)
    {
      var closedEventHandlerT := GetEquivalentGenericEventHandler(f);
      var cast := NeedsCast(f);
      var unsubscribeAction := Step(LoadMethodOf(accessor, Defined(unsubscribe)), NewObject(OnClosedType(openActionTCtor, closedEventHandlerT)));
      var load := Step(Empty(accessor), LoadFirstArg);
      assert Method(load) == accessor;
      var genericHandler := ConvertIf(cast, load, closedEventHandlerT);
      var genericWeakHandler := Step(Join(genericHandler, unsubscribeAction), MakeWeak(closedEventHandlerT));
      assert Method(genericWeakHandler) == accessor;
      Step(ConvertIf(cast, genericWeakHandler, f.fieldType), Store(weakEventHandler))
    }

    /** The unsubscribe body: `field = (<field type>)Delegate.Remove(field, (<field type>)weh); return`. */
    function UnsubscribeBody(unsubscribe: MethodDef, f: FieldRef): (e: Emitter)
      ensures Method(e) == unsubscribe
      ensures e.Step? && e.node == Return && e.prev.Step? && e.prev.node == StoreField(f)
    {
      var cast := NeedsCast(f);
      var weakHandler := ConvertIf(cast, Step(Empty(unsubscribe), LoadFirstArg), f.fieldType);
      var loadField := Step(Empty(unsubscribe), LoadField(f));
      assert Method(loadField) == unsubscribe;
      var removeFromFieldDelegate := Step(Join(loadField, weakHandler), CallDelegateRemove);
      var compatibleHandler := ConvertIf(cast, removeFromFieldDelegate, f.fieldType);
      Step(Step(compatibleHandler, StoreField(f)), Return)
    }

    /** The instructions the add accessor's prologue consists of. */
    lemma MakeWeakCallCode(accessor: MethodDef, f: FieldRef, unsubscribe: MethodDef, weakEventHandler: nat)
      ensures var closedEventHandlerT := GetEquivalentGenericEventHandler(f);
        Emit(WeaveMakeWeakCall(accessor, f, unsubscribe, weakEventHandler)) ==
          [Op(GetMethodLoad1stArgumentCode(accessor))]
          + ConversionCode(NeedsCast(f), closedEventHandlerT)
          + [ReceiverLoad(accessor), Instruction(Ldftn, MethodOperand(Defined(unsubscribe))),
             Marker(NewObject(OnClosedType(openActionTCtor, closedEventHandlerT))),
             Marker(MakeWeak(closedEventHandlerT))]
          + ConversionCode(NeedsCast(f), f.fieldType)
          + [Marker(Store(weakEventHandler))]
    {
      var closedEventHandlerT := GetEquivalentGenericEventHandler(f);
      var cast := NeedsCast(f);
      var load := Step(Empty(accessor), LoadFirstArg);
      assert Emit(load) == [Op(GetMethodLoad1stArgumentCode(accessor))];
      var handler := ConvertIf(cast, load, closedEventHandlerT);
      var unsubscribeAction := Step(LoadMethodOf(accessor, Defined(unsubscribe)), NewObject(OnClosedType(openActionTCtor, closedEventHandlerT)));
      assert Emit(unsubscribeAction) == [ReceiverLoad(accessor), Instruction(Ldftn, MethodOperand(Defined(unsubscribe))),
                                         Marker(NewObject(OnClosedType(openActionTCtor, closedEventHandlerT)))];
      var genericWeakHandler := Step(Join(handler, unsubscribeAction), MakeWeak(closedEventHandlerT));
      assert Emit(genericWeakHandler) == Emit(handler) + Emit(unsubscribeAction) + [Marker(MakeWeak(closedEventHandlerT))];
      var converted := ConvertIf(cast, genericWeakHandler, f.fieldType);
      assert Emit(Step(converted, Store(weakEventHandler))) == Emit(converted) + [Marker(Store(weakEventHandler))];
    }

    /** The instructions the remove accessor's prologue consists of. */
    lemma FindWeakCallCode(accessor: MethodDef, f: FieldRef, weakEventHandler: nat)
      ensures var closedEventHandlerT := GetEquivalentGenericEventHandler(f);
        Emit(WeaveFindWeakCall(accessor, f, weakEventHandler)) ==
          [Marker(LoadField(f)), Op(GetMethodLoad1stArgumentCode(accessor))]
          + ConversionCode(NeedsCast(f), closedEventHandlerT)
          + [Marker(FindWeak(closedEventHandlerT))]
          + ConversionCode(NeedsCast(f), f.fieldType)
          + [Marker(Store(weakEventHandler))]
    {
      var closedEventHandlerT := GetEquivalentGenericEventHandler(f);
      var cast := NeedsCast(f);
      var load := Step(Empty(accessor), LoadFirstArg);
      assert Emit(load) == [Op(GetMethodLoad1stArgumentCode(accessor))];
      var handler := ConvertIf(cast, load, closedEventHandlerT);
      var loadField := Step(Empty(accessor), LoadField(f));
      assert Emit(loadField) == [Marker(LoadField(f))];
      var callFindWeak := Step(Join(loadField, handler), FindWeak(closedEventHandlerT));
      assert Emit(callFindWeak) == Emit(loadField) + Emit(handler) + [Marker(FindWeak(closedEventHandlerT))];
      var converted := ConvertIf(cast, callFindWeak, f.fieldType);
      assert Emit(Step(converted, Store(weakEventHandler))) == Emit(converted) + [Marker(Store(weakEventHandler))];
    }

    /** The instructions of the unsubscribe method's body. */
    lemma UnsubscribeBodyCode(unsubscribe: MethodDef, f: FieldRef)
      ensures Emit(UnsubscribeBody(unsubscribe, f)) ==
          [Marker(LoadField(f)), Op(GetMethodLoad1stArgumentCode(unsubscribe))]
          + ConversionCode(NeedsCast(f), f.fieldType)
          + [Marker(CallDelegateRemove)]
          + ConversionCode(NeedsCast(f), f.fieldType)
          + [Marker(StoreField(f)), Marker(Return)]
    {
      var cast := NeedsCast(f);
      var load := Step(Empty(unsubscribe), LoadFirstArg);
      assert Emit(load) == [Op(GetMethodLoad1stArgumentCode(unsubscribe))];
      var handler := ConvertIf(cast, load, f.fieldType);
      var loadField := Step(Empty(unsubscribe), LoadField(f));
      assert Emit(loadField) == [Marker(LoadField(f))];
      var remove := Step(Join(loadField, handler), CallDelegateRemove);
      assert Emit(remove) == Emit(loadField) + Emit(handler) + [Marker(CallDelegateRemove)];
      var compatible := ConvertIf(cast, remove, f.fieldType);
      var stored := Step(compatible, StoreField(f));
      assert Emit(stored) == Emit(compatible) + [Marker(StoreField(f))];
      assert Emit(Step(stored, Return)) == Emit(stored) + [Marker(Return)];
    }

    /** None of the three generated sequences holds a conversion unless the
        full names differ, and each holds one when they do. */
    lemma ConversionsIffNeedsCast(accessor: MethodDef, f: FieldRef, unsubscribe: MethodDef, weakEventHandler: nat)
      ensures (exists i :: 0 <= i < |Emit(WeaveMakeWeakCall(accessor, f, unsubscribe, weakEventHandler))|
                 && IsConversion(Emit(WeaveMakeWeakCall(accessor, f, unsubscribe, weakEventHandler))[i])) <==> NeedsCast(f)
      ensures (exists i :: 0 <= i < |Emit(WeaveFindWeakCall(accessor, f, weakEventHandler))|
                 && IsConversion(Emit(WeaveFindWeakCall(accessor, f, weakEventHandler))[i])) <==> NeedsCast(f)
      ensures (exists i :: 0 <= i < |Emit(UnsubscribeBody(unsubscribe, f))|
                 && IsConversion(Emit(UnsubscribeBody(unsubscribe, f))[i])) <==> NeedsCast(f)
    {
      MakeWeakCallCode(accessor, f, unsubscribe, weakEventHandler);
      FindWeakCallCode(accessor, f, weakEventHandler);
      UnsubscribeBodyCode(unsubscribe, f);
      var a := Emit(WeaveMakeWeakCall(accessor, f, unsubscribe, weakEventHandler));
      var b := Emit(WeaveFindWeakCall(accessor, f, weakEventHandler));
      var c := Emit(UnsubscribeBody(unsubscribe, f));
      if NeedsCast(f) {
        assert IsConversion(a[1]) && IsConversion(b[2]) && IsConversion(c[2]);
      } else {
        assert forall i :: 0 <= i < |a| ==> !IsConversion(a[i]);
        assert forall i :: 0 <= i < |b| ==> !IsConversion(b[i]);
        assert forall i :: 0 <= i < |c| ==> !IsConversion(c[i]);
      }
    }

    /** The add prologue loads the handler argument exactly once, as its first
        instruction; this is why the forward pass starts past the prologue. */
    lemma MakeWeakLoadsHandlerOnce(accessor: MethodDef, f: FieldRef, unsubscribe: MethodDef, weakEventHandler: nat)
      ensures var p := Emit(WeaveMakeWeakCall(accessor, f, unsubscribe, weakEventHandler));
        forall i :: 0 <= i < |p| ==> (p[i].code == GetMethodLoad1stArgumentCode(accessor) <==> i == 0)
    {
      MakeWeakCallCode(accessor, f, unsubscribe, weakEventHandler);
    }

    /** The body of the add accessor after weaving, from its body before. */
    function WovenAddBody(body: seq<Instruction>, add: MethodDef, f: FieldRef, unsubscribe: MethodDef, weakEventHandler: nat): seq<Instruction>
    {
      var prologue := Emit(WeaveMakeWeakCall(add, f, unsubscribe, weakEventHandler));
      Redirect(prologue + body, |prologue|, GetMethodLoad1stArgumentCode(add), weakEventHandler)
    }

    /** The body of the remove accessor after weaving. The loads replaced are
        chosen by the add accessor's static-ness. */
    function WovenRemoveBody(body: seq<Instruction>, remove: MethodDef, add: MethodDef, f: FieldRef, weakEventHandler: nat): seq<Instruction>
    {
      var prologue := Emit(WeaveFindWeakCall(remove, f, weakEventHandler));
      Redirect(prologue + body, |prologue|, GetMethodLoad1stArgumentCode(add), weakEventHandler)
    }

    /** A woven add accessor: the prologue first and unchanged, the old body
        after it with only its handler loads turned into loads of the new
        local, and no handler load left after the prologue. */
    lemma WovenAddShape(body: seq<Instruction>, add: MethodDef, f: FieldRef, unsubscribe: MethodDef, weakEventHandler: nat)
      ensures var prologue := Emit(WeaveMakeWeakCall(add, f, unsubscribe, weakEventHandler));
        var code := GetMethodLoad1stArgumentCode(add);
        var r := WovenAddBody(body, add, f, unsubscribe, weakEventHandler);
        && |r| == |prologue| + |body|
        && r[..|prologue|] == prologue
        && r[0] == Op(code)
        && (forall k :: 0 <= k < |body| ==> r[|prologue| + k] == (if body[k].code == code then LoadLocal(weakEventHandler) else body[k]))
        && (forall k :: |prologue| <= k < |r| ==> r[k].code != code)
    {
      var prologue := Emit(WeaveMakeWeakCall(add, f, unsubscribe, weakEventHandler));
      SpliceThenRedirect(prologue, body, GetMethodLoad1stArgumentCode(add), weakEventHandler);
      MakeWeakCallCode(add, f, unsubscribe, weakEventHandler);
    }

    /** A woven remove accessor, likewise, with the loads replaced chosen by the add accessor. */
    lemma WovenRemoveShape(body: seq<Instruction>, remove: MethodDef, add: MethodDef, f: FieldRef, weakEventHandler: nat)
      ensures var prologue := Emit(WeaveFindWeakCall(remove, f, weakEventHandler));
        var code := GetMethodLoad1stArgumentCode(add);
        var r := WovenRemoveBody(body, remove, add, f, weakEventHandler);
        && |r| == |prologue| + |body|
        && r[..|prologue|] == prologue
        && (forall k :: 0 <= k < |body| ==> r[|prologue| + k] == (if body[k].code == code then LoadLocal(weakEventHandler) else body[k]))
        && (forall k :: |prologue| <= k < |r| ==> r[k].code != code)
    {
      var prologue := Emit(WeaveFindWeakCall(remove, f, weakEventHandler));
      SpliceThenRedirect(prologue, body, GetMethodLoad1stArgumentCode(add), weakEventHandler);
    }

    /** In a static accessor every load of argument 0 after the prologue is redirected. */
    lemma StaticHandlerLoadsRedirected(body: seq<Instruction>, add: MethodDef, f: FieldRef, unsubscribe: MethodDef, weakEventHandler: nat)
      requires add.IsStatic()
      ensures var prologue := Emit(WeaveMakeWeakCall(add, f, unsubscribe, weakEventHandler));
        var r := WovenAddBody(body, add, f, unsubscribe, weakEventHandler);
        |r| == |prologue| + |body| &&
        forall k :: 0 <= k < |body| && body[k].code == Ldarg0 ==> r[|prologue| + k] == LoadLocal(weakEventHandler)
    {
      WovenAddShape(body, add, f, unsubscribe, weakEventHandler);
    }

    ghost predicate IsUnsubscribeMethodFor(u: MethodDef, ev: EventDef, f: FieldRef)
      reads u
    {
      && u.name == UnsubscribeMethodName(ev.addMethod.name)
      && u.attributes == GetUnsubscribeMethodAttributes(ev)
      && u.returnType == voidType
      && u.parameters == [GetEquivalentGenericEventHandler(f)]
      && u.customAttributes == [compilerGeneratedAttribute]
      && u.variables == []
      && u.instructions == Emit(UnsubscribeBody(u, f))
    }

    /** Builds the unsubscribe method and appends it to the declaring type's methods. */
    method AddUnsubscribeMethodForEvent(ev: EventDef, f: FieldRef) returns (unsubscribe: MethodDef)
      modifies ev.declaringType`methods
      ensures fresh(unsubscribe) && IsUnsubscribeMethodFor(unsubscribe, ev, f)
      ensures ev.declaringType.methods == old(ev.declaringType.methods) + [unsubscribe]
    {
      var closedEventHandlerT := GetEquivalentGenericEventHandler(f);
      var unsubscribeMethodName := UnsubscribeMethodName(ev.addMethod.name);
      unsubscribe := new MethodDef(unsubscribeMethodName, GetUnsubscribeMethodAttributes(ev), voidType);
      unsubscribe.parameters := unsubscribe.parameters + [closedEventHandlerT];
      unsubscribe.customAttributes := unsubscribe.customAttributes + [compilerGeneratedAttribute];
      ev.declaringType.methods := ev.declaringType.methods + [unsubscribe];
      var instructions := UnsubscribeBody(unsubscribe, f);
      var _ := InsertInstructions(unsubscribe, instructions, 0);
    }

    twostate predicate AddAccessorWoven(ev: EventDef, f: FieldRef)
      reads ev.addMethod, ev.declaringType, ev.declaringType.methods
    {
      && ev.addMethod.variables == old(ev.addMethod.variables) + [f.fieldType]
      && |ev.declaringType.methods| == |old(ev.declaringType.methods)| + 1
      && var u := ev.declaringType.methods[|old(ev.declaringType.methods)|];
      && ev.declaringType.methods == old(ev.declaringType.methods) + [u]
      && fresh(u) && IsUnsubscribeMethodFor(u, ev, f)
      && ev.addMethod.instructions == WovenAddBody(old(ev.addMethod.instructions), ev.addMethod, f, u, |old(ev.addMethod.variables)|)
    }

    twostate predicate RemoveAccessorWoven(ev: EventDef, f: FieldRef)
      reads ev.removeMethod
    {
      && ev.removeMethod.variables == old(ev.removeMethod.variables) + [f.fieldType]
      && ev.removeMethod.instructions ==
           WovenRemoveBody(old(ev.removeMethod.instructions), ev.removeMethod, ev.addMethod, f, |old(ev.removeMethod.variables)|)
    }

    method ProcessAddMethod(ev: EventDef, f: FieldRef)
      modifies ev.addMethod`variables, ev.addMethod`instructions, ev.declaringType`methods
      ensures AddAccessorWoven(ev, f)
    {
      var weakEventHandler := CreateVariable(ev.addMethod, f.fieldType);
      var unsubscribe := AddUnsubscribeMethodForEvent(ev, f);
      var makeWeak := WeaveMakeWeakCall(ev.addMethod, f, unsubscribe, weakEventHandler);
      var oldCodeIndex := InsertInstructions(ev.addMethod, makeWeak, 0);
      var instructionToReplace := GetMethodLoad1stArgumentCode(ev.addMethod);
      RedirectArgumentLoads(ev.addMethod, oldCodeIndex, instructionToReplace, weakEventHandler);
    }

    method ProcessRemoveMethod(ev: EventDef, f: FieldRef)
      modifies ev.removeMethod`variables, ev.removeMethod`instructions
      ensures RemoveAccessorWoven(ev, f)
    {
      var weakEventHandler := CreateVariable(ev.removeMethod, f.fieldType);
      var findWeak := WeaveFindWeakCall(ev.removeMethod, f, weakEventHandler);
      var oldCodeIndex := InsertInstructions(ev.removeMethod, findWeak, 0);
      var instructionToReplace := GetMethodLoad1stArgumentCode(ev.addMethod);
      RedirectArgumentLoads(ev.removeMethod, oldCodeIndex, instructionToReplace, weakEventHandler);
    }

    method ProcessEvent(ev: EventDef) returns (outcome: Outcome)
      requires ev.addMethod != ev.removeMethod
      modifies ev.addMethod`variables, ev.addMethod`instructions
      modifies ev.removeMethod`variables, ev.removeMethod`instructions
      modifies ev.declaringType`methods
      ensures ev.eventDelegate.None? ==> outcome == SkippedNoField
      ensures ev.eventDelegate.Some? && !isValidEventDelegate(ev.eventDelegate.value.fieldType) ==> outcome == SkippedIncompatibleType
      ensures ev.eventDelegate.Some? && isValidEventDelegate(ev.eventDelegate.value.fieldType) ==> outcome == Woven
      ensures outcome != Woven ==> unchanged(ev.addMethod, ev.removeMethod, ev.declaringType)
      ensures outcome == Woven ==>
        AddAccessorWoven(ev, ev.eventDelegate.value) && RemoveAccessorWoven(ev, ev.eventDelegate.value)
    {
      match ev.eventDelegate
      case None =>
        outcome := SkippedNoField;
      case Some(eventDelegate) =>
        if isValidEventDelegate(eventDelegate.fieldType) {
          ProcessAddMethod(ev, eventDelegate);
          ProcessRemoveMethod(ev, eventDelegate);
          outcome := Woven;
        } else {
          outcome := SkippedIncompatibleType;
        }
    }
  }
}
