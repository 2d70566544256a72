/**
 `EmitLoadMethod` and its two `LoadMethod` extension overloads: push a method
 as a function pointer, bound to the receiver when the woven method is an
 instance method and unbound (a null target) when it is static.
 */
module StandardIl {
  import opened Cecil
  import opened IlEmit

  /** The receiver pushed before `Ldftn`; it depends on the chain's method, not on the target. */
  function ReceiverLoad(m: MethodDef): Instruction
  {
    if m.IsStatic() then Op(Ldnull) else Op(Ldarg0)
  }

  /** `preceedingCode.LoadMethod(targetMethod)`. */
  function LoadMethod(preceedingCode: Emitter, targetMethod: MethodRef): (e: Emitter)
    ensures Method(e) == Method(preceedingCode)
    ensures Emit(e) == Emit(preceedingCode) + [ReceiverLoad(Method(preceedingCode)), Instruction(Ldftn, MethodOperand(targetMethod))]
    ensures Emit(e)[|Emit(e)| - 1] == Instruction(Ldftn, MethodOperand(targetMethod))
  {
    EmitLoadMethod(preceedingCode, targetMethod)
  }

  /** `method.LoadMethod(targetMethod)`: the same node on a fresh root for the woven method. */
  function LoadMethodOf(woven: MethodDef, targetMethod: MethodRef): (e: Emitter)
    ensures Method(e) == woven
    ensures Emit(e) == [ReceiverLoad(woven), Instruction(Ldftn, MethodOperand(targetMethod))]
  {
    LoadMethod(Empty(woven), targetMethod)
  }

  /** The output of a load is its predecessor's output followed by exactly two
      instructions: `Ldnull` then `Ldftn` for a static chain, `Ldarg0` then
      `Ldftn` for an instance chain. */
  lemma LoadMethodAppendsTwo(preceedingCode: Emitter, targetMethod: MethodRef)
    ensures var out := Emit(LoadMethod(preceedingCode, targetMethod));
      && var n := |Emit(preceedingCode)|;
      && |out| == n + 2
      && out[..n] == Emit(preceedingCode)
      && (Method(preceedingCode).IsStatic() ==> out[n] == Op(Ldnull))
      && (!Method(preceedingCode).IsStatic() ==> out[n] == Op(Ldarg0))
      && out[n + 1] == Instruction(Ldftn, MethodOperand(targetMethod))
  {
  }

  /** Which receiver is loaded does not depend on the target method's own static-ness. */
  lemma ReceiverIgnoresTarget(preceedingCode: Emitter, t1: MethodDef, t2: MethodDef)
    ensures var n := |Emit(preceedingCode)|;
      Emit(LoadMethod(preceedingCode, Defined(t1)))[n] == Emit(LoadMethod(preceedingCode, Defined(t2)))[n]
  {
  }
}
