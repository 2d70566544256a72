/**
 The slice of the Mono.Cecil object model that the weaver reads and updates:
 type, field and method references, IL instructions, method and type
 definitions, and events. Method and type definitions are objects whose
 collections the weaver changes in place; everything else is a value.
 */
module Cecil {

  datatype Option<+T> = None | Some(value: T)

  /** A type reference: a named type, or a generic type closed over one argument
      (what `MakeGenericInstanceType` produces). */
  datatype TypeRef =
    | Named(name: string)
    | GenericInstance(open: TypeRef, argument: TypeRef)

  /** Mono.Cecil's full name: a generic instance prints as its open type's full
      name followed by its argument's full name in angle brackets. */
  function FullName(t: TypeRef): string
  {
    match t
    case Named(n) => n
    case GenericInstance(o, a) => FullName(o) + "<" + FullName(a) + ">"
  }

  datatype FieldRef = FieldRef(name: string, fieldType: TypeRef)

  datatype CustomAttribute = CustomAttribute(attributeType: TypeRef)

  /** A method reference used as an operand. Library symbols are opaque names;
      generic closing is kept as a record of what was closed over what. */
  datatype MethodRef =
    | Defined(def: MethodDef)
    | Imported(name: string)
    | ClosedGeneric(open: MethodRef, typeArgument: TypeRef)
    | OnClosedType(open: MethodRef, declaringType: TypeRef)

  /** The opcodes the weaver inspects or emits itself. `Block` marks the code
      contributed by an emitter node whose own instructions are not modelled;
      `Other` is any other opcode of the instruction set. */
  datatype OpCode = Ldarg0 | Ldarg1 | Ldloc | Ldnull | Ldftn | Block | Other(code: nat)

  /** The emitter nodes other than EmitLoadMethod, identified by what they do. */
  datatype Node =
    | LoadFirstArg
    | LoadField(field: FieldRef)
    | StoreField(field: FieldRef)
    | Store(local: nat)
    | DelegateConvert(targetType: TypeRef)
    | NewObject(ctor: MethodRef)
    | Call(target: MethodRef)
    | MakeWeak(handlerType: TypeRef)
    | FindWeak(handlerType: TypeRef)
    | CallDelegateRemove
    | Return

  datatype Operand =
    | NoOperand
    | LocalOperand(index: nat)
    | MethodOperand(target: MethodRef)
    | NodeOperand(node: Node)
    | RawOperand(value: int)

  datatype Instruction = Instruction(code: OpCode, operand: Operand)

  function Op(c: OpCode): Instruction { Instruction(c, NoOperand) }

  /** `Instruction.Create(OpCodes.Ldloc, variable)`, the variable given by its index. */
  function LoadLocal(local: nat): Instruction { Instruction(Ldloc, LocalOperand(local)) }

  /** The code block an unmodelled emitter node contributes. */
  function Marker(n: Node): Instruction { Instruction(Block, NodeOperand(n)) }

  /** Method attribute flags, with the values ECMA-335 (partition II, 23.1.10) gives them. */
  type MethodAttributes = bv16
  const MemberAccessMask: MethodAttributes := 0x0007
  const Private: MethodAttributes := 0x0001
  const Static: MethodAttributes := 0x0010
  const HideBySig: MethodAttributes := 0x0080

  /** The argument slot an opcode loads, if it is one of the short argument loads. */
  function ArgumentSlot(c: OpCode): Option<nat>
  {
    match c
    case Ldarg0 => Some(0)
    case Ldarg1 => Some(1)
    case _ => None
  }

  /** Physical argument slot of a logical parameter: instance methods hold the
      receiver in slot 0. */
  function PhysicalSlot(isStatic: bool, logicalIndex: nat): nat
  {
    if isStatic then logicalIndex else logicalIndex + 1
  }

  class MethodDef {
    const name: string
    const attributes: MethodAttributes
    const returnType: TypeRef
    var parameters: seq<TypeRef>
    var customAttributes: seq<CustomAttribute>
    var variables: seq<TypeRef>
    var instructions: seq<Instruction>

    /** `new MethodDefinition(name, attributes, returnType)`: an empty method. */
    constructor (name: string, attributes: MethodAttributes, returnType: TypeRef)
      ensures this.name == name && this.attributes == attributes && this.returnType == returnType
      ensures parameters == [] && customAttributes == [] && variables == [] && instructions == []
    {
      this.name := name;
      this.attributes := attributes;
      this.returnType := returnType;
      parameters, customAttributes, variables, instructions := [], [], [], [];
    }

    /** As in Cecil, static-ness is read off the attributes. */
    predicate IsStatic()
    {
      attributes & Static != 0
    }
  }

  /** The opcode that loads a method's first real argument. */
  function GetMethodLoad1stArgumentCode(m: MethodDef): (c: OpCode)
    ensures ArgumentSlot(c) == Some(PhysicalSlot(m.IsStatic(), 0))
  {
    if m.IsStatic() then Ldarg0 else Ldarg1
  }

  class TypeDef {
    const fullName: string
    const isInterface: bool
    const events: seq<string>
    const customAttributes: seq<CustomAttribute>
    var methods: seq<MethodDef>

    constructor (fullName: string, isInterface: bool, events: seq<string>, customAttributes: seq<CustomAttribute>)
      ensures this.fullName == fullName && this.isInterface == isInterface
      ensures this.events == events && this.customAttributes == customAttributes
      ensures methods == []
    {
      this.fullName := fullName;
      this.isInterface := isInterface;
      this.events := events;
      this.customAttributes := customAttributes;
      methods := [];
    }
  }

  /** An event with its accessors; `eventDelegate` is what `GetEventDelegate()`
      finds as the backing field, `None` when it finds nothing. */
  datatype EventDef = EventDef(
    name: string,
    declaringType: TypeDef,
    addMethod: MethodDef,
    removeMethod: MethodDef,
    eventDelegate: Option<FieldRef>)
}
