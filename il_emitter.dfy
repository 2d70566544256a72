/**
 Emitter chains. Every emitter node wraps the node that precedes it and, when
 asked, produces the preceding node's instructions followed by its own. The
 chain is an immutable value, so `Emit` is a function of the chain alone: the
 instructions are produced afresh on each call from nothing but the links.
 */
module IlEmit {
  import opened Cecil

  datatype Emitter =
    /** The root of a chain: it emits nothing and names the method being woven. */
    | Empty(root: MethodDef)
    /** `EmitLoadMethod`: loads a method as a function pointer. */
    | EmitLoadMethod(prev: Emitter, targetMethod: MethodRef)
    /** Any other single-purpose node, appending the code of `node`. */
    | Step(prev: Emitter, node: Node)
    /** Two argument chains, left to right. */
    | Join(prev: Emitter, next: Emitter)

  /** The method the instructions are for: each node inherits its predecessor's,
      so every node reports the method of the root its links lead back to
      (`ChainIsLinear`). */
  function Method(e: Emitter): MethodDef
  {
    match e
    case Empty(m) => m
    case EmitLoadMethod(p, _) => Method(p)
    case Step(p, _) => Method(p)
    case Join(p, _) => Method(p)
  }

  /** The code a node other than EmitLoadMethod appends. Loading the first
      argument uses the slot that depends on the method's static-ness; the
      code of the other nodes is a single opaque block. */
  function NodeCode(n: Node, m: MethodDef): seq<Instruction>
  {
    if n.LoadFirstArg? then [Op(GetMethodLoad1stArgumentCode(m))] else [Marker(n)]
  }

  /** The instructions of a whole chain, from the root forward. */
  function Emit(e: Emitter): (r: seq<Instruction>)
    ensures e.Empty? ==> r == []
  {
    match e
    case Empty(_) => []
    case EmitLoadMethod(p, t) =>
      if Method(p).IsStatic() then
        Emit(p) + [Op(Ldnull), Instruction(Ldftn, MethodOperand(t))]
      else
        Emit(p) + [Op(Ldarg0), Instruction(Ldftn, MethodOperand(t))]
    case Step(p, n) => Emit(p) + NodeCode(n, Method(p))
    case Join(p, q) => Emit(p) + Emit(q)
  }

  /** What a node's own `Emit` starts from: its output begins with exactly these instructions. */
  function EmitPreceeding(e: Emitter): (r: seq<Instruction>)
    requires !e.Empty?
    ensures |r| <= |Emit(e)| && Emit(e)[..|r|] == r
  {
    Emit(e.prev)
  }

  /** The nodes of a chain along the predecessor links, root first. */
  function Chain(e: Emitter): seq<Emitter>
  {
    if e.Empty? then [e] else Chain(e.prev) + [e]
  }

  /** Every chain is linear: it starts at a root, each later node's predecessor
      is the node before it, it ends at the node itself, and every node on it
      reports the root's method. */
  lemma {:induction false} ChainIsLinear(e: Emitter)
    ensures |Chain(e)| >= 1
    ensures Chain(e)[0].Empty? && Chain(e)[0].root == Method(e)
    ensures Chain(e)[|Chain(e)| - 1] == e
    ensures forall i :: 0 < i < |Chain(e)| ==> !Chain(e)[i].Empty? && Chain(e)[i].prev == Chain(e)[i - 1]
    ensures forall i :: 0 <= i < |Chain(e)| ==> Method(Chain(e)[i]) == Method(e)
  {
    if !e.Empty? {
      ChainIsLinear(e.prev);
    }
  }

  /** Along a chain, each node's output is a prefix of every later node's. */
  lemma {:induction false} EmitGrowsAlongChain(e: Emitter, i: nat, j: nat)
    requires i <= j < |Chain(e)|
    ensures Emit(Chain(e)[i]) <= Emit(Chain(e)[j])
  {
    if !e.Empty? {
      var c := Chain(e.prev);
      assert Chain(e) == c + [e];
      if j < |c| {
        EmitGrowsAlongChain(e.prev, i, j);
      } else {
        ChainIsLinear(e.prev);
        if i < j {
          EmitGrowsAlongChain(e.prev, i, j - 1);
          assert Chain(e)[j - 1] == e.prev;
        }
      }
    }
  }
}
