/**
 The edits the weaver makes to an existing method body: add a local, splice
 emitted code in at a position, append emitted code at the end, and the
 forward pass that redirects loads of the handler argument to the new local.
 */
module MethodBodies {
  import opened Cecil
  import opened IlEmit

  /** Adds one local of the given type after the existing ones; returns its index. */
  method CreateVariable(m: MethodDef, variableType: TypeRef) returns (v: nat)
    modifies m`variables
    ensures m.variables == old(m.variables) + [variableType]
    ensures v == |old(m.variables)| && m.variables[v] == variableType
  {
    v := |m.variables|;
    m.variables := m.variables + [variableType];
  }

  /** Inserts the chain's instructions one by one, in order, starting at
      `insertPoint`, and returns the index just past them. */
  method InsertInstructions(m: MethodDef, weakHandler: Emitter, insertPoint: nat) returns (next: nat)
    requires insertPoint <= |m.instructions|
    modifies m`instructions
    ensures next == insertPoint + |Emit(weakHandler)|
    ensures m.instructions == old(m.instructions)[..insertPoint] + Emit(weakHandler) + old(m.instructions)[insertPoint..]
  {
    ghost var before := m.instructions[..insertPoint];
    ghost var after := m.instructions[insertPoint..];
    var code := Emit(weakHandler);
    next := insertPoint;
    var j := 0;
    while j < |code|
      invariant 0 <= j <= |code| && next == insertPoint + j
      invariant m.instructions == before + code[..j] + after
    {
      assert m.instructions[..next] == before + code[..j];
      assert m.instructions[next..] == after;
      m.instructions := m.instructions[..next] + [code[j]] + m.instructions[next..];
      assert code[..j + 1] == code[..j] + [code[j]];
      next := next + 1;
      j := j + 1;
    }
    assert code[..j] == code;
  }

  /** `Body.Instructions.Add` for each emitted instruction, in order. */
  method AppendInstructions(m: MethodDef, instructions: Emitter)
    modifies m`instructions
    ensures m.instructions == old(m.instructions) + Emit(instructions)
  {
    ghost var start := m.instructions;
    var code := Emit(instructions);
    var j := 0;
    while j < |code|
      invariant 0 <= j <= |code|
      invariant m.instructions == start + code[..j]
    {
      m.instructions := m.instructions + [code[j]];
      assert code[..j + 1] == code[..j] + [code[j]];
      j := j + 1;
    }
    assert code[..j] == code;
  }

  /** One instruction after redirection: a load of the handler argument becomes
      a load of the new local; anything else is kept. */
  function Redirected(i: Instruction, code: OpCode, local: nat): Instruction
  {
    if i.code == code then LoadLocal(local) else i
  }

  function RedirectAll(s: seq<Instruction>, code: OpCode, local: nat): seq<Instruction>
  {
    if s == [] then [] else [Redirected(s[0], code, local)] + RedirectAll(s[1..], code, local)
  }

  /** A body after the forward pass that starts at index `from`. */
  function Redirect(s: seq<Instruction>, from: nat, code: OpCode, local: nat): seq<Instruction>
  {
    if from >= |s| then s else s[..from] + RedirectAll(s[from..], code, local)
  }

  lemma {:induction false} RedirectAllAt(s: seq<Instruction>, code: OpCode, local: nat)
    ensures |RedirectAll(s, code, local)| == |s|
    ensures forall k :: 0 <= k < |s| ==> RedirectAll(s, code, local)[k] == Redirected(s[k], code, local)
  {
    if s != [] {
      RedirectAllAt(s[1..], code, local);
      var r := RedirectAll(s, code, local);
      assert r == [Redirected(s[0], code, local)] + RedirectAll(s[1..], code, local);
      forall k | 0 <= k < |s|
        ensures r[k] == Redirected(s[k], code, local)
      {
        if k > 0 {
          assert r[k] == RedirectAll(s[1..], code, local)[k - 1];
          assert s[1..][k - 1] == s[k];
        }
      }
    }
  }

  /** The pass keeps the length, keeps everything before `from`, and from
      `from` on changes exactly the instructions whose opcode is `code`. */
  lemma RedirectAt(s: seq<Instruction>, from: nat, code: OpCode, local: nat)
    ensures |Redirect(s, from, code, local)| == |s|
    ensures forall k :: 0 <= k < |s| && k < from ==> Redirect(s, from, code, local)[k] == s[k]
    ensures forall k :: from <= k < |s| ==> Redirect(s, from, code, local)[k] == Redirected(s[k], code, local)
  {
    if from < |s| {
      RedirectAllAt(s[from..], code, local);
      var r := Redirect(s, from, code, local);
      forall k | from <= k < |s|
        ensures r[k] == Redirected(s[k], code, local)
      {
        assert r[k] == RedirectAll(s[from..], code, local)[k - from];
        assert s[from..][k - from] == s[k];
      }
    }
  }

  /** The forward pass of the weaver: every instruction from `from` on whose
      opcode is `code` is replaced by a load of `local`. */
  method RedirectArgumentLoads(m: MethodDef, from: nat, code: OpCode, local: nat)
    modifies m`instructions
    ensures m.instructions == Redirect(old(m.instructions), from, code, local)
  {
    ghost var s := m.instructions;
    var i := from;
    while i < |m.instructions|
      invariant |m.instructions| == |s|
      invariant from <= i
      invariant forall k :: 0 <= k < |s| && (k < from || k >= i) ==> m.instructions[k] == s[k]
      invariant forall k :: from <= k < i && k < |s| ==> m.instructions[k] == Redirected(s[k], code, local)
    {
      if m.instructions[i].code == code {
        m.instructions := m.instructions[i := LoadLocal(local)];
      }
      i := i + 1;
    }
    RedirectAt(s, from, code, local);
    assert m.instructions == Redirect(s, from, code, local);
  }

  /** The shape of a woven accessor: splicing a prologue in at index 0 and
      redirecting from just past it keeps the prologue, grows the body by
      exactly the prologue's length, changes only the matching instructions
      of the old body, and leaves no matching instruction after the prologue. */
  lemma SpliceThenRedirect(prologue: seq<Instruction>, body: seq<Instruction>, code: OpCode, local: nat)
    requires code != Ldloc
    ensures var r := Redirect(prologue + body, |prologue|, code, local);
      && |r| == |prologue| + |body|
      && r[..|prologue|] == prologue
      && (forall k :: 0 <= k < |body| ==> r[|prologue| + k] == (if body[k].code == code then LoadLocal(local) else body[k]))
      && (forall k :: |prologue| <= k < |r| ==> r[k].code != code)
  {
    var s := prologue + body;
    RedirectAt(s, |prologue|, code, local);
    var r := Redirect(s, |prologue|, code, local);
    assert r[..|prologue|] == prologue;
    forall k | 0 <= k < |body|
      ensures r[|prologue| + k] == (if body[k].code == code then LoadLocal(local) else body[k])
    {
      assert s[|prologue| + k] == body[k];
    }
  }

  /** Running the pass a second time changes nothing more. */
  lemma RedirectIdempotent(s: seq<Instruction>, from: nat, code: OpCode, local: nat)
    requires code != Ldloc
    ensures Redirect(Redirect(s, from, code, local), from, code, local) == Redirect(s, from, code, local)
  {
    var r := Redirect(s, from, code, local);
    RedirectAt(s, from, code, local);
    RedirectAt(r, from, code, local);
    assert Redirect(r, from, code, local) == r;
  }
}
