/**
 * Stack maps: the operand kinds a function has at every program counter, and the conditions
 * on a function under which its flat code can be structured. All of them can be checked by
 * one pass over the instructions.
 */
module StackMap {
  import opened Words
  import opened Mir

  type Kinds = seq<Kind>

  /** How many operands an instruction takes off a stack of the given height. */
  function Pops(inst: Inst, height: nat): nat {
    match inst
    case Unary(_) => 1
    case Binary(_) => 2
    case Cast(_) => 1
    case LocalStore(_) => 1
    case Drop => if height == 0 then 0 else 1
    case Assert => 1
    case CallFn(_, argc) => argc
    case JumpIfFalse(_) => 1
    case Return => 1
    case _ => 0
  }

  function ResultKinds(k: Option<Kind>): Kinds {
    match k
    case None => []
    case Some(kind) => [kind]
  }

  function UnaryKind(tok: Token, k: Kind): Option<Kind> {
    if k == KStr then None
    else match tok
      case Add => Some(k)
      case Sub => Some(k)
      case Not => Some(KI32)
      case _ => None
  }

  predicate IsArithmetic(tok: Token) {
    tok in {Add, Sub, Mul, Div, Mod, And} || IsComparison(tok)
  }

  /**
   * Two families are left out because what is emitted for them is wrong: 64-bit order
   * comparisons (`Findings.OrderExact`) and string comparisons (`StringFindings.FramelessComparisonExact`).
   */
  function BinaryKind(tok: Token, a: Kind, b: Kind): Option<Kind> {
    if !IsArithmetic(tok) || a == KStr || b == KStr || (a == KI32 && b == KI64) then None
    else if a == KI64 && tok in {Lt, Gt, Lte, Gte} then None
    else if IsComparison(tok) then Some(KI32)
    else Some(a)
  }

  predicate CanCast(from: Kind, to: Kind) {
    from != KStr && to != KStr
  }

  predicate ArgKindsOk(args: Kinds, params: Kinds) {
    |args| == |params| && forall i :: 0 <= i < |args| ==> Coercible(args[i], params[i])
  }

  /** The operand kinds after an instruction that falls through, from those before it. */
  function KindsAfter(fn: Function, inst: Inst, ks: Kinds): Option<Kinds> {
    var n := |ks|;
    match inst
    case PushInt(bits) => if IsI32(bits) then Some(ks + [KI32]) else None
    case PushBool(_) => Some(ks + [KI32])
    case PushNull => Some(ks + [KI32])
    case PushString(_, _) => Some(ks + [KStr])
    case Unary(tok) =>
      if n < 1 || UnaryKind(tok, ks[n - 1]).None? then None
      else Some(ks[..n - 1] + [UnaryKind(tok, ks[n - 1]).value])
    case Binary(tok) =>
      if n < 2 || BinaryKind(tok, ks[n - 2], ks[n - 1]).None? then None
      else Some(ks[..n - 2] + [BinaryKind(tok, ks[n - 2], ks[n - 1]).value])
    case Cast(k) => if n < 1 || !CanCast(ks[n - 1], k) then None else Some(ks[..n - 1] + [k])
    case LocalLoad(i) => if i >= |fn.localKinds| then None else Some(ks + [fn.localKinds[i]])
    case LocalStore(i) =>
      if i >= |fn.localKinds| || n < 1 || !Coercible(ks[n - 1], fn.localKinds[i]) then None else Some(ks[..n - 1])
    case LocalZero(i) => if i >= |fn.localKinds| then None else Some(ks)
    case Drop => Some(if n < 1 then ks else ks[..n - 1])
    case Assert => if n < 1 || ks[n - 1] != KI32 then None else Some(ks[..n - 1])
    case CallFn(f, argc) =>
      if f >= |fn.sigs| || argc > n || !ArgKindsOk(ks[n - argc..], fn.sigs[f].params) then None
      else Some(ks[..n - argc] + ResultKinds(fn.sigs[f].result))
    case _ => None
  }

  // ---- boolean diamonds ---------------------------------------------------------------

  /** `JUMP_IF_FALSE pc+1; PUSH true; JUMP _` ending at `pc`: the arm that makes an expression true. */
  predicate IsTruthArm(fn: Function, pc: int) {
    2 <= pc < |fn.insts| && fn.insts[pc].Jump? && fn.insts[pc - 1] == PushBool(true)
    && fn.insts[pc - 2] == JumpIfFalse(pc + 1)
  }

  datatype Diamond = Diamond(falseTarget: nat, mergeTarget: nat)

  function OrShape(fn: Function, pc: nat, end: nat): (r: Option<Diamond>)
    requires end <= |fn.insts|
  {
    if pc + 2 < end && fn.insts[pc] == JumpIfFalse(pc + 3) && pc + 3 <= end
       && fn.insts[pc + 1] == PushBool(true) && fn.insts[pc + 2].Jump?
       && pc + 3 < fn.insts[pc + 2].dest <= end
    then Some(Diamond(pc + 3, fn.insts[pc + 2].dest))
    else None
  }

  function AndShape(fn: Function, pc: nat, end: nat): (r: Option<Diamond>)
    requires end <= |fn.insts|
  {
    if pc + 2 < end && fn.insts[pc].JumpIfFalse? then
      var ft := fn.insts[pc].dest;
      if ft != 0 && ft < end && fn.insts[ft] == PushBool(false) && fn.insts[ft - 1] == Jump(ft + 1)
      then Some(Diamond(ft, ft + 1))
      else None
    else None
  }

  /** No jump strictly between `lo` and `hi` leaves (lo, hi]. */
  predicate JumpsClosed(fn: Function, lo: nat, hi: nat) {
    forall j :: lo < j < hi && j < |fn.insts| ==> JumpStays(fn.insts[j], lo, hi)
  }

  predicate JumpStays(inst: Inst, lo: nat, hi: nat) {
    match inst
    case Jump(t) => lo < t <= hi
    case JumpIfFalse(t) => lo < t <= hi
    case _ => true
  }

  predicate DiamondsClosed(fn: Function, pc: nat) {
    && (var d := OrShape(fn, pc, |fn.insts|); d.Some? ==> JumpsClosed(fn, pc, d.value.mergeTarget))
    && (var d := AndShape(fn, pc, |fn.insts|); d.Some? ==> JumpsClosed(fn, pc, d.value.mergeTarget))
  }

  // ---- well-formed functions ----------------------------------------------------------

  /** The operand stack never gets lower than this while the instruction at `j` executes. */
  function Low(fn: Function, k: seq<Kinds>, j: nat): int
    requires |k| == |fn.insts| + 1 && j < |fn.insts|
  {
    |k[j]| - Pops(fn.insts[j], |k[j]|)
  }

  /** No instruction in [from, to) reaches below the lowest `base` operands. */
  predicate StaysAbove(fn: Function, k: seq<Kinds>, from: nat, to: nat, base: nat)
    requires |k| == |fn.insts| + 1
  {
    forall j :: from <= j < to && j < |fn.insts| ==> Low(fn, k, j) >= base
  }

  predicate JumpOk(fn: Function, k: seq<Kinds>, pc: nat, t: nat)
    requires |k| == |fn.insts| + 1 && pc < |fn.insts|
  {
    && t < |fn.insts| && k[t] == k[pc] && !IsTruthArm(fn, t)
    && var after := if IsTruthArm(fn, pc) then k[pc - 1] else k[pc];
       && k[pc + 1] == after
       && (if t > pc then StaysAbove(fn, k, pc + 1, t, |after|) else StaysAbove(fn, k, t, pc, |after|))
  }

  predicate BranchOk(fn: Function, k: seq<Kinds>, pc: nat, t: nat)
    requires |k| == |fn.insts| + 1 && pc < |fn.insts|
  {
    && |k[pc]| > 0 && k[pc][|k[pc]| - 1] == KI32
    && k[pc + 1] == k[pc][..|k[pc]| - 1]
    && t < |fn.insts| && k[t] == k[pc + 1] && !IsTruthArm(fn, t)
    && (t > pc ==> StaysAbove(fn, k, pc + 1, t, |k[pc + 1]|))
  }

  predicate InstOk(fn: Function, k: seq<Kinds>, pc: nat)
    requires |k| == |fn.insts| + 1 && pc < |fn.insts|
  {
    match fn.insts[pc]
    case Jump(t) => JumpOk(fn, k, pc, t)
    case JumpIfFalse(t) => BranchOk(fn, k, pc, t)
    case Return => |k[pc]| == 1 && k[pc + 1] == [] && fn.result.Some? && Coercible(k[pc][0], fn.result.value)
    case ReturnVoid => k[pc + 1] == k[pc]
    case inst => KindsAfter(fn, inst, k[pc]) == Some(k[pc + 1])
  }

  /**
   * `k` is a stack map of `fn`: operand kinds are a function of the program counter and agree
   * across jumps; no instruction inside the span of a jump reaches below the operands that were
   * there when the jump was taken; jumps out of boolean diamonds do not occur.
   */
  predicate WellFormed(fn: Function, k: seq<Kinds>) {
    && |k| == |fn.insts| + 1
    && k[0] == []
    && (forall pc: nat :: pc < |fn.insts| ==> InstOk(fn, k, pc))
    && (forall pc: nat :: pc < |fn.insts| ==> DiamondsClosed(fn, pc))
  }

  lemma InstAt(fn: Function, k: seq<Kinds>, pc: nat)
    requires WellFormed(fn, k) && pc < |fn.insts|
    ensures InstOk(fn, k, pc)
  {
  }
}
