/**
 * The x86-32 assembly ops the IL-op emitters append to a method's output,
 * as abstract values, and a small interpreter for the fragment of their
 * behaviour the `stelem` emitter relies on: dword stack slots, dword and byte
 * loads, signed and zero flags, forward jumps to labels, calls to the
 * exception throwers (which never return) and stores to memory.
 */
module X86 {
  import opened Words

  /** The registers the emitter names: the four general-purpose dword registers, ESP and the low parts of EAX and ECX. */
  datatype Reg = EAX | EBX | ECX | EDX | ESP | AL | CX | CL

  datatype OperandSize = Byte | Word | Dword

  /** `"EAX"`, `"0"`, `"[ESP+8]"`, `"[EAX]"` and the like. */
  datatype Operand =
    | Reg(r: Reg)
    | Imm(value: int)
    | Mem(base: Reg, disp: int)

  datatype JmpOp = Jump | JumpZero | JumpNotZero | JumpGreaterThanEqual | JumpLessThan

  /** The exception-throwing routines the emitter calls by method id. */
  datatype Callee = ThrowNullReferenceException | ThrowIndexOutOfRangeException

  /** A label is named by the IL position of the op that emitted it and an extension. */
  datatype LabelId = LabelId(ilPosition: int, extension: string)

  datatype ASMOp =
    | Mov(size: OperandSize, src: Operand, dest: Operand)
    | Cmp(arg1: Reg, arg2: Operand)
    | Test(arg1: Reg, arg2: Operand)
    | Jmp(kind: JmpOp, target: LabelId)
    | Call(callee: Callee)
    | Label(id: LabelId)
    | Push(size: OperandSize, src: Operand)
    | Pop(size: OperandSize, dest: Operand)
    | Mul(arg: Reg)
    | Add(src: Operand, dest: Operand)
    | PageFaultDetection(reg: Reg, offset: int)  // the marker `InsertPageFaultDetection` emits

  /** A write to memory: `width` bytes of `value` at `address`. */
  datatype Store = Store(address: int, width: nat, value: int)

  /**
   * The state the emitted code works on. `stack` lists the dword slots from
   * the top (`[ESP]`) down; `zero` and `less` are ZF and the signed-less
   * condition SF != OF; `stores` lists the writes to memory in order.
   */
  datatype Machine = Machine(
    eax: int, ebx: int, ecx: int, edx: int,
    stack: seq<int>,
    zero: bool, less: bool,
    stores: seq<Store>)

  /** What running code ends in: falling off its end, a call into an exception thrower, or an op outside the modelled fragment. */
  datatype Outcome =
    | Halted(m: Machine)
    | Threw(callee: Callee, m: Machine)
    | Faulted

  /**
   * The memory the emitted code reads (it only writes through `stores`):
   * the dword at each address it holds; an address it does not hold reads as 0.
   */
  type Memory = map<int, int>

  /** The dword at `address`. */
  function ReadDword(mem: Memory, address: int): (r: int)
    ensures 0 <= r < TWO32
  {
    var a := Wrap(address);
    if a in mem then Wrap(mem[a]) else 0
  }

  /** The byte at `address`: the low byte of the little-endian dword there. */
  function ReadByte(mem: Memory, address: int): (r: int)
    ensures 0 <= r < 256
  {
    ReadDword(mem, address) % 256
  }

  predicate IsDwordReg(r: Reg)
  {
    r == EAX || r == EBX || r == ECX || r == EDX
  }

  function Get(m: Machine, r: Reg): int
    requires IsDwordReg(r)
  {
    match r
    case EAX => m.eax
    case EBX => m.ebx
    case ECX => m.ecx
    case EDX => m.edx
  }

  function SetReg(m: Machine, r: Reg, v: int): (m': Machine)
    requires IsDwordReg(r)
    ensures Get(m', r) == v && m'.stack == m.stack && m'.stores == m.stores
    ensures forall q :: IsDwordReg(q) && q != r ==> Get(m', q) == Get(m, q)
  {
    match r
    case EAX => m.(eax := v)
    case EBX => m.(ebx := v)
    case ECX => m.(ecx := v)
    case EDX => m.(edx := v)
  }

  function Width(size: OperandSize): nat
  {
    match size
    case Byte => 1
    case Word => 2
    case Dword => 4
  }

  /** 2 to the power of 8 * `width`: the number of values `width` bytes hold. */
  function ByteRange(width: nat): (r: nat)
    ensures r > 0
  {
    if width == 0 then 1 else 256 * ByteRange(width - 1)
  }

  /** The value a register operand of the given size supplies to a store. */
  function StoreSource(m: Machine, size: OperandSize, r: Reg): Option<int>
  {
    match (size, r)
    case (Dword, ECX) => Some(m.ecx)
    case (Dword, EDX) => Some(m.edx)
    case (Dword, EAX) => Some(m.eax)
    case (Dword, EBX) => Some(m.ebx)
    case (Word, CX) => Some(m.ecx % 65536)
    case (Byte, CL) => Some(m.ecx % 256)
    case (Byte, AL) => Some(m.eax % 256)
    case _ => None
  }

  /** `mov`: loads from a stack slot or from memory, byte loads into AL, and stores through EAX. */
  function StepMov(size: OperandSize, src: Operand, dest: Operand, m: Machine, mem: Memory): Option<Machine>
  {
    match (src, dest)
    case (Mem(ESP, d), Reg(r)) =>
      if size == Dword && IsDwordReg(r) && d >= 0 && d % 4 == 0 && d / 4 < |m.stack|
      then Some(SetReg(m, r, m.stack[d / 4])) else None
    case (Mem(b, d), Reg(r)) =>
      if size == Dword && IsDwordReg(b) && IsDwordReg(r) then Some(SetReg(m, r, ReadDword(mem, Get(m, b) + d)))
      else if size == Byte && IsDwordReg(b) && r == AL then
        Some(m.(eax := m.eax - m.eax % 256 + ReadByte(mem, Get(m, b) + d)))
      else None
    case (Reg(r), Mem(EAX, d)) =>
      (match StoreSource(m, size, r)
       case None => None
       case Some(v) =>
         var w := Width(size);
         Some(m.(stores := m.stores + [Store(Wrap(m.eax + d), w, v % ByteRange(w))])))
    case _ => None
  }

  /** One op other than a jump or a call; `None` for an op outside the modelled fragment. */
  function Step(op: ASMOp, m: Machine, mem: Memory): Option<Machine>
  {
    match op
    case Mov(size, src, dest) => StepMov(size, src, dest, m, mem)
    case Cmp(a, b) =>
      if !IsDwordReg(a) then None
      else
        var x := Get(m, a);
        var y := (match b case Imm(v) => Some(v) case Reg(q) => if IsDwordReg(q) then Some(Get(m, q)) else None case Mem(_, _) => None);
        if y.None? then None
        else Some(m.(zero := Wrap(x) == Wrap(y.value), less := Signed(x) < Signed(y.value)))
    case Test(a, b) =>
      if IsDwordReg(a) && b == Imm(1) then Some(m.(zero := Wrap(Get(m, a)) % 2 == 0, less := false)) else None
    case Push(size, src) =>
      if size == Dword && src.Reg? && IsDwordReg(src.r) then Some(m.(stack := [Get(m, src.r)] + m.stack)) else None
    case Pop(size, dest) =>
      if size == Dword && dest.Reg? && IsDwordReg(dest.r) && |m.stack| > 0
      then Some(SetReg(m.(stack := m.stack[1..]), dest.r, m.stack[0])) else None
    case Mul(r) =>
      if IsDwordReg(r) then
        var p := Wrap(m.eax) * Wrap(Get(m, r));
        Some(m.(eax := p % TWO32, edx := p / TWO32))
      else None
    case Add(src, dest) =>
      if !(dest.Reg? && IsDwordReg(dest.r)) then None
      else var r := dest.r; (match src
        case Imm(v) => Some(SetReg(m, r, Wrap(Get(m, r) + v)))
        case Reg(q) => if IsDwordReg(q) then Some(SetReg(m, r, Wrap(Get(m, r) + Get(m, q)))) else None
        case Mem(_, _) => None)
    case PageFaultDetection(_, _) => Some(m)
    case Label(_) => Some(m)
    case Jmp(_, _) => None
    case Call(_) => None
  }

  /** Whether a conditional jump is taken on the current flags. */
  predicate Taken(kind: JmpOp, m: Machine)
  {
    match kind
    case Jump => true
    case JumpZero => m.zero
    case JumpNotZero => !m.zero
    case JumpGreaterThanEqual => !m.less
    case JumpLessThan => m.less
  }

  /** The first position at or after `from` that holds label `l`. */
  function FindLabel(code: seq<ASMOp>, from: nat, l: LabelId): (r: Option<nat>)
    ensures r.Some? ==> from <= r.value < |code| && code[r.value] == Label(l)
    ensures r.Some? ==> forall k :: from <= k < r.value ==> code[k] != Label(l)
    ensures r.None? ==> forall k :: from <= k < |code| ==> code[k] != Label(l)
    decreases |code| - from
  {
    if from >= |code| then None
    else if code[from] == Label(l) then Some(from)
    else FindLabel(code, from + 1, l)
  }

  /**
   * Running `code` from position `pc`: it halts past the end, else it
   * executes the op at `pc`.
   */
  function Run(code: seq<ASMOp>, pc: nat, m: Machine, mem: Memory): Outcome
    decreases |code| - pc, 1
  {
    if pc >= |code| then Halted(m) else Exec(code, pc, m, mem)
  }

  /**
   * Executing the op at `pc` and running on from where it leads. Every jump
   * the emitters produce is forward, so a label is looked up after the jump.
   */
  function Exec(code: seq<ASMOp>, pc: nat, m: Machine, mem: Memory): Outcome
    requires pc < |code|
    decreases |code| - pc, 0
  {
    match code[pc]
      case Jmp(kind, l) =>
        if !Taken(kind, m) then Run(code, pc + 1, m, mem)
        else (match FindLabel(code, pc + 1, l)
          case None => Faulted
          case Some(j) => Run(code, j, m, mem))
      case Call(callee) => Threw(callee, m)
      case _ =>
        match Step(code[pc], m, mem)
        case None => Faulted
        case Some(m') => Run(code, pc + 1, m', mem)
  }

  /** Every jump of `code` finds its label further on in `code`. */
  ghost predicate Closed(code: seq<ASMOp>)
  {
    forall i :: 0 <= i < |code| && code[i].Jmp? ==> FindLabel(code, i + 1, code[i].target).Some?
  }

  /** Running `rest` after `o` if `o` fell off the end of the first piece of code. */
  function Then(o: Outcome, rest: seq<ASMOp>, mem: Memory): Outcome
  {
    if o.Halted? then Run(rest, 0, o.m, mem) else o
  }

  /** An op other than a jump or a call steps to the next position. */
  lemma RunStep(code: seq<ASMOp>, pc: nat, m: Machine, mem: Memory)
    requires pc < |code| && !code[pc].Jmp? && !code[pc].Call? && Step(code[pc], m, mem).Some?
    ensures Run(code, pc, m, mem) == Run(code, pc + 1, Step(code[pc], m, mem).value, mem)
  {
  }

  /** A taken jump continues at its label. */
  lemma RunJump(code: seq<ASMOp>, pc: nat, m: Machine, mem: Memory, j: nat)
    requires pc < |code| && code[pc].Jmp? && Taken(code[pc].kind, m)
    requires FindLabel(code, pc + 1, code[pc].target) == Some(j)
    ensures Run(code, pc, m, mem) == Run(code, j, m, mem)
  {
  }

  /** A jump not taken falls through. */
  lemma RunFall(code: seq<ASMOp>, pc: nat, m: Machine, mem: Memory)
    requires pc < |code| && code[pc].Jmp? && !Taken(code[pc].kind, m)
    ensures Run(code, pc, m, mem) == Run(code, pc + 1, m, mem)
  {
  }

  /** The page-fault marker followed by a dword load from a stack slot. */
  lemma CheckedStackLoad(code: seq<ASMOp>, pc: nat, d: int, r: Reg, m: Machine, mem: Memory)
    requires pc + 1 < |code| && code[pc].PageFaultDetection? && code[pc + 1] == Mov(Dword, Mem(ESP, d), Reg(r))
    requires IsDwordReg(r) && d >= 0 && d % 4 == 0 && d / 4 < |m.stack|
    ensures Run(code, pc, m, mem) == Run(code, pc + 2, SetReg(m, r, m.stack[d / 4]), mem)
  {
    RunStep(code, pc, m, mem);
    RunStep(code, pc + 1, m, mem);
  }

  /** The page-fault marker followed by a dword load through a register. */
  lemma CheckedLoad(code: seq<ASMOp>, pc: nat, b: Reg, d: int, r: Reg, m: Machine, mem: Memory)
    requires pc + 1 < |code| && code[pc].PageFaultDetection? && code[pc + 1] == Mov(Dword, Mem(b, d), Reg(r))
    requires IsDwordReg(b) && IsDwordReg(r)
    ensures Run(code, pc, m, mem) == Run(code, pc + 2, SetReg(m, r, ReadDword(mem, Get(m, b) + d)), mem)
  {
    RunStep(code, pc, m, mem);
    RunStep(code, pc + 1, m, mem);
  }

  /** A label found in `a` is found at the same place in `a + b`. */
  lemma FindLabelPrefix(a: seq<ASMOp>, b: seq<ASMOp>, from: nat, l: LabelId)
    requires FindLabel(a, from, l).Some?
    ensures FindLabel(a + b, from, l) == FindLabel(a, from, l)
  {
    var j := FindLabel(a, from, l).value;
    assert (a + b)[j] == Label(l);
    assert forall k :: from <= k < j ==> (a + b)[k] == a[k];
  }

  /** Past the end of `a`, the labels of `a + b` are those of `b`, shifted by |a|. */
  lemma FindLabelShift(a: seq<ASMOp>, b: seq<ASMOp>, k: nat, l: LabelId)
    ensures FindLabel(a + b, |a| + k, l) ==
            (match FindLabel(b, k, l) case None => None case Some(j) => Some(|a| + j))
  {
    assert forall i :: 0 <= i < |b| ==> (a + b)[|a| + i] == b[i];
  }

  /** Past the end of `a`, `a + b` runs as `b` does. */
  lemma {:induction false} RunShift(a: seq<ASMOp>, b: seq<ASMOp>, k: nat, m: Machine, mem: Memory)
    ensures Run(a + b, |a| + k, m, mem) == Run(b, k, m, mem)
    decreases |b| - k
  {
    if k < |b| {
      assert (a + b)[|a| + k] == b[k];
      if b[k].Jmp? {
        var l := b[k].target;
        if Taken(b[k].kind, m) {
          FindLabelShift(a, b, k + 1, l);
          if FindLabel(b, k + 1, l).Some? {
            RunShift(a, b, FindLabel(b, k + 1, l).value, m, mem);
          }
        } else {
          RunShift(a, b, k + 1, m, mem);
        }
      } else if !b[k].Call? && Step(b[k], m, mem).Some? {
        RunShift(a, b, k + 1, Step(b[k], m, mem).value, mem);
      }
    }
  }

  /** Code whose jumps stay inside it composes: `a + b` runs `a`, then `b` if `a` fell off its end. */
  lemma {:induction false} RunAppend(a: seq<ASMOp>, b: seq<ASMOp>, pc: nat, m: Machine, mem: Memory)
    requires Closed(a) && pc <= |a|
    ensures Run(a + b, pc, m, mem) == Then(Run(a, pc, m, mem), b, mem)
    decreases |a| - pc
  {
    if pc == |a| {
      RunShift(a, b, 0, m, mem);
    } else {
      assert (a + b)[pc] == a[pc];
      if a[pc].Jmp? {
        var l := a[pc].target;
        if Taken(a[pc].kind, m) {
          FindLabelPrefix(a, b, pc + 1, l);
          RunAppend(a, b, FindLabel(a, pc + 1, l).value, m, mem);
        } else {
          RunAppend(a, b, pc + 1, m, mem);
        }
      } else if !a[pc].Call? && Step(a[pc], m, mem).Some? {
        RunAppend(a, b, pc + 1, Step(a[pc], m, mem).value, mem);
      }
    }
  }
}
