/**
 * What the code `Stelem.Convert` emits does when it runs: which exception it
 * throws, and otherwise which single store it makes and what it leaves on
 * the machine stack. Each emitted fragment is described by the ops at its
 * positions (its "shape"), run on its own, and the pieces are joined with
 * `RunAppend`.
 */
module StelemSemantics {
  import opened Words
  import opened X86
  import opened Stelem

  /** The `length` field of the array object at `arr`. */
  function ArrayLength(mem: Memory, arr: int, arrayInfo: ArrayTypeInfo): int
  {
    ReadDword(mem, arr + arrayInfo.lengthOffset)
  }

  /**
   * The element size the emitted code reads from the array's element type:
   * `Size` when the low bit of its `IsValueType` byte is set, else `StackSize`.
   */
  function ElementSize(mem: Memory, arr: int, arrayInfo: ArrayTypeInfo, offsets: TypeFieldOffsets): (r: int)
    ensures 0 <= r < TWO32
  {
    var elemType := ReadDword(mem, arr + arrayInfo.elemTypeOffset);
    if ReadByte(mem, elemType + offsets.IsValueType) % 2 == 1
    then ReadDword(mem, elemType + offsets.Size)
    else ReadDword(mem, elemType + offsets.StackSize)
  }

  /** The signed index is negative or not below the signed length. */
  predicate OutOfRange(index: int, length: int)
  {
    Signed(index) < 0 || Signed(index) >= Signed(length)
  }

  /** Where element `index` of the array at `arr` lives, past the array's own fields. */
  function ElementAddress(arr: int, allFieldsOffset: int, index: int, size: int): int
  {
    Wrap(arr + allFieldsOffset + index * size)
  }

  /** The high dword of the 64-bit product of two words: what `mul` leaves in EDX. */
  function MulHigh(a: int, b: int): int
  {
    ((a * b) / TWO32) % TWO32
  }

  predicate IsWord(x: int)
  {
    0 <= x < TWO32
  }

  /** A store of `w` bytes keeps the low `8 * w` bits of the value. */
  lemma ByteRanges()
    ensures ByteRange(1) == 256 && ByteRange(2) == 65536 && ByteRange(4) == TWO32
  {
    assert ByteRange(3) == 256 * 65536;
  }

  /** Loading a byte into AL keeps the word in range and puts the byte's low bit at bit 0. */
  lemma ByteLoadLowBit(t: int, b: int)
    requires IsWord(t) && 0 <= b < 256
    ensures IsWord(t - t % 256 + b)
    ensures Wrap(t - t % 256 + b) % 2 == b % 2
  {
    var q := t / 256;
    assert t - t % 256 + b == 256 * q + b;
    assert 0 <= q < 0x100_0000;
    assert 0 <= 256 * q + b < TWO32;
    WrapWord(256 * q + b);
    assert 256 * q + b == 2 * (128 * q) + b;
  }

  // -------------------------------------------------------------------
  // Shapes of the fragments, as the ops at each position

  ghost predicate NullCheckShape(code: seq<ASMOp>, d: int, l: LabelId)
  {
    && |code| == 6
    && code[0].PageFaultDetection?
    && code[1] == Mov(Dword, Mem(ESP, d), Reg(EAX))
    && code[2] == Cmp(EAX, Imm(0))
    && code[3] == Jmp(JumpNotZero, l)
    && code[4] == Call(ThrowNullReferenceException)
    && code[5] == Label(l)
  }

  ghost predicate IndexCheckShape(code: seq<ASMOp>, di: int, da: int, arrayInfo: ArrayTypeInfo, l1: LabelId, l2: LabelId)
  {
    && |code| == 14
    && code[0].PageFaultDetection?
    && code[1] == Mov(Dword, Mem(ESP, di), Reg(EAX))
    && code[2].PageFaultDetection?
    && code[3] == Mov(Dword, Mem(ESP, da), Reg(EBX))
    && code[4].PageFaultDetection?
    && code[5] == Mov(Dword, Mem(EBX, arrayInfo.lengthOffset), Reg(EBX))
    && code[6] == Cmp(EAX, Imm(0))
    && code[7] == Jmp(JumpGreaterThanEqual, l1)
    && code[8] == Call(ThrowIndexOutOfRangeException)
    && code[9] == Label(l1)
    && code[10] == Cmp(EAX, Reg(EBX))
    && code[11] == Jmp(JumpLessThan, l2)
    && code[12] == Call(ThrowIndexOutOfRangeException)
    && code[13] == Label(l2)
  }

  ghost predicate ValuePopShape(code: seq<ASMOp>, w: nat)
  {
    if w == 8 then
      |code| == 3 && code[0] == Pop(Dword, Reg(ECX)) && code[1] == Pop(Dword, Reg(EDX)) && code[2] == Pop(Dword, Reg(EBX))
    else
      |code| == 2 && code[0] == Pop(Dword, Reg(ECX)) && code[1] == Pop(Dword, Reg(EBX))
  }

  ghost predicate ElementSizeShape(code: seq<ASMOp>, arrayInfo: ArrayTypeInfo, offsets: TypeFieldOffsets, l1: LabelId, l2: LabelId)
  {
    && |code| == 18
    && l1 != l2
    && code[0].PageFaultDetection?
    && code[1] == Mov(Dword, Mem(ESP, 0), Reg(EAX))
    && code[2].PageFaultDetection?
    && code[3] == Mov(Dword, Mem(EAX, arrayInfo.elemTypeOffset), Reg(EAX))
    && code[4] == Push(Dword, Reg(EAX))
    && code[5].PageFaultDetection?
    && code[6] == Mov(Byte, Mem(EAX, offsets.IsValueType), Reg(AL))
    && code[7] == Test(EAX, Imm(1))
    && code[8] == Jmp(JumpZero, l1)
    && code[9] == Pop(Dword, Reg(EAX))
    && code[10].PageFaultDetection?
    && code[11] == Mov(Dword, Mem(EAX, offsets.Size), Reg(EAX))
    && code[12] == Jmp(Jump, l2)
    && code[13] == Label(l1)
    && code[14] == Pop(Dword, Reg(EAX))
    && code[15].PageFaultDetection?
    && code[16] == Mov(Dword, Mem(EAX, offsets.StackSize), Reg(EAX))
    && code[17] == Label(l2)
  }

  lemma NullCheckCodeShape(w: nat, pos: int)
    ensures NullCheckShape(NullCheckCode(w, pos), ArrayRefDisp(w), Continue(pos, "Continue1"))
  {
  }

  lemma IndexCheckCodeShape(w: nat, pos: int, arrayInfo: ArrayTypeInfo)
    ensures IndexCheckShape(IndexCheckCode(w, pos, arrayInfo), IndexDisp(w), ArrayRefDisp(w), arrayInfo, Continue(pos, "Continue3_1"), Continue(pos, "Continue3_2"))
  {
  }

  lemma ValuePopCodeShape(w: nat)
    ensures ValuePopShape(ValuePopCode(w), w)
  {
  }

  lemma ElementSizeCodeShape(pos: int, arrayInfo: ArrayTypeInfo, offsets: TypeFieldOffsets)
    ensures ElementSizeShape(ElementSizeCode(pos, arrayInfo, offsets), arrayInfo, offsets, Continue(pos, "Continue4_1"), Continue(pos, "Continue4_2"))
  {
    assert "Continue4_1"[10] != "Continue4_2"[10];
  }

  // -------------------------------------------------------------------
  // Running each fragment

  /** Loading the array reference into EAX and comparing it with 0. */
  lemma NullLoadCompareRun(code: seq<ASMOp>, d: int, m: Machine, mem: Memory)
    requires |code| >= 3 && code[0].PageFaultDetection? && code[1] == Mov(Dword, Mem(ESP, d), Reg(EAX))
    requires code[2] == Cmp(EAX, Imm(0))
    requires d >= 0 && d % 4 == 0 && d / 4 < |m.stack|
    ensures var arr := m.stack[d / 4];
            Run(code, 0, m, mem) == Run(code, 3, m.(eax := arr, zero := Wrap(arr) == 0, less := Signed(arr) < 0), mem)
  {
    CheckedStackLoad(code, 0, d, EAX, m, mem);
    RunStep(code, 2, m.(eax := m.stack[d / 4]), mem);
  }

  lemma NullCheckClosed(code: seq<ASMOp>, d: int, l: LabelId)
    requires NullCheckShape(code, d, l)
    ensures Closed(code)
  {
    assert FindLabel(code, 4, l) == Some(5);
  }

  /** The null check throws exactly when the array reference is 0, and otherwise changes neither the stack nor memory. */
  lemma NullCheckRun(code: seq<ASMOp>, d: int, l: LabelId, m: Machine, mem: Memory)
    requires NullCheckShape(code, d, l)
    requires d >= 0 && d % 4 == 0 && d / 4 < |m.stack| && IsWord(m.stack[d / 4])
    ensures var arr := m.stack[d / 4];
            var o := Run(code, 0, m, mem);
            && (arr == 0 ==> o.Threw? && o.callee == ThrowNullReferenceException && o.m.stores == m.stores)
            && (arr != 0 ==> o.Halted? && o.m.stack == m.stack && o.m.stores == m.stores)
  {
    var arr := m.stack[d / 4];
    var m3 := m.(eax := arr, zero := Wrap(arr) == 0, less := Signed(arr) < 0);
    NullLoadCompareRun(code, d, m, mem);
    if arr != 0 {
      assert FindLabel(code, 4, l) == Some(5);
      RunJump(code, 3, m3, mem, 5);
      RunStep(code, 5, m3, mem);
    } else {
      RunFall(code, 3, m3, mem);
    }
  }

  /** The range check's loads: the index into EAX and the array's length into EBX. */
  lemma IndexLoadRun(code: seq<ASMOp>, di: int, da: int, arrayInfo: ArrayTypeInfo, m: Machine, mem: Memory)
    requires |code| >= 6
    requires code[0].PageFaultDetection? && code[1] == Mov(Dword, Mem(ESP, di), Reg(EAX))
    requires code[2].PageFaultDetection? && code[3] == Mov(Dword, Mem(ESP, da), Reg(EBX))
    requires code[4].PageFaultDetection? && code[5] == Mov(Dword, Mem(EBX, arrayInfo.lengthOffset), Reg(EBX))
    requires di >= 0 && di % 4 == 0 && di / 4 < |m.stack|
    requires da >= 0 && da % 4 == 0 && da / 4 < |m.stack|
    ensures Run(code, 0, m, mem) ==
            Run(code, 6, m.(eax := m.stack[di / 4], ebx := ArrayLength(mem, m.stack[da / 4], arrayInfo)), mem)
  {
    CheckedStackLoad(code, 0, di, EAX, m, mem);
    CheckedStackLoad(code, 2, da, EBX, m.(eax := m.stack[di / 4]), mem);
    CheckedLoad(code, 4, EBX, arrayInfo.lengthOffset, EBX, m.(eax := m.stack[di / 4], ebx := m.stack[da / 4]), mem);
  }

  /** The signed comparison of the index with 0: a negative index throws. */
  lemma IndexLowerRun(code: seq<ASMOp>, l1: LabelId, m: Machine, mem: Memory)
    requires |code| >= 10
    requires code[6] == Cmp(EAX, Imm(0)) && code[7] == Jmp(JumpGreaterThanEqual, l1)
    requires code[8] == Call(ThrowIndexOutOfRangeException) && code[9] == Label(l1)
    ensures var m7 := m.(zero := Wrap(m.eax) == 0, less := Signed(m.eax) < 0);
            Run(code, 6, m, mem) ==
            if Signed(m.eax) < 0 then Threw(ThrowIndexOutOfRangeException, m7) else Run(code, 10, m7, mem)
  {
    var m7 := m.(zero := Wrap(m.eax) == 0, less := Signed(m.eax) < 0);
    RunStep(code, 6, m, mem);
    if Signed(m.eax) < 0 {
      RunFall(code, 7, m7, mem);
    } else {
      assert FindLabel(code, 8, l1) == Some(9);
      RunJump(code, 7, m7, mem, 9);
      RunStep(code, 9, m7, mem);
    }
  }

  /** The signed comparison of the index with the length: an index not below it throws. */
  lemma IndexUpperRun(code: seq<ASMOp>, l2: LabelId, m: Machine, mem: Memory)
    requires |code| == 14
    requires code[10] == Cmp(EAX, Reg(EBX)) && code[11] == Jmp(JumpLessThan, l2)
    requires code[12] == Call(ThrowIndexOutOfRangeException) && code[13] == Label(l2)
    ensures var m11 := m.(zero := Wrap(m.eax) == Wrap(m.ebx), less := Signed(m.eax) < Signed(m.ebx));
            Run(code, 10, m, mem) ==
            if Signed(m.eax) < Signed(m.ebx) then Halted(m11) else Threw(ThrowIndexOutOfRangeException, m11)
  {
    var m11 := m.(zero := Wrap(m.eax) == Wrap(m.ebx), less := Signed(m.eax) < Signed(m.ebx));
    RunStep(code, 10, m, mem);
    if Signed(m.eax) < Signed(m.ebx) {
      assert FindLabel(code, 12, l2) == Some(13);
      RunJump(code, 11, m11, mem, 13);
      RunStep(code, 13, m11, mem);
    } else {
      RunFall(code, 11, m11, mem);
    }
  }

  lemma IndexCheckClosed(code: seq<ASMOp>, di: int, da: int, arrayInfo: ArrayTypeInfo, l1: LabelId, l2: LabelId)
    requires IndexCheckShape(code, di, da, arrayInfo, l1, l2)
    ensures Closed(code)
  {
    assert FindLabel(code, 8, l1) == Some(9);
    assert FindLabel(code, 12, l2) == Some(13);
  }

  /** The range check throws exactly when the signed index is negative or not below the signed length. */
  lemma IndexCheckRun(code: seq<ASMOp>, di: int, da: int, arrayInfo: ArrayTypeInfo, l1: LabelId, l2: LabelId, m: Machine, mem: Memory)
    requires IndexCheckShape(code, di, da, arrayInfo, l1, l2)
    requires di >= 0 && di % 4 == 0 && di / 4 < |m.stack|
    requires da >= 0 && da % 4 == 0 && da / 4 < |m.stack|
    ensures var index, arr := m.stack[di / 4], m.stack[da / 4];
            var o := Run(code, 0, m, mem);
            && (OutOfRange(index, ArrayLength(mem, arr, arrayInfo)) ==>
                  o.Threw? && o.callee == ThrowIndexOutOfRangeException && o.m.stores == m.stores)
            && (!OutOfRange(index, ArrayLength(mem, arr, arrayInfo)) ==>
                  o.Halted? && o.m.stack == m.stack && o.m.stores == m.stores)
  {
    var m6 := m.(eax := m.stack[di / 4], ebx := ArrayLength(mem, m.stack[da / 4], arrayInfo));
    IndexLoadRun(code, di, da, arrayInfo, m, mem);
    IndexLowerRun(code, l1, m6, mem);
    IndexUpperRun(code, l2, m6.(zero := Wrap(m6.eax) == 0, less := Signed(m6.eax) < 0), mem);
  }

  /** Popping the value (one or two dwords) into ECX (and EDX), then the index into EBX. */
  lemma ValuePopRun(code: seq<ASMOp>, w: nat, m: Machine, mem: Memory)
    requires ValuePopShape(code, w)
    requires |m.stack| >= (if w == 8 then 4 else 3)
    ensures Closed(code)
    ensures var k := if w == 8 then 1 else 0;
            Run(code, 0, m, mem) ==
            Halted(m.(ecx := m.stack[0], edx := if w == 8 then m.stack[1] else m.edx,
                      ebx := m.stack[1 + k], stack := m.stack[2 + k..]))
  {
    var m1 := m.(stack := m.stack[1..], ecx := m.stack[0]);
    RunStep(code, 0, m, mem);
    if w == 8 {
      var m2 := m1.(stack := m.stack[2..], edx := m.stack[1]);
      RunStep(code, 1, m1, mem);
      RunStep(code, 2, m2, mem);
      assert m2.stack[1..] == m.stack[3..];
    } else {
      RunStep(code, 1, m1, mem);
      assert m1.stack[1..] == m.stack[2..];
    }
  }

  /** The element-size lookup's first loads: the array reference, then its element type, into EAX. */
  lemma ElementTypeLoadRun(code: seq<ASMOp>, elemTypeOffset: int, m: Machine, mem: Memory)
    requires |code| >= 4
    requires code[0].PageFaultDetection? && code[1] == Mov(Dword, Mem(ESP, 0), Reg(EAX))
    requires code[2].PageFaultDetection? && code[3] == Mov(Dword, Mem(EAX, elemTypeOffset), Reg(EAX))
    requires |m.stack| >= 1
    ensures Run(code, 0, m, mem) == Run(code, 4, m.(eax := ReadDword(mem, m.stack[0] + elemTypeOffset)), mem)
  {
    CheckedStackLoad(code, 0, 0, EAX, m, mem);
    CheckedLoad(code, 2, EAX, elemTypeOffset, EAX, m.(eax := m.stack[0]), mem);
  }

  /** Saving the element type on the stack and loading its `IsValueType` byte into AL. */
  lemma ValueTypeLoadRun(code: seq<ASMOp>, isValueType: int, m: Machine, mem: Memory)
    requires |code| >= 7
    requires code[4] == Push(Dword, Reg(EAX)) && code[5].PageFaultDetection?
    requires code[6] == Mov(Byte, Mem(EAX, isValueType), Reg(AL))
    ensures Run(code, 4, m, mem) ==
            Run(code, 7, m.(stack := [m.eax] + m.stack, eax := m.eax - m.eax % 256 + ReadByte(mem, m.eax + isValueType)), mem)
  {
    var m5 := m.(stack := [m.eax] + m.stack);
    assert Step(code[4], m, mem) == Some(m5);
    assert Step(code[6], m5, mem) == Some(m5.(eax := m.eax - m.eax % 256 + ReadByte(mem, m.eax + isValueType)));
    RunStep(code, 4, m, mem);
    RunStep(code, 5, m5, mem);
    RunStep(code, 6, m5, mem);
  }

  /** Testing the low bit of the loaded `IsValueType` byte. */
  lemma ValueTypeTestRun(code: seq<ASMOp>, isValueType: int, m: Machine, mem: Memory)
    requires |code| >= 8
    requires code[4] == Push(Dword, Reg(EAX)) && code[5].PageFaultDetection?
    requires code[6] == Mov(Byte, Mem(EAX, isValueType), Reg(AL)) && code[7] == Test(EAX, Imm(1))
    requires IsWord(m.eax)
    ensures var b := ReadByte(mem, m.eax + isValueType);
            Run(code, 4, m, mem) ==
            Run(code, 8, m.(stack := [m.eax] + m.stack, eax := m.eax - m.eax % 256 + b, zero := b % 2 == 0, less := false), mem)
  {
    var t := m.eax;
    var b := ReadByte(mem, t + isValueType);
    var m7 := m.(stack := [t] + m.stack, eax := t - t % 256 + b);
    ByteLoadLowBit(t, b);
    ValueTypeLoadRun(code, isValueType, m, mem);
    assert Step(code[7], m7, mem) == Some(m7.(zero := b % 2 == 0, less := false));
    RunStep(code, 7, m7, mem);
  }

  /** A value type: pop the element type and read its `Size`. */
  lemma SizeBranchRun(code: seq<ASMOp>, size: int, l1: LabelId, l2: LabelId, m: Machine, mem: Memory)
    requires |code| == 18 && l1 != l2
    requires code[8] == Jmp(JumpZero, l1) && code[9] == Pop(Dword, Reg(EAX))
    requires code[10].PageFaultDetection? && code[11] == Mov(Dword, Mem(EAX, size), Reg(EAX))
    requires code[12] == Jmp(Jump, l2) && code[13] == Label(l1) && code[14].Pop? && code[15].PageFaultDetection?
    requires code[16].Mov? && code[17] == Label(l2)
    requires |m.stack| >= 1 && !m.zero
    ensures Run(code, 8, m, mem) ==
            Halted(m.(stack := m.stack[1..], eax := ReadDword(mem, m.stack[0] + size)))
  {
    var m10 := m.(stack := m.stack[1..], eax := m.stack[0]);
    var m12 := m10.(eax := ReadDword(mem, m.stack[0] + size));
    assert FindLabel(code, 13, l2) == Some(17);
    RunFall(code, 8, m, mem);
    RunStep(code, 9, m, mem);
    CheckedLoad(code, 10, EAX, size, EAX, m10, mem);
    RunJump(code, 12, m12, mem, 17);
    RunStep(code, 17, m12, mem);
  }

  /** Not a value type: pop the element type and read its `StackSize`. */
  lemma StackSizeBranchRun(code: seq<ASMOp>, stackSize: int, l1: LabelId, m: Machine, mem: Memory)
    requires |code| == 18
    requires code[8] == Jmp(JumpZero, l1) && code[9].Pop? && code[10].PageFaultDetection? && code[11].Mov?
    requires code[12].Jmp? && code[13] == Label(l1) && code[14] == Pop(Dword, Reg(EAX))
    requires code[15].PageFaultDetection? && code[16] == Mov(Dword, Mem(EAX, stackSize), Reg(EAX))
    requires code[17].Label?
    requires |m.stack| >= 1 && m.zero
    ensures Run(code, 8, m, mem) ==
            Halted(m.(stack := m.stack[1..], eax := ReadDword(mem, m.stack[0] + stackSize)))
  {
    var m15 := m.(stack := m.stack[1..], eax := m.stack[0]);
    var m17 := m15.(eax := ReadDword(mem, m.stack[0] + stackSize));
    assert FindLabel(code, 9, l1) == Some(13);
    RunJump(code, 8, m, mem, 13);
    RunStep(code, 13, m, mem);
    RunStep(code, 14, m, mem);
    CheckedLoad(code, 15, EAX, stackSize, EAX, m15, mem);
    RunStep(code, 17, m17, mem);
  }

  lemma ElementSizeClosed(code: seq<ASMOp>, arrayInfo: ArrayTypeInfo, offsets: TypeFieldOffsets, l1: LabelId, l2: LabelId)
    requires ElementSizeShape(code, arrayInfo, offsets, l1, l2)
    ensures Closed(code)
  {
    assert FindLabel(code, 9, l1) == Some(13);
    assert FindLabel(code, 13, l2) == Some(17);
  }

  /** Either branch pops the element type and leaves the element size in EAX. */
  lemma SizeBranchesRun(code: seq<ASMOp>, arrayInfo: ArrayTypeInfo, offsets: TypeFieldOffsets, l1: LabelId, l2: LabelId,
                        elemType: int, m: Machine, mem: Memory)
    requires ElementSizeShape(code, arrayInfo, offsets, l1, l2)
    requires |m.stack| >= 1 && m.stack[0] == elemType
    requires m.zero == (ReadByte(mem, elemType + offsets.IsValueType) % 2 == 0)
    ensures Run(code, 8, m, mem) ==
            Halted(m.(stack := m.stack[1..],
                      eax := if ReadByte(mem, elemType + offsets.IsValueType) % 2 == 1
                             then ReadDword(mem, elemType + offsets.Size)
                             else ReadDword(mem, elemType + offsets.StackSize)))
  {
    if m.zero {
      StackSizeBranchRun(code, offsets.StackSize, l1, m, mem);
    } else {
      SizeBranchRun(code, offsets.Size, l1, l2, m, mem);
    }
  }

  /** Loading the element type and testing whether it is a value type. */
  lemma ElementTypeTestRun(code: seq<ASMOp>, arrayInfo: ArrayTypeInfo, offsets: TypeFieldOffsets, m: Machine, mem: Memory)
    returns (m8: Machine)
    requires |code| >= 8
    requires code[0].PageFaultDetection? && code[1] == Mov(Dword, Mem(ESP, 0), Reg(EAX))
    requires code[2].PageFaultDetection? && code[3] == Mov(Dword, Mem(EAX, arrayInfo.elemTypeOffset), Reg(EAX))
    requires code[4] == Push(Dword, Reg(EAX)) && code[5].PageFaultDetection?
    requires code[6] == Mov(Byte, Mem(EAX, offsets.IsValueType), Reg(AL)) && code[7] == Test(EAX, Imm(1))
    requires |m.stack| >= 1
    ensures Run(code, 0, m, mem) == Run(code, 8, m8, mem)
    ensures var elemType := ReadDword(mem, m.stack[0] + arrayInfo.elemTypeOffset);
            && m8.zero == (ReadByte(mem, elemType + offsets.IsValueType) % 2 == 0)
            && m8.stack == [elemType] + m.stack
    ensures m8.ebx == m.ebx && m8.ecx == m.ecx && m8.edx == m.edx && m8.stores == m.stores
  {
    var m4 := m.(eax := ReadDword(mem, m.stack[0] + arrayInfo.elemTypeOffset));
    ElementTypeLoadRun(code, arrayInfo.elemTypeOffset, m, mem);
    ValueTypeTestRun(code, offsets.IsValueType, m4, mem);
    var b := ReadByte(mem, m4.eax + offsets.IsValueType);
    m8 := m4.(stack := [m4.eax] + m4.stack, eax := m4.eax - m4.eax % 256 + b, zero := b % 2 == 0, less := false);
  }

  /** The element-size lookup leaves `ElementSize` in EAX and the other registers, the stack and memory as they were. */
  lemma ElementSizeRun(code: seq<ASMOp>, arrayInfo: ArrayTypeInfo, offsets: TypeFieldOffsets, l1: LabelId, l2: LabelId, m: Machine, mem: Memory)
    returns (m': Machine)
    requires ElementSizeShape(code, arrayInfo, offsets, l1, l2)
    requires |m.stack| >= 1
    ensures Run(code, 0, m, mem) == Halted(m')
    ensures m'.eax == ElementSize(mem, m.stack[0], arrayInfo, offsets)
    ensures m'.stack == m.stack
    ensures m'.ebx == m.ebx && m'.ecx == m.ecx && m'.edx == m.edx && m'.stores == m.stores
  {
    var elemType := ReadDword(mem, m.stack[0] + arrayInfo.elemTypeOffset);
    var m8 := ElementTypeTestRun(code, arrayInfo, offsets, m, mem);
    SizeBranchesRun(code, arrayInfo, offsets, l1, l2, elemType, m8, mem);
    m' := m8.(stack := m8.stack[1..], eax := ElementSize(mem, m.stack[0], arrayInfo, offsets));
    assert m8.stack[1..] == m.stack;
  }

  // -------------------------------------------------------------------
  // Scaling, offsetting and the store

  ghost predicate ScaleShape(code: seq<ASMOp>)
  {
    |code| == 2 && code[0] == Mul(EBX) && code[1] == Pop(Dword, Reg(EBX))
  }

  ghost predicate OffsetShape(code: seq<ASMOp>, allFieldsOffset: int)
  {
    |code| == 2 && code[0] == Add(Imm(allFieldsOffset), Reg(EBX)) && code[1] == Add(Reg(EBX), Reg(EAX))
  }

  /** The operand size and source register of a store of `w` bytes. */
  ghost predicate StoreShape(code: seq<ASMOp>, w: nat)
  {
    if w == 8 then
      && |code| == 4
      && code[0].PageFaultDetection? && code[1] == Mov(Dword, Reg(ECX), Mem(EAX, 0))
      && code[2].PageFaultDetection? && code[3] == Mov(Dword, Reg(EDX), Mem(EAX, 4))
    else
      && |code| == 2 && code[0].PageFaultDetection?
      && code[1] == (if w == 4 then Mov(Dword, Reg(ECX), Mem(EAX, 0))
                     else if w == 2 then Mov(Word, Reg(CX), Mem(EAX, 0))
                     else Mov(Byte, Reg(CL), Mem(EAX, 0)))
  }

  lemma TailCodeShapes(w: nat, allFieldsOffset: int)
    requires w == 1 || w == 2 || w == 4 || w == 8
    ensures ScaleShape(ScaleCode()) && OffsetShape(OffsetCode(allFieldsOffset), allFieldsOffset)
    ensures StoreShape(StoreCode(w), w)
  {
  }

  /** `mul ebx` then `pop ebx`: the 64-bit product of EAX and EBX in EDX:EAX, and the array reference in EBX. */
  lemma ScaleRun(code: seq<ASMOp>, m: Machine, mem: Memory)
    requires ScaleShape(code)
    requires IsWord(m.eax) && IsWord(m.ebx) && |m.stack| >= 1
    ensures Closed(code)
    ensures Run(code, 0, m, mem) ==
            Halted(m.(eax := (m.eax * m.ebx) % TWO32, edx := (m.eax * m.ebx) / TWO32,
                      ebx := m.stack[0], stack := m.stack[1..]))
  {
    WrapWord(m.eax);
    WrapWord(m.ebx);
    var m1 := m.(eax := (m.eax * m.ebx) % TWO32, edx := (m.eax * m.ebx) / TWO32);
    assert Step(code[0], m, mem) == Some(m1);
    RunStep(code, 0, m, mem);
    RunStep(code, 1, m1, mem);
  }

  /** `add ebx, all` then `add eax, ebx`, both wrapping at 32 bits. */
  lemma OffsetRun(code: seq<ASMOp>, allFieldsOffset: int, m: Machine, mem: Memory)
    requires OffsetShape(code, allFieldsOffset)
    ensures Closed(code)
    ensures Run(code, 0, m, mem) ==
            Halted(m.(ebx := Wrap(m.ebx + allFieldsOffset), eax := Wrap(m.eax + Wrap(m.ebx + allFieldsOffset))))
  {
    var m1 := m.(ebx := Wrap(m.ebx + allFieldsOffset));
    RunStep(code, 0, m, mem);
    RunStep(code, 1, m1, mem);
  }

  /** A store of 1, 2 or 4 bytes writes the low bytes of ECX at EAX and nothing else. */
  lemma StoreRun(code: seq<ASMOp>, w: nat, m: Machine, mem: Memory)
    requires StoreShape(code, w) && (w == 1 || w == 2 || w == 4)
    requires IsWord(m.eax)
    ensures Closed(code)
    ensures Run(code, 0, m, mem) == Halted(m.(stores := m.stores + [Store(m.eax, w, m.ecx % ByteRange(w))]))
  {
    ByteRanges();
    WrapWord(m.eax);
    var m1 := m.(stores := m.stores + [Store(m.eax, w, m.ecx % ByteRange(w))]);
    assert Step(code[1], m, mem) == Some(m1);
    RunStep(code, 0, m, mem);
    RunStep(code, 1, m, mem);
  }

  /** The 8-byte store writes ECX at EAX and EDX at EAX + 4. */
  lemma Store8Run(code: seq<ASMOp>, m: Machine, mem: Memory)
    requires StoreShape(code, 8)
    requires IsWord(m.eax)
    ensures Closed(code)
    ensures Run(code, 0, m, mem) ==
            Halted(m.(stores := m.stores + [Store(m.eax, 4, m.ecx % TWO32), Store(Wrap(m.eax + 4), 4, m.edx % TWO32)]))
  {
    ByteRanges();
    WrapWord(m.eax);
    var m1 := m.(stores := m.stores + [Store(m.eax, 4, m.ecx % TWO32)]);
    var m2 := m1.(stores := m1.stores + [Store(Wrap(m.eax + 4), 4, m.edx % TWO32)]);
    assert Step(code[1], m, mem) == Some(m1);
    assert Step(code[3], m1, mem) == Some(m2);
    RunStep(code, 0, m, mem);
    RunStep(code, 1, m, mem);
    RunStep(code, 2, m1, mem);
    RunStep(code, 3, m1, mem);
    assert m2.stores == m.stores + [Store(m.eax, 4, m.ecx % TWO32), Store(Wrap(m.eax + 4), 4, m.edx % TWO32)];
  }

  /** The address the scaled index and the field offset add up to. */
  lemma AddressArithmetic(arr: int, allFieldsOffset: int, index: int, size: int)
    ensures Wrap((size * index) % TWO32 + Wrap(arr + allFieldsOffset)) == ElementAddress(arr, allFieldsOffset, index, size)
  {
    WrapAdd(size * index, arr + allFieldsOffset);
    assert arr + allFieldsOffset + index * size == size * index + (arr + allFieldsOffset);
  }

  /** Scaling, offsetting and the address computation, before the store. */
  lemma AddressRun(sc: seq<ASMOp>, o: seq<ASMOp>, st: seq<ASMOp>, allFieldsOffset: int, m: Machine, mem: Memory)
    returns (m6: Machine)
    requires ScaleShape(sc) && OffsetShape(o, allFieldsOffset)
    requires IsWord(m.eax) && IsWord(m.ebx) && |m.stack| >= 1
    ensures Run(sc + (o + st), 0, m, mem) == Run(st, 0, m6, mem)
    ensures m6.eax == ElementAddress(m.stack[0], allFieldsOffset, m.ebx, m.eax)
    ensures m6.ecx == m.ecx && m6.edx == (m.eax * m.ebx) / TWO32
    ensures m6.stack == m.stack[1..] && m6.stores == m.stores
  {
    ScaleRun(sc, m, mem);
    RunAppend(sc, o + st, 0, m, mem);
    var m5 := m.(eax := (m.eax * m.ebx) % TWO32, edx := (m.eax * m.ebx) / TWO32, ebx := m.stack[0], stack := m.stack[1..]);
    OffsetRun(o, allFieldsOffset, m5, mem);
    RunAppend(o, st, 0, m5, mem);
    m6 := m5.(ebx := Wrap(m5.ebx + allFieldsOffset), eax := Wrap(m5.eax + Wrap(m5.ebx + allFieldsOffset)));
    AddressArithmetic(m.stack[0], allFieldsOffset, m.ebx, m.eax);
  }

  // -------------------------------------------------------------------
  // Each fragment inside longer code

  /** The dword slots a store of width `w` consumes: the value (two slots for 8 bytes), the index and the array reference. */
  function Slots(w: nat): nat
  {
    if w == 8 then 4 else 3
  }

  lemma SlotDisplacements(w: nat)
    ensures ArrayRefDisp(w) >= 0 && ArrayRefDisp(w) % 4 == 0 && ArrayRefDisp(w) / 4 == Slots(w) - 1
    ensures IndexDisp(w) >= 0 && IndexDisp(w) % 4 == 0 && IndexDisp(w) / 4 == Slots(w) - 2
  {
  }

  lemma NullStage(n: seq<ASMOp>, rest: seq<ASMOp>, d: int, l: LabelId, m: Machine, mem: Memory)
    returns (m1: Machine)
    requires NullCheckShape(n, d, l)
    requires d >= 0 && d % 4 == 0 && d / 4 < |m.stack| && IsWord(m.stack[d / 4])
    ensures var o := Run(n + rest, 0, m, mem);
            m.stack[d / 4] == 0 ==> o.Threw? && o.callee == ThrowNullReferenceException && o.m.stores == m.stores
    ensures m.stack[d / 4] != 0 ==>
              Run(n + rest, 0, m, mem) == Run(rest, 0, m1, mem) && m1.stack == m.stack && m1.stores == m.stores
  {
    NullCheckClosed(n, d, l);
    NullCheckRun(n, d, l, m, mem);
    RunAppend(n, rest, 0, m, mem);
    var o := Run(n, 0, m, mem);
    m1 := if o.Halted? then o.m else m;
  }

  lemma IndexStage(c: seq<ASMOp>, rest: seq<ASMOp>, di: int, da: int, arrayInfo: ArrayTypeInfo, l1: LabelId, l2: LabelId, m: Machine, mem: Memory)
    returns (m2: Machine)
    requires IndexCheckShape(c, di, da, arrayInfo, l1, l2)
    requires di >= 0 && di % 4 == 0 && di / 4 < |m.stack|
    requires da >= 0 && da % 4 == 0 && da / 4 < |m.stack|
    ensures var o := Run(c + rest, 0, m, mem);
            OutOfRange(m.stack[di / 4], ArrayLength(mem, m.stack[da / 4], arrayInfo)) ==>
              o.Threw? && o.callee == ThrowIndexOutOfRangeException && o.m.stores == m.stores
    ensures !OutOfRange(m.stack[di / 4], ArrayLength(mem, m.stack[da / 4], arrayInfo)) ==>
              Run(c + rest, 0, m, mem) == Run(rest, 0, m2, mem) && m2.stack == m.stack && m2.stores == m.stores
  {
    IndexCheckClosed(c, di, da, arrayInfo, l1, l2);
    IndexCheckRun(c, di, da, arrayInfo, l1, l2, m, mem);
    RunAppend(c, rest, 0, m, mem);
    var o := Run(c, 0, m, mem);
    m2 := if o.Halted? then o.m else m;
  }

  lemma PopStage(v: seq<ASMOp>, rest: seq<ASMOp>, w: nat, m: Machine, mem: Memory)
    requires ValuePopShape(v, w)
    requires |m.stack| >= Slots(w)
    ensures var k := if w == 8 then 1 else 0;
            Run(v + rest, 0, m, mem) ==
            Run(rest, 0, m.(ecx := m.stack[0], edx := if w == 8 then m.stack[1] else m.edx,
                            ebx := m.stack[1 + k], stack := m.stack[2 + k..]), mem)
  {
    ValuePopRun(v, w, m, mem);
    RunAppend(v, rest, 0, m, mem);
  }

  lemma SizeStage(e: seq<ASMOp>, rest: seq<ASMOp>, arrayInfo: ArrayTypeInfo, offsets: TypeFieldOffsets, l1: LabelId, l2: LabelId, m: Machine, mem: Memory)
    returns (m4: Machine)
    requires ElementSizeShape(e, arrayInfo, offsets, l1, l2)
    requires |m.stack| >= 1
    ensures Run(e + rest, 0, m, mem) == Run(rest, 0, m4, mem)
    ensures m4.eax == ElementSize(mem, m.stack[0], arrayInfo, offsets)
    ensures m4.stack == m.stack
    ensures m4.ebx == m.ebx && m4.ecx == m.ecx && m4.edx == m.edx && m4.stores == m.stores
  {
    ElementSizeClosed(e, arrayInfo, offsets, l1, l2);
    m4 := ElementSizeRun(e, arrayInfo, offsets, l1, l2, m, mem);
    RunAppend(e, rest, 0, m, mem);
  }

  /** The value pops and the element-size lookup, followed by `tail`. */
  lemma AfterChecksRun(v: seq<ASMOp>, e: seq<ASMOp>, tail: seq<ASMOp>, w: nat, le1: LabelId, le2: LabelId,
                       arrayInfo: ArrayTypeInfo, offsets: TypeFieldOffsets, m: Machine, mem: Memory)
    returns (m4: Machine)
    requires ValuePopShape(v, w)
    requires ElementSizeShape(e, arrayInfo, offsets, le1, le2)
    requires |m.stack| >= Slots(w)
    ensures Run(v + (e + tail), 0, m, mem) == Run(tail, 0, m4, mem)
    ensures var arr := m.stack[Slots(w) - 1];
            && m4.eax == ElementSize(mem, arr, arrayInfo, offsets) && m4.ebx == m.stack[Slots(w) - 2]
            && m4.ecx == m.stack[0] && (w == 8 ==> m4.edx == m.stack[1])
            && m4.stack == [arr] + m.stack[Slots(w)..] && m4.stores == m.stores
  {
    var m3;
    if w == 8 {
      m3 := m.(ecx := m.stack[0], edx := m.stack[1], ebx := m.stack[2], stack := m.stack[3..]);
      assert m3.stack == [m.stack[3]] + m.stack[4..];
    } else {
      m3 := m.(ecx := m.stack[0], ebx := m.stack[1], stack := m.stack[2..]);
      assert m3.stack == [m.stack[2]] + m.stack[3..];
    }
    PopStage(v, e + tail, w, m, mem);
    m4 := SizeStage(e, tail, arrayInfo, offsets, le1, le2, m3, mem);
  }

  /** The range check, the value pops and the element-size lookup, followed by `tail`. */
  lemma AfterNullCheckRun(c: seq<ASMOp>, v: seq<ASMOp>, e: seq<ASMOp>, tail: seq<ASMOp>,
                          w: nat, li1: LabelId, li2: LabelId, le1: LabelId, le2: LabelId,
                          arrayInfo: ArrayTypeInfo, offsets: TypeFieldOffsets, m: Machine, mem: Memory)
    returns (m4: Machine)
    requires w == 1 || w == 2 || w == 4 || w == 8
    requires IndexCheckShape(c, IndexDisp(w), ArrayRefDisp(w), arrayInfo, li1, li2)
    requires ValuePopShape(v, w)
    requires ElementSizeShape(e, arrayInfo, offsets, le1, le2)
    requires |m.stack| >= Slots(w)
    ensures var arr, index := m.stack[Slots(w) - 1], m.stack[Slots(w) - 2];
            var o := Run(c + (v + (e + tail)), 0, m, mem);
            && (OutOfRange(index, ArrayLength(mem, arr, arrayInfo)) ==>
                  o.Threw? && o.callee == ThrowIndexOutOfRangeException && o.m.stores == m.stores)
            && (!OutOfRange(index, ArrayLength(mem, arr, arrayInfo)) ==>
                  && o == Run(tail, 0, m4, mem)
                  && m4.eax == ElementSize(mem, arr, arrayInfo, offsets) && m4.ebx == index
                  && m4.ecx == m.stack[0] && (w == 8 ==> m4.edx == m.stack[1])
                  && m4.stack == [arr] + m.stack[Slots(w)..] && m4.stores == m.stores)
  {
    SlotDisplacements(w);
    var m2 := IndexStage(c, v + (e + tail), IndexDisp(w), ArrayRefDisp(w), arrayInfo, li1, li2, m, mem);
    m4 := m;
    if !OutOfRange(m.stack[Slots(w) - 2], ArrayLength(mem, m.stack[Slots(w) - 1], arrayInfo)) {
      m4 := AfterChecksRun(v, e, tail, w, le1, le2, arrayInfo, offsets, m2, mem);
    }
  }

  /**
   * The checks, the value pops and the element-size lookup, followed by any
   * `tail`: a null array reference throws, an index out of range throws, and
   * otherwise `tail` runs with the element size in EAX, the index in EBX, the
   * value in ECX (and EDX) and the array reference on top of the stack.
   */
  lemma ChecksRun(n: seq<ASMOp>, c: seq<ASMOp>, v: seq<ASMOp>, e: seq<ASMOp>, tail: seq<ASMOp>,
                  w: nat, ln: LabelId, li1: LabelId, li2: LabelId, le1: LabelId, le2: LabelId,
                  arrayInfo: ArrayTypeInfo, offsets: TypeFieldOffsets, m: Machine, mem: Memory)
    returns (m4: Machine)
    requires w == 1 || w == 2 || w == 4 || w == 8
    requires NullCheckShape(n, ArrayRefDisp(w), ln)
    requires IndexCheckShape(c, IndexDisp(w), ArrayRefDisp(w), arrayInfo, li1, li2)
    requires ValuePopShape(v, w)
    requires ElementSizeShape(e, arrayInfo, offsets, le1, le2)
    requires |m.stack| >= Slots(w) && IsWord(m.stack[Slots(w) - 1])
    ensures var arr, index := m.stack[Slots(w) - 1], m.stack[Slots(w) - 2];
            var o := Run(n + (c + (v + (e + tail))), 0, m, mem);
            && (arr == 0 ==> o.Threw? && o.callee == ThrowNullReferenceException && o.m.stores == m.stores)
            && (arr != 0 && OutOfRange(index, ArrayLength(mem, arr, arrayInfo)) ==>
                  o.Threw? && o.callee == ThrowIndexOutOfRangeException && o.m.stores == m.stores)
            && (arr != 0 && !OutOfRange(index, ArrayLength(mem, arr, arrayInfo)) ==>
                  && o == Run(tail, 0, m4, mem)
                  && m4.eax == ElementSize(mem, arr, arrayInfo, offsets) && m4.ebx == index
                  && m4.ecx == m.stack[0] && (w == 8 ==> m4.edx == m.stack[1])
                  && m4.stack == [arr] + m.stack[Slots(w)..] && m4.stores == m.stores)
  {
    SlotDisplacements(w);
    var m1 := NullStage(n, c + (v + (e + tail)), ArrayRefDisp(w), ln, m, mem);
    m4 := m;
    if m.stack[Slots(w) - 1] != 0 {
      m4 := AfterNullCheckRun(c, v, e, tail, w, li1, li2, le1, le2, arrayInfo, offsets, m1, mem);
    }
  }

  // -------------------------------------------------------------------
  // The whole emitted sequence

  /** The emitted code, regrouped so that the scaling, the offset and the store form one tail. */
  lemma StelemCodePieces(w: nat, pos: int, arrayInfo: ArrayTypeInfo, offsets: TypeFieldOffsets, allFieldsOffset: int)
    ensures StelemCode(w, pos, arrayInfo, offsets, allFieldsOffset) ==
            NullCheckCode(w, pos) + (IndexCheckCode(w, pos, arrayInfo) + (ValuePopCode(w) +
            (ElementSizeCode(pos, arrayInfo, offsets) + (ScaleCode() + (OffsetCode(allFieldsOffset) + StoreCode(w))))))
  {
  }

  /** `ChecksRun` for the check code `Convert` emits, followed by any `tail`. */
  lemma EmittedChecksRun(w: nat, pos: int, arrayInfo: ArrayTypeInfo, offsets: TypeFieldOffsets, tail: seq<ASMOp>, m: Machine, mem: Memory)
    returns (m4: Machine)
    requires w == 1 || w == 2 || w == 4 || w == 8
    requires |m.stack| >= Slots(w) && IsWord(m.stack[Slots(w) - 1])
    ensures var arr, index := m.stack[Slots(w) - 1], m.stack[Slots(w) - 2];
            var o := Run(NullCheckCode(w, pos) + (IndexCheckCode(w, pos, arrayInfo) + (ValuePopCode(w) + (ElementSizeCode(pos, arrayInfo, offsets) + tail))), 0, m, mem);
            && (arr == 0 ==> o.Threw? && o.callee == ThrowNullReferenceException && o.m.stores == m.stores)
            && (arr != 0 && OutOfRange(index, ArrayLength(mem, arr, arrayInfo)) ==>
                  o.Threw? && o.callee == ThrowIndexOutOfRangeException && o.m.stores == m.stores)
            && (arr != 0 && !OutOfRange(index, ArrayLength(mem, arr, arrayInfo)) ==>
                  && o == Run(tail, 0, m4, mem)
                  && m4.eax == ElementSize(mem, arr, arrayInfo, offsets) && m4.ebx == index
                  && m4.ecx == m.stack[0] && (w == 8 ==> m4.edx == m.stack[1])
                  && m4.stack == [arr] + m.stack[Slots(w)..] && m4.stores == m.stores)
  {
    NullCheckCodeShape(w, pos);
    IndexCheckCodeShape(w, pos, arrayInfo);
    ValuePopCodeShape(w);
    ElementSizeCodeShape(pos, arrayInfo, offsets);
    m4 := ChecksRun(NullCheckCode(w, pos), IndexCheckCode(w, pos, arrayInfo), ValuePopCode(w), ElementSizeCode(pos, arrayInfo, offsets), tail, w,
                    Continue(pos, "Continue1"), Continue(pos, "Continue3_1"), Continue(pos, "Continue3_2"),
                    Continue(pos, "Continue4_1"), Continue(pos, "Continue4_2"), arrayInfo, offsets, m, mem);
  }

  /** Scaling, offsetting and a store of 1, 2 or 4 bytes: one write at the element's address. */
  lemma NarrowTailRun(sc: seq<ASMOp>, o: seq<ASMOp>, st: seq<ASMOp>, w: nat, allFieldsOffset: int, m: Machine, mem: Memory)
    requires w == 1 || w == 2 || w == 4
    requires ScaleShape(sc) && OffsetShape(o, allFieldsOffset) && StoreShape(st, w)
    requires IsWord(m.eax) && IsWord(m.ebx) && |m.stack| >= 1
    ensures var r := Run(sc + (o + st), 0, m, mem);
            && r.Halted? && r.m.stack == m.stack[1..]
            && r.m.stores == m.stores + [Store(ElementAddress(m.stack[0], allFieldsOffset, m.ebx, m.eax), w, m.ecx % ByteRange(w))]
  {
    var m6 := AddressRun(sc, o, st, allFieldsOffset, m, mem);
    StoreRun(st, w, m6, mem);
  }

  /**
   * Running the code `Convert` emits for a non-float `stelem`, reading [ESP]
   * as the value, [ESP+4] as the index and [ESP+8] as the array reference:
   * the layout of a value that takes one stack slot. `stelem.i8`, and
   * `stelem` with a token naming a wider value type, push more than that
   * (see `StelemI8ReadsIndexAsArray`). A null
   * array reference throws `NullReferenceException`, an index outside
   * [0, length) throws `IndexOutOfRangeException`, in both cases before
   * anything is written; otherwise the low `StoreWidth(op)` bytes of the
   * value are written at the element's address, that is the only write, and
   * the three slots are gone from the stack.
   */
  lemma StelemExecution(op: OpCode, pos: int, arrayInfo: ArrayTypeInfo, offsets: TypeFieldOffsets, m: Machine, mem: Memory)
    requires !IsFloat(op) && |arrayInfo.FieldInfos| > 0
    requires |m.stack| >= 3 && IsWord(m.stack[1]) && IsWord(m.stack[2])
    ensures var w, all := StoreWidth(op), AllFieldsOffset(arrayInfo.FieldInfos);
            var o := Run(StelemCode(w, pos, arrayInfo, offsets, all), 0, m, mem);
            var value, index, arr := m.stack[0], m.stack[1], m.stack[2];
            && (arr == 0 ==> o.Threw? && o.callee == ThrowNullReferenceException && o.m.stores == m.stores)
            && (arr != 0 && OutOfRange(index, ArrayLength(mem, arr, arrayInfo)) ==>
                  o.Threw? && o.callee == ThrowIndexOutOfRangeException && o.m.stores == m.stores)
            && (arr != 0 && !OutOfRange(index, ArrayLength(mem, arr, arrayInfo)) ==>
                  && o.Halted? && o.m.stack == m.stack[3..]
                  && o.m.stores == m.stores + [Store(ElementAddress(arr, all, index, ElementSize(mem, arr, arrayInfo, offsets)),
                                                     w, value % ByteRange(w))])
  {
    var w, all := StoreWidth(op), AllFieldsOffset(arrayInfo.FieldInfos);
    TailCodeShapes(w, all);
    StelemCodePieces(w, pos, arrayInfo, offsets, all);
    var sc, o, st := ScaleCode(), OffsetCode(all), StoreCode(w);
    var m4 := EmittedChecksRun(w, pos, arrayInfo, offsets, sc + (o + st), m, mem);
    if m.stack[2] != 0 && !OutOfRange(m.stack[1], ArrayLength(mem, m.stack[2], arrayInfo)) {
      NarrowTailRun(sc, o, st, w, all, m4, mem);
    }
  }

  /** Where the corrected code differs from the emitted code: only for `stelem.i8`. */
  lemma CorrectedAgreesElsewhere(op: OpCode, pos: int, arrayInfo: ArrayTypeInfo, offsets: TypeFieldOffsets, allFieldsOffset: int)
    requires !IsFloat(op) && op != Stelem_I8
    ensures IntendedStoreWidth(op) == StoreWidth(op)
    ensures CorrectedStelemCode(IntendedStoreWidth(op), pos, arrayInfo, offsets, allFieldsOffset) ==
            StelemCode(StoreWidth(op), pos, arrayInfo, offsets, allFieldsOffset)
  {
    StelemCodePieces(StoreWidth(op), pos, arrayInfo, offsets, allFieldsOffset);
  }

  // -------------------------------------------------------------------
  // Eight-byte stores

  /** Scaling, offsetting and the 8-byte store as emitted: the high dword written is the high half of the product. */
  lemma WideTailRun(sc: seq<ASMOp>, o: seq<ASMOp>, st: seq<ASMOp>, allFieldsOffset: int, m: Machine, mem: Memory)
    requires ScaleShape(sc) && OffsetShape(o, allFieldsOffset) && StoreShape(st, 8)
    requires IsWord(m.eax) && IsWord(m.ebx) && |m.stack| >= 1
    ensures var r := Run(sc + (o + st), 0, m, mem);
            var address := ElementAddress(m.stack[0], allFieldsOffset, m.ebx, m.eax);
            && r.Halted? && r.m.stack == m.stack[1..]
            && r.m.stores == m.stores + [Store(address, 4, m.ecx % TWO32),
                                         Store(Wrap(address + 4), 4, MulHigh(m.eax, m.ebx))]
  {
    var m6 := AddressRun(sc, o, st, allFieldsOffset, m, mem);
    Store8Run(st, m6, mem);
  }

  ghost predicate CorrectedScaleShape(code: seq<ASMOp>)
  {
    && |code| == 4 && code[0] == Push(Dword, Reg(EDX)) && code[1] == Mul(EBX)
    && code[2] == Pop(Dword, Reg(EDX)) && code[3] == Pop(Dword, Reg(EBX))
  }

  /** Saving EDX across `mul` leaves it as it was; EAX holds the low dword of the product. */
  lemma CorrectedScaleRun(code: seq<ASMOp>, m: Machine, mem: Memory)
    requires CorrectedScaleShape(code)
    requires IsWord(m.eax) && IsWord(m.ebx) && |m.stack| >= 1
    ensures Closed(code)
    ensures Run(code, 0, m, mem) ==
            Halted(m.(eax := (m.eax * m.ebx) % TWO32, ebx := m.stack[0], stack := m.stack[1..]))
  {
    WrapWord(m.eax);
    WrapWord(m.ebx);
    var m1 := m.(stack := [m.edx] + m.stack);
    var m2 := m1.(eax := (m.eax * m.ebx) % TWO32, edx := (m.eax * m.ebx) / TWO32);
    var m3 := m2.(edx := m.edx, stack := m.stack);
    assert Step(code[0], m, mem) == Some(m1);
    assert Step(code[1], m1, mem) == Some(m2);
    assert m2.stack[1..] == m.stack;
    assert Step(code[2], m2, mem) == Some(m3);
    RunStep(code, 0, m, mem);
    RunStep(code, 1, m1, mem);
    RunStep(code, 2, m2, mem);
    RunStep(code, 3, m3, mem);
  }

  /** The corrected scaling, offsetting and 8-byte store: the value's two dwords at the element's address. */
  lemma CorrectedWideTailRun(sc: seq<ASMOp>, o: seq<ASMOp>, st: seq<ASMOp>, allFieldsOffset: int, m: Machine, mem: Memory)
    requires CorrectedScaleShape(sc) && OffsetShape(o, allFieldsOffset) && StoreShape(st, 8)
    requires IsWord(m.eax) && IsWord(m.ebx) && |m.stack| >= 1
    ensures var r := Run(sc + (o + st), 0, m, mem);
            var address := ElementAddress(m.stack[0], allFieldsOffset, m.ebx, m.eax);
            && r.Halted? && r.m.stack == m.stack[1..]
            && r.m.stores == m.stores + [Store(address, 4, m.ecx % TWO32), Store(Wrap(address + 4), 4, m.edx % TWO32)]
  {
    CorrectedScaleRun(sc, m, mem);
    RunAppend(sc, o + st, 0, m, mem);
    var m5 := m.(eax := (m.eax * m.ebx) % TWO32, ebx := m.stack[0], stack := m.stack[1..]);
    OffsetRun(o, allFieldsOffset, m5, mem);
    RunAppend(o, st, 0, m5, mem);
    var m6 := m5.(ebx := Wrap(m5.ebx + allFieldsOffset), eax := Wrap(m5.eax + Wrap(m5.ebx + allFieldsOffset)));
    AddressArithmetic(m.stack[0], allFieldsOffset, m.ebx, m.eax);
    Store8Run(st, m6, mem);
  }

  /**
   * As emitted, `stelem.i8` takes the 4-byte layout: with a 64-bit value
   * (low dword, high dword) above the index 0 and a non-null array, the code
   * reads the index slot as the array reference and throws
   * `NullReferenceException`.
   */
  lemma StelemI8ReadsIndexAsArray(pos: int, arrayInfo: ArrayTypeInfo, offsets: TypeFieldOffsets, m: Machine, mem: Memory)
    requires |arrayInfo.FieldInfos| > 0
    requires |m.stack| >= 4 && IsWord(m.stack[1]) && m.stack[2] == 0 && m.stack[3] != 0
    ensures var o := Run(StelemCode(StoreWidth(Stelem_I8), pos, arrayInfo, offsets, AllFieldsOffset(arrayInfo.FieldInfos)), 0, m, mem);
            o.Threw? && o.callee == ThrowNullReferenceException && o.m.stores == m.stores
  {
    StelemExecution(Stelem_I8, pos, arrayInfo, offsets, m, mem);
  }

  /**
   * The emitted code for any width, once both checks pass: it runs on into
   * the scaling with the element size in EAX, the index in EBX, the value in
   * ECX (and EDX) and the array reference on top of the stack.
   */
  lemma ChecksPass(w: nat, pos: int, arrayInfo: ArrayTypeInfo, offsets: TypeFieldOffsets, allFieldsOffset: int, m: Machine, mem: Memory)
    returns (m4: Machine)
    requires w == 1 || w == 2 || w == 4 || w == 8
    requires |m.stack| >= Slots(w) && IsWord(m.stack[Slots(w) - 1])
    requires m.stack[Slots(w) - 1] != 0 && !OutOfRange(m.stack[Slots(w) - 2], ArrayLength(mem, m.stack[Slots(w) - 1], arrayInfo))
    ensures Run(StelemCode(w, pos, arrayInfo, offsets, allFieldsOffset), 0, m, mem) ==
            Run(ScaleCode() + (OffsetCode(allFieldsOffset) + StoreCode(w)), 0, m4, mem)
    ensures var arr := m.stack[Slots(w) - 1];
            && m4.eax == ElementSize(mem, arr, arrayInfo, offsets) && m4.ebx == m.stack[Slots(w) - 2]
            && m4.ecx == m.stack[0] && (w == 8 ==> m4.edx == m.stack[1])
            && m4.stack == [arr] + m.stack[Slots(w)..] && m4.stores == m.stores
  {
    StelemCodePieces(w, pos, arrayInfo, offsets, allFieldsOffset);
    m4 := EmittedChecksRun(w, pos, arrayInfo, offsets, ScaleCode() + (OffsetCode(allFieldsOffset) + StoreCode(w)), m, mem);
  }

  /** `WideTailRun` for the scaling, offset and 8-byte store fragments as emitted. */
  lemma EmittedWideTailRun(allFieldsOffset: int, m: Machine, mem: Memory)
    requires IsWord(m.eax) && IsWord(m.ebx) && |m.stack| >= 1
    ensures var r := Run(ScaleCode() + (OffsetCode(allFieldsOffset) + StoreCode(8)), 0, m, mem);
            var address := ElementAddress(m.stack[0], allFieldsOffset, m.ebx, m.eax);
            && r.Halted? && r.m.stack == m.stack[1..]
            && r.m.stores == m.stores + [Store(address, 4, m.ecx % TWO32),
                                         Store(Wrap(address + 4), 4, MulHigh(m.eax, m.ebx))]
  {
    TailCodeShapes(8, allFieldsOffset);
    WideTailRun(ScaleCode(), OffsetCode(allFieldsOffset), StoreCode(8), allFieldsOffset, m, mem);
  }

  /**
   * The 8-byte path as emitted, once the checks pass: the low dword is
   * stored at the element's address, but the dword stored above it is the
   * high half of index times element size, which `mul` left in EDX over the
   * value's high dword; for index 0 it is 0 whatever the value was.
   */
  lemma EightBytePathLosesHighDword(pos: int, arrayInfo: ArrayTypeInfo, offsets: TypeFieldOffsets, allFieldsOffset: int, m: Machine, mem: Memory)
    requires |m.stack| >= 4 && IsWord(m.stack[2]) && IsWord(m.stack[3])
    requires m.stack[3] != 0 && !OutOfRange(m.stack[2], ArrayLength(mem, m.stack[3], arrayInfo))
    ensures var o := Run(StelemCode(8, pos, arrayInfo, offsets, allFieldsOffset), 0, m, mem);
            var lo, index, arr := m.stack[0], m.stack[2], m.stack[3];
            var size := ElementSize(mem, arr, arrayInfo, offsets);
            var address := ElementAddress(arr, allFieldsOffset, index, size);
            && o.Halted? && o.m.stack == m.stack[4..]
            && o.m.stores == m.stores + [Store(address, 4, lo % TWO32), Store(Wrap(address + 4), 4, MulHigh(size, index))]
            && (index == 0 ==> o.m.stores[|o.m.stores| - 1].value == 0)
  {
    var m4 := ChecksPass(8, pos, arrayInfo, offsets, allFieldsOffset, m, mem);
    assert m4.stack[0] == m.stack[3] && m4.stack[1..] == m.stack[4..];
    EmittedWideTailRun(allFieldsOffset, m4, mem);
    if m.stack[2] == 0 {
      assert ElementSize(mem, m.stack[3], arrayInfo, offsets) * m.stack[2] == 0;
    }
  }

  /**
   * The corrected `stelem.i8`: the same checks on the 8-byte layout, then
   * the value's low dword at the element's address and its high dword
   * right above it, and nothing else written.
   */
  lemma CorrectedStelemI8Execution(pos: int, arrayInfo: ArrayTypeInfo, offsets: TypeFieldOffsets, m: Machine, mem: Memory)
    requires |arrayInfo.FieldInfos| > 0
    requires |m.stack| >= 4 && IsWord(m.stack[2]) && IsWord(m.stack[3])
    ensures var all := AllFieldsOffset(arrayInfo.FieldInfos);
            var o := Run(CorrectedStelemCode(IntendedStoreWidth(Stelem_I8), pos, arrayInfo, offsets, all), 0, m, mem);
            var lo, hi, index, arr := m.stack[0], m.stack[1], m.stack[2], m.stack[3];
            && (arr == 0 ==> o.Threw? && o.callee == ThrowNullReferenceException && o.m.stores == m.stores)
            && (arr != 0 && OutOfRange(index, ArrayLength(mem, arr, arrayInfo)) ==>
                  o.Threw? && o.callee == ThrowIndexOutOfRangeException && o.m.stores == m.stores)
            && (arr != 0 && !OutOfRange(index, ArrayLength(mem, arr, arrayInfo)) ==>
                  var address := ElementAddress(arr, all, index, ElementSize(mem, arr, arrayInfo, offsets));
                  && o.Halted? && o.m.stack == m.stack[4..]
                  && o.m.stores == m.stores + [Store(address, 4, lo % TWO32), Store(Wrap(address + 4), 4, hi % TWO32)])
  {
    var w, all := 8, AllFieldsOffset(arrayInfo.FieldInfos);
    var tail := CorrectedScaleCode(w) + (OffsetCode(all) + StoreCode(w));
    var m4 := EmittedChecksRun(w, pos, arrayInfo, offsets, tail, m, mem);
    if m.stack[3] != 0 && !OutOfRange(m.stack[2], ArrayLength(mem, m.stack[3], arrayInfo)) {
      assert m4.stack[0] == m.stack[3] && m4.stack[1..] == m.stack[4..];
      CorrectedEmittedTailRun(all, m4, mem);
    }
  }

  /** `CorrectedWideTailRun` for the corrected scaling, the offset and the 8-byte store fragments. */
  lemma CorrectedEmittedTailRun(allFieldsOffset: int, m: Machine, mem: Memory)
    requires IsWord(m.eax) && IsWord(m.ebx) && |m.stack| >= 1
    ensures var r := Run(CorrectedScaleCode(8) + (OffsetCode(allFieldsOffset) + StoreCode(8)), 0, m, mem);
            var address := ElementAddress(m.stack[0], allFieldsOffset, m.ebx, m.eax);
            && r.Halted? && r.m.stack == m.stack[1..]
            && r.m.stores == m.stores + [Store(address, 4, m.ecx % TWO32), Store(Wrap(address + 4), 4, m.edx % TWO32)]
  {
    TailCodeShapes(8, allFieldsOffset);
    CorrectedWideTailRun(CorrectedScaleCode(8), OffsetCode(allFieldsOffset), StoreCode(8), allFieldsOffset, m, mem);
  }
}
