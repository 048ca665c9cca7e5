/**
 * The x86-32 emitter for the CIL `stelem` family (ECMA-335 Partition III,
 * sections 4.26 and 4.27): storing the value on top of the evaluation stack
 * into an element of a one-dimensional array. The emitted code checks the
 * array reference against null, checks the index against the array's length
 * under signed comparison, computes the element's address from the element
 * type's size and stores the value with the width the opcode selects.
 */
module Stelem {
  import opened Words
  import opened X86

  datatype OpCode = Stelem | Stelem_I | Stelem_I1 | Stelem_I2 | Stelem_I4 | Stelem_I8 | Stelem_R4 | Stelem_R8 | Stelem_Ref

  predicate IsFloat(op: OpCode)
  {
    op == Stelem_R4 || op == Stelem_R8
  }

  /**
   * `sizeToPop`, the width of the store: 4 unless the opcode lowers it. The
   * switch never raises it, so `Stelem_I8` keeps 4 as well.
   */
  function StoreWidth(op: OpCode): (w: nat)
    requires !IsFloat(op)
    ensures w == 1 <==> op == Stelem_I1
    ensures w == 2 <==> op == Stelem_I2
    ensures w == 1 || w == 2 || w == 4
  {
    if op == Stelem_I1 then 1
    else if op == Stelem_I2 then 2
    else 4
  }

  /** `[ESP+...]` slot of the array reference: two dwords above the value, or three above an 8-byte value. */
  function ArrayRefDisp(w: nat): int
  {
    if w == 8 then 12 else 8
  }

  /** `[ESP+...]` slot of the index. */
  function IndexDisp(w: nat): int
  {
    if w == 8 then 8 else 4
  }

  /** What the compiler's type tables say about a type. */
  datatype TypeInfo = TypeInfo(IsValueType: bool, SizeOnHeapInBytes: int, SizeOnStackInBytes: int)

  /** A field of the array class: its name, its offset and the type information of its field type. */
  datatype FieldInfo = FieldInfo(Name: string, OffsetInBytes: int, FieldType: TypeInfo)

  /**
   * The array class as laid out by the compiler. The offsets of `length` and
   * `elemType` are those of the fields `GetFieldInfo` finds by name; the
   * emitter reads them only once both lookups have succeeded.
   */
  datatype ArrayTypeInfo = ArrayTypeInfo(FieldInfos: seq<FieldInfo>)
  {
    const lengthOffset: int := FieldOffset(FieldInfos, "length")
    const elemTypeOffset: int := FieldOffset(FieldInfos, "elemType")
  }

  /** `GetFieldInfo(name)`: the position of the first field with that name, if there is one. */
  function GetFieldInfo(fields: seq<FieldInfo>, name: string): (r: Option<nat>)
    ensures r.Some? ==> r.value < |fields| && fields[r.value].Name == name
    ensures r.Some? ==> forall j :: 0 <= j < r.value ==> fields[j].Name != name
    ensures r.None? <==> forall j :: 0 <= j < |fields| ==> fields[j].Name != name
  {
    if fields == [] then None
    else if fields[0].Name == name then Some(0)
    else match GetFieldInfo(fields[1..], name)
      case None => None
      case Some(i) => Some(i + 1)
  }

  /**
   * `GetFieldInfo(name).OffsetInBytes`: the offset of the first field with
   * that name (`FieldOffsetFound`); 0 stands in when there is none, a case the
   * emitter never reaches.
   */
  function FieldOffset(fields: seq<FieldInfo>, name: string): int
  {
    if fields == [] then 0
    else if fields[0].Name == name then fields[0].OffsetInBytes
    else FieldOffset(fields[1..], name)
  }

  /** `FieldOffset` reads the offset of exactly the field `GetFieldInfo` finds. */
  lemma {:induction false} FieldOffsetFound(fields: seq<FieldInfo>, name: string)
    ensures GetFieldInfo(fields, name).Some? ==>
              FieldOffset(fields, name) == fields[GetFieldInfo(fields, name).value].OffsetInBytes
    ensures GetFieldInfo(fields, name).None? ==> FieldOffset(fields, name) == 0
  {
    if fields != [] && fields[0].Name != name {
      FieldOffsetFound(fields[1..], name);
    }
  }

  /** Offsets of the `IsValueType`, `Size` and `StackSize` fields inside a runtime type object. */
  datatype TypeFieldOffsets = TypeFieldOffsets(IsValueType: int, Size: int, StackSize: int)

  /** The IL op being converted, with its position in the method. */
  datatype ILOp = ILOp(opCode: OpCode, position: int)

  /** An entry of the compiler's virtual evaluation stack. */
  datatype StackItem = StackItem(sizeOnStackInBytes: int, isFloat: bool)

  datatype ConvertResult =
    | Converted
    | NotSupported        // NotSupportedException for the floating-point variants
    | FieldNotFound       // `GetFieldInfo` found no field of that name

  /**
   * The field of `OrderByDescending(f => f.OffsetInBytes).First()`: the largest
   * offset, and of several fields with that offset the first in list order
   * (the ordering is stable).
   */
  function HighestOffsetField(fields: seq<FieldInfo>): (i: nat)
    requires |fields| > 0
    ensures i < |fields|
    ensures forall j :: 0 <= j < |fields| ==> fields[j].OffsetInBytes <= fields[i].OffsetInBytes
    ensures forall j :: 0 <= j < i ==> fields[j].OffsetInBytes < fields[i].OffsetInBytes
  {
    if |fields| == 1 then 0
    else
      var k := HighestOffsetField(fields[..|fields| - 1]);
      if fields[|fields| - 1].OffsetInBytes > fields[k].OffsetInBytes then |fields| - 1 else k
  }

  /** Any field meeting the ordering's description is the one `First()` picks. */
  lemma HighestOffsetFieldUnique(fields: seq<FieldInfo>, i: nat)
    requires i < |fields|
    requires forall j :: 0 <= j < |fields| ==> fields[j].OffsetInBytes <= fields[i].OffsetInBytes
    requires forall j :: 0 <= j < i ==> fields[j].OffsetInBytes < fields[i].OffsetInBytes
    ensures HighestOffsetField(fields) == i
  {
  }

  /** The space a field of this type takes inside an object: its heap size for a value type, else a reference. */
  function FieldSize(t: TypeInfo): int
  {
    if t.IsValueType then t.SizeOnHeapInBytes else t.SizeOnStackInBytes
  }

  /**
   * `allFieldsOffset`: the end of the array object's own fields, where the
   * elements start -- the highest field offset plus that field's size.
   */
  function AllFieldsOffset(fields: seq<FieldInfo>): (r: int)
    requires |fields| > 0
    ensures exists i :: 0 <= i < |fields|
              && r == fields[i].OffsetInBytes + FieldSize(fields[i].FieldType)
              && (forall j :: 0 <= j < |fields| ==> fields[j].OffsetInBytes <= fields[i].OffsetInBytes)
              && (forall j :: 0 <= j < i ==> fields[j].OffsetInBytes < fields[i].OffsetInBytes)
  {
    var f := fields[HighestOffsetField(fields)];
    f.OffsetInBytes + FieldSize(f.FieldType)
  }

  function Continue(pos: int, ext: string): LabelId
  {
    LabelId(pos, ext)
  }

  /** Step 1: load the array reference, and call the null-reference thrower if it is 0. */
  function NullCheckCode(w: nat, pos: int): (r: seq<ASMOp>)
  {
    [ PageFaultDetection(ESP, ArrayRefDisp(w)),
      Mov(Dword, Mem(ESP, ArrayRefDisp(w)), Reg(EAX)),
      Cmp(EAX, Imm(0)),
      Jmp(JumpNotZero, Continue(pos, "Continue1")),
      Call(ThrowNullReferenceException),
      Label(Continue(pos, "Continue1")) ]
  }

  /** Step 3: load the index and the array's length; throw unless 0 <= index < length, signed. */
  function IndexCheckCode(w: nat, pos: int, arrayInfo: ArrayTypeInfo): (r: seq<ASMOp>)
  {
    [ PageFaultDetection(ESP, IndexDisp(w)),
      Mov(Dword, Mem(ESP, IndexDisp(w)), Reg(EAX)),
      PageFaultDetection(ESP, ArrayRefDisp(w)),
      Mov(Dword, Mem(ESP, ArrayRefDisp(w)), Reg(EBX)),
      PageFaultDetection(EBX, arrayInfo.lengthOffset),
      Mov(Dword, Mem(EBX, arrayInfo.lengthOffset), Reg(EBX)),
      Cmp(EAX, Imm(0)),
      Jmp(JumpGreaterThanEqual, Continue(pos, "Continue3_1")),
      Call(ThrowIndexOutOfRangeException),
      Label(Continue(pos, "Continue3_1")),
      Cmp(EAX, Reg(EBX)),
      Jmp(JumpLessThan, Continue(pos, "Continue3_2")),
      Call(ThrowIndexOutOfRangeException),
      Label(Continue(pos, "Continue3_2")) ]
  }

  /**
   * Step 4.0-4.1: pop the value into ECX (and its high dword into EDX when 8
   * bytes wide), then the index into EBX. It pops exactly the dwords above the
   * array reference's slot, so the array reference ends on top.
   */
  function ValuePopCode(w: nat): (r: seq<ASMOp>)
    ensures 4 * |r| == ArrayRefDisp(w) && 4 * (|r| - 1) == IndexDisp(w)
    ensures r[|r| - 1] == Pop(Dword, Reg(EBX))
  {
    [Pop(Dword, Reg(ECX))]
    + (if w == 8 then [Pop(Dword, Reg(EDX))] else [])
    + [Pop(Dword, Reg(EBX))]
  }

  /** Steps 4.2-4.11: the element type's `Size` if it is a value type, else its `StackSize`, into EAX. */
  function ElementSizeCode(pos: int, arrayInfo: ArrayTypeInfo, offsets: TypeFieldOffsets): (r: seq<ASMOp>)
  {
    [ PageFaultDetection(ESP, 0),
      Mov(Dword, Mem(ESP, 0), Reg(EAX)),
      PageFaultDetection(EAX, arrayInfo.elemTypeOffset),
      Mov(Dword, Mem(EAX, arrayInfo.elemTypeOffset), Reg(EAX)),
      Push(Dword, Reg(EAX)),
      PageFaultDetection(EAX, offsets.IsValueType),
      Mov(Byte, Mem(EAX, offsets.IsValueType), Reg(AL)),
      Test(EAX, Imm(1)),
      Jmp(JumpZero, Continue(pos, "Continue4_1")),
      Pop(Dword, Reg(EAX)),
      PageFaultDetection(EAX, offsets.Size),
      Mov(Dword, Mem(EAX, offsets.Size), Reg(EAX)),
      Jmp(Jump, Continue(pos, "Continue4_2")),
      Label(Continue(pos, "Continue4_1")),
      Pop(Dword, Reg(EAX)),
      PageFaultDetection(EAX, offsets.StackSize),
      Mov(Dword, Mem(EAX, offsets.StackSize), Reg(EAX)),
      Label(Continue(pos, "Continue4_2")) ]
  }

  /**
   * Steps 4.12-4.13: index times element size, then the array reference
   * popped into EBX. `mul` overwrites EDX, and nothing here saves it.
   */
  function ScaleCode(): (r: seq<ASMOp>)
    ensures Mul(EBX) in r && Push(Dword, Reg(EDX)) !in r
    ensures r[|r| - 1] == Pop(Dword, Reg(EBX))
  {
    [Mul(EBX), Pop(Dword, Reg(EBX))]
  }

  /** Steps 4.14-4.15: skip the array object's own fields and add the scaled index. */
  function OffsetCode(allFieldsOffset: int): (r: seq<ASMOp>)
  {
    [Add(Imm(allFieldsOffset), Reg(EBX)), Add(Reg(EBX), Reg(EAX))]
  }

  /**
   * Step 5.1: the width-specific store through EAX: `w` bytes at the element's
   * address, in one store, or in two dword stores when `w` is 8.
   */
  function StoreCode(w: nat): seq<ASMOp>
  {
    if w == 8 then
      [ PageFaultDetection(EAX, 0), Mov(Dword, Reg(ECX), Mem(EAX, 0)),
        PageFaultDetection(EAX, 4), Mov(Dword, Reg(EDX), Mem(EAX, 4)) ]
    else if w == 4 then [PageFaultDetection(EAX, 0), Mov(Dword, Reg(ECX), Mem(EAX, 0))]
    else if w == 2 then [PageFaultDetection(EAX, 0), Mov(Word, Reg(CX), Mem(EAX, 0))]
    else if w == 1 then [PageFaultDetection(EAX, 0), Mov(Byte, Reg(CL), Mem(EAX, 0))]
    else []
  }

  /** Everything appended before `allFieldsOffset` is computed. */
  function CheckAndScaleCode(w: nat, pos: int, arrayInfo: ArrayTypeInfo, offsets: TypeFieldOffsets): seq<ASMOp>
  {
    NullCheckCode(w, pos) + (IndexCheckCode(w, pos, arrayInfo) + (ValuePopCode(w) + (ElementSizeCode(pos, arrayInfo, offsets) + ScaleCode())))
  }

  /** The whole sequence `Convert` appends for a store of width `w`: the null check first, the store last. */
  function StelemCode(w: nat, pos: int, arrayInfo: ArrayTypeInfo, offsets: TypeFieldOffsets, allFieldsOffset: int): (r: seq<ASMOp>)
  {
    CheckAndScaleCode(w, pos, arrayInfo, offsets) + (OffsetCode(allFieldsOffset) + StoreCode(w))
  }

  /**
   * The width `stelem.i8` evidently calls for: eight bytes, the layout the
   * displacements, the EDX pop and the two-dword store are written for.
   */
  function IntendedStoreWidth(op: OpCode): (w: nat)
    requires !IsFloat(op)
    ensures w == 8 <==> op == Stelem_I8
    ensures op != Stelem_I8 ==> w == StoreWidth(op)
  {
    if op == Stelem_I8 then 8 else StoreWidth(op)
  }

  /**
   * The scaling with EDX, the high dword of an 8-byte value, saved on the
   * machine stack across `mul`; for other widths the scaling as written.
   */
  function CorrectedScaleCode(w: nat): (r: seq<ASMOp>)
    ensures w != 8 ==> r == ScaleCode()
    ensures w == 8 ==> r == [Push(Dword, Reg(EDX))] + ScaleCode()[..1] + [Pop(Dword, Reg(EDX))] + ScaleCode()[1..]
  {
    if w == 8 then [Push(Dword, Reg(EDX)), Mul(EBX), Pop(Dword, Reg(EDX)), Pop(Dword, Reg(EBX))]
    else ScaleCode()
  }

  /** The emitted sequence with the corrected scaling: the emitted one for every width but 8, two ops longer for 8. */
  function CorrectedStelemCode(w: nat, pos: int, arrayInfo: ArrayTypeInfo, offsets: TypeFieldOffsets, allFieldsOffset: int): (r: seq<ASMOp>)
    ensures w != 8 ==> r == StelemCode(w, pos, arrayInfo, offsets, allFieldsOffset)
    ensures w == 8 ==> |r| == |StelemCode(w, pos, arrayInfo, offsets, allFieldsOffset)| + 2
  {
    NullCheckCode(w, pos) + (IndexCheckCode(w, pos, arrayInfo) + (ValuePopCode(w) +
    (ElementSizeCode(pos, arrayInfo, offsets) + (CorrectedScaleCode(w) + (OffsetCode(allFieldsOffset) + StoreCode(w))))))
  }

  /** The ops of `code` that write memory. */
  function MemoryWrites(code: seq<ASMOp>): (r: seq<ASMOp>)
    ensures forall i :: 0 <= i < |r| ==> r[i] in code && r[i].Mov? && r[i].dest.Mem?
    ensures forall op :: op in code && op.Mov? && op.dest.Mem? ==> op in r
    ensures (forall op :: op in code ==> !(op.Mov? && op.dest.Mem?)) ==> r == []
  {
    if code == [] then []
    else (if code[0].Mov? && code[0].dest.Mem? then [code[0]] else []) + MemoryWrites(code[1..])
  }

  lemma {:induction false} MemoryWritesAppend(a: seq<ASMOp>, b: seq<ASMOp>)
    ensures MemoryWrites(a + b) == MemoryWrites(a) + MemoryWrites(b)
  {
    if a == [] {
      assert a + b == b;
    } else {
      assert (a + b)[1..] == a[1..] + b;
      MemoryWritesAppend(a[1..], b);
    }
  }

  /** The store the opcode's width selects: CL for a byte, CX for a word, ECX for a dword. */
  function ExpectedStore(op: OpCode): ASMOp
  {
    match op
    case Stelem_I1 => Mov(Byte, Reg(CL), Mem(EAX, 0))
    case Stelem_I2 => Mov(Word, Reg(CX), Mem(EAX, 0))
    case _ => Mov(Dword, Reg(ECX), Mem(EAX, 0))
  }

  /** The checks, the element-size lookup and the scaling write nothing to memory. */
  lemma CheckAndScaleWritesNothing(w: nat, pos: int, arrayInfo: ArrayTypeInfo, offsets: TypeFieldOffsets)
    ensures MemoryWrites(CheckAndScaleCode(w, pos, arrayInfo, offsets)) == []
  {
    var n, c, v := NullCheckCode(w, pos), IndexCheckCode(w, pos, arrayInfo), ValuePopCode(w);
    var e, s := ElementSizeCode(pos, arrayInfo, offsets), ScaleCode();
    assert forall op: ASMOp :: op in n + c ==> !(op.Mov? && op.dest.Mem?);
    assert forall op: ASMOp :: op in v + (e + s) ==> !(op.Mov? && op.dest.Mem?);
  }

  /**
   * The emitted code writes memory exactly once, with the store the opcode
   * selects, and that store is its last op.
   */
  lemma SingleStore(op: OpCode, pos: int, arrayInfo: ArrayTypeInfo, offsets: TypeFieldOffsets, allFieldsOffset: int)
    requires !IsFloat(op)
    ensures MemoryWrites(StelemCode(StoreWidth(op), pos, arrayInfo, offsets, allFieldsOffset)) == [ExpectedStore(op)]
    ensures var code := StelemCode(StoreWidth(op), pos, arrayInfo, offsets, allFieldsOffset);
            code[|code| - 1] == ExpectedStore(op)
  {
    var w := StoreWidth(op);
    CheckAndScaleWritesNothing(w, pos, arrayInfo, offsets);
    StoreCodeWrites(op);
    OffsetCodeWritesNothing(allFieldsOffset);
    LastWrite(CheckAndScaleCode(w, pos, arrayInfo, offsets), OffsetCode(allFieldsOffset), StoreCode(w), ExpectedStore(op));
  }

  lemma OffsetCodeWritesNothing(allFieldsOffset: int)
    ensures MemoryWrites(OffsetCode(allFieldsOffset)) == []
  {
    var o := OffsetCode(allFieldsOffset);
    assert o[1..][1..] == [];
  }

  /** Code whose only write is the last op of its last piece. */
  lemma LastWrite(front: seq<ASMOp>, offset: seq<ASMOp>, store: seq<ASMOp>, s: ASMOp)
    requires MemoryWrites(front) == [] && MemoryWrites(offset) == [] && MemoryWrites(store) == [s]
    requires |store| > 0 && store[|store| - 1] == s
    ensures MemoryWrites(front + (offset + store)) == [s]
    ensures (front + (offset + store))[|front + (offset + store)| - 1] == s
  {
    MemoryWritesAppend(offset, store);
    MemoryWritesAppend(front, offset + store);
  }

  lemma StoreCodeWrites(op: OpCode)
    requires !IsFloat(op)
    ensures MemoryWrites(StoreCode(StoreWidth(op))) == [ExpectedStore(op)]
    ensures |StoreCode(StoreWidth(op))| == 2 && StoreCode(StoreWidth(op))[1] == ExpectedStore(op)
    ensures StoreCode(StoreWidth(op))[0].PageFaultDetection?
  {
    var store := StoreCode(StoreWidth(op));
    assert store[1..][1..] == [];
  }

  /** Whether `op` reads the slot [ESP+12] or pops EDX: what only the 8-byte layout would do. */
  predicate EightByteAccess(op: ASMOp)
  {
    op == Mov(Dword, Mem(ESP, 12), Reg(EAX)) || op == Mov(Dword, Mem(ESP, 12), Reg(EBX)) || op == Pop(Dword, Reg(EDX))
  }

  lemma CheckCodeFourByteLayout(w: nat, pos: int, arrayInfo: ArrayTypeInfo)
    requires w == 1 || w == 2 || w == 4
    ensures forall op :: op in NullCheckCode(w, pos) + IndexCheckCode(w, pos, arrayInfo) ==> !EightByteAccess(op)
  {
  }

  lemma RestFourByteLayout(w: nat, pos: int, arrayInfo: ArrayTypeInfo, offsets: TypeFieldOffsets)
    requires w == 1 || w == 2 || w == 4
    ensures forall op :: op in ValuePopCode(w) + (ElementSizeCode(pos, arrayInfo, offsets) + ScaleCode()) ==> !EightByteAccess(op)
  {
    assert forall op :: op in ValuePopCode(w) ==> !EightByteAccess(op);
    assert forall op :: op in ElementSizeCode(pos, arrayInfo, offsets) ==> !EightByteAccess(op);
  }

  lemma StoreFourByteLayout(w: nat, allFieldsOffset: int)
    requires w == 1 || w == 2 || w == 4
    ensures forall op :: op in OffsetCode(allFieldsOffset) + StoreCode(w) ==> !EightByteAccess(op)
  {
    assert forall op :: op in StoreCode(w) ==> !EightByteAccess(op);
  }

  /**
   * No reachable opcode takes the 8-byte layout: the array reference is
   * always loaded from [ESP+8] and the index from [ESP+4], [ESP+12] is never
   * read, and EDX is never popped.
   */
  lemma FourByteLayoutOnly(op: OpCode, pos: int, arrayInfo: ArrayTypeInfo, offsets: TypeFieldOffsets, allFieldsOffset: int)
    requires !IsFloat(op)
    ensures var code := StelemCode(StoreWidth(op), pos, arrayInfo, offsets, allFieldsOffset);
            && Mov(Dword, Mem(ESP, 8), Reg(EAX)) in code
            && Mov(Dword, Mem(ESP, 4), Reg(EAX)) in code
            && forall op' :: op' in code ==> !EightByteAccess(op')
  {
    var w := StoreWidth(op);
    assert NullCheckCode(w, pos)[1] == Mov(Dword, Mem(ESP, 8), Reg(EAX));
    assert IndexCheckCode(w, pos, arrayInfo)[1] == Mov(Dword, Mem(ESP, 4), Reg(EAX));
    CheckCodeFourByteLayout(w, pos, arrayInfo);
    RestFourByteLayout(w, pos, arrayInfo, offsets);
    StoreFourByteLayout(w, allFieldsOffset);
  }

  /** The compiler's per-method conversion state: the ops emitted so far and the virtual evaluation stack (top last). */
  class ILConversionState {
    var Output: seq<ASMOp>
    var Stack: seq<StackItem>

    constructor (stack: seq<StackItem>)
      ensures Output == [] && Stack == stack
    {
      Output := [];
      Stack := stack;
    }

    method Append(op: ASMOp)
      modifies this
      ensures Output == old(Output) + [op] && Stack == old(Stack)
    {
      Output := Output + [op];
    }

    /** A run of `Append` calls, one per op, in order. */
    method AppendAll(ops: seq<ASMOp>)
      modifies this
      ensures Output == old(Output) + ops && Stack == old(Stack)
    {
      var i := 0;
      while i < |ops|
        invariant 0 <= i <= |ops|
        invariant Output == old(Output) + ops[..i] && Stack == old(Stack)
      {
        Append(ops[i]);
        assert ops[..i + 1] == ops[..i] + [ops[i]];
        i := i + 1;
      }
      assert ops[..i] == ops;
    }

    /** `CurrentStackFrame.Stack.Pop()`. */
    method PopStack() returns (item: StackItem)
      requires |Stack| > 0
      modifies this
      ensures Stack + [item] == old(Stack) && Output == old(Output)
    {
      item := Stack[|Stack| - 1];
      Stack := Stack[..|Stack| - 1];
    }
  }

  /**
   * The part of `Convert` up to both field lookups: the null check, the
   * lookup of `elemType`, the index load, the lookup of `length` and the
   * rest of the index check. A failed lookup stops the emission there.
   */
  method NullAndIndexChecks(state: ILConversionState, w: nat, pos: int, arrayInfo: ArrayTypeInfo) returns (found: bool)
    modifies state
    ensures found <==> GetFieldInfo(arrayInfo.FieldInfos, "elemType").Some? && GetFieldInfo(arrayInfo.FieldInfos, "length").Some?
    ensures GetFieldInfo(arrayInfo.FieldInfos, "elemType").None? ==> state.Output == old(state.Output) + NullCheckCode(w, pos)
    ensures GetFieldInfo(arrayInfo.FieldInfos, "elemType").Some? && GetFieldInfo(arrayInfo.FieldInfos, "length").None? ==>
              state.Output == old(state.Output) + NullCheckCode(w, pos) + IndexCheckCode(w, pos, arrayInfo)[..2]
    ensures found ==> state.Output == old(state.Output) + (NullCheckCode(w, pos) + IndexCheckCode(w, pos, arrayInfo))
    ensures state.Stack == old(state.Stack)
  {
    state.AppendAll(NullCheckCode(w, pos));
    if GetFieldInfo(arrayInfo.FieldInfos, "elemType").None? {
      return false;
    }
    found := IndexCheck(state, IndexCheckCode(w, pos, arrayInfo), GetFieldInfo(arrayInfo.FieldInfos, "length").Some?);
  }

  /**
   * The index check's part of `NullAndIndexChecks`: the index load comes
   * before the lookup of `length`, the rest of `check` only when it succeeds.
   */
  method IndexCheck(state: ILConversionState, check: seq<ASMOp>, lengthFound: bool) returns (found: bool)
    requires |check| >= 2
    modifies state
    ensures found == lengthFound
    ensures !found ==> state.Output == old(state.Output) + check[..2]
    ensures found ==> state.Output == old(state.Output) + check
    ensures state.Stack == old(state.Stack)
  {
    state.AppendAll(check[..2]);
    if !lengthFound {
      return false;
    }
    state.AppendAll(check[2..]);
    assert check[..2] + check[2..] == check;
    return true;
  }

  /**
   * The part of `Convert` after both field lookups: the value and index pops,
   * the element-size lookup, the scaling, the offset and the store, then the
   * three pops off the virtual stack.
   */
  method AddressAndStore(state: ILConversionState, w: nat, pos: int, arrayInfo: ArrayTypeInfo, offsets: TypeFieldOffsets)
    requires |state.Stack| >= 3 && arrayInfo.FieldInfos != []
    modifies state
    ensures state.Output == old(state.Output) + (ValuePopCode(w) + (ElementSizeCode(pos, arrayInfo, offsets) + ScaleCode()))
                            + (OffsetCode(AllFieldsOffset(arrayInfo.FieldInfos)) + StoreCode(w))
    ensures state.Stack == old(state.Stack)[..|old(state.Stack)| - 3]
  {
    ghost var out0 := state.Output;
    state.AppendAll(ValuePopCode(w));
    state.AppendAll(ElementSizeCode(pos, arrayInfo, offsets));
    state.AppendAll(ScaleCode());
    assert state.Output == out0 + (ValuePopCode(w) + (ElementSizeCode(pos, arrayInfo, offsets) + ScaleCode()));
    var allFieldsOffset := AllFieldsOffset(arrayInfo.FieldInfos);
    state.AppendAll(OffsetCode(allFieldsOffset));
    state.AppendAll(StoreCode(w));
    ghost var stack0 := state.Stack;
    var _ := state.PopStack();
    var _ := state.PopStack();
    var _ := state.PopStack();
    assert state.Stack == stack0[..|stack0| - 3];
  }

  /** The checks and the address-and-store part, appended one after the other, make up `StelemCode`. */
  lemma StelemCodeAfter(prefix: seq<ASMOp>, w: nat, pos: int, arrayInfo: ArrayTypeInfo, offsets: TypeFieldOffsets, allFieldsOffset: int)
    ensures prefix + StelemCode(w, pos, arrayInfo, offsets, allFieldsOffset)
         == prefix + (NullCheckCode(w, pos) + IndexCheckCode(w, pos, arrayInfo))
            + (ValuePopCode(w) + (ElementSizeCode(pos, arrayInfo, offsets) + ScaleCode()))
            + (OffsetCode(allFieldsOffset) + StoreCode(w))
  {
  }

  /**
   * `Stelem.Convert`. The floating-point variants are refused before anything
   * is appended. Otherwise the null check is appended, `elemType` is looked
   * up, the index load is appended, `length` is looked up, and then the rest
   * of the checks, the address computation and the store follow in that
   * order; the value, the index and the array reference are popped off the
   * virtual stack. A failed lookup stops the conversion where it happens.
   */
  method Convert(state: ILConversionState, theOp: ILOp, arrayInfo: ArrayTypeInfo, offsets: TypeFieldOffsets)
    returns (result: ConvertResult)
    requires |state.Stack| >= 3
    modifies state
    ensures IsFloat(theOp.opCode) ==>
              result == NotSupported && state.Output == old(state.Output) && state.Stack == old(state.Stack)
    ensures !IsFloat(theOp.opCode) && GetFieldInfo(arrayInfo.FieldInfos, "elemType").None? ==>
              && result == FieldNotFound
              && state.Output == old(state.Output) + NullCheckCode(StoreWidth(theOp.opCode), theOp.position)
              && state.Stack == old(state.Stack)
    ensures !IsFloat(theOp.opCode) && GetFieldInfo(arrayInfo.FieldInfos, "elemType").Some?
            && GetFieldInfo(arrayInfo.FieldInfos, "length").None? ==>
              && result == FieldNotFound
              && state.Output == old(state.Output) + NullCheckCode(StoreWidth(theOp.opCode), theOp.position)
                 + IndexCheckCode(StoreWidth(theOp.opCode), theOp.position, arrayInfo)[..2]
              && state.Stack == old(state.Stack)
    ensures !IsFloat(theOp.opCode) && GetFieldInfo(arrayInfo.FieldInfos, "elemType").Some?
            && GetFieldInfo(arrayInfo.FieldInfos, "length").Some? ==>
              && result == Converted
              && arrayInfo.FieldInfos != []
              && state.Output == old(state.Output)
                 + StelemCode(StoreWidth(theOp.opCode), theOp.position, arrayInfo, offsets, AllFieldsOffset(arrayInfo.FieldInfos))
              && state.Stack == old(state.Stack)[..|old(state.Stack)| - 3]
  {
    if IsFloat(theOp.opCode) {
      return NotSupported;
    }
    var sizeToPop := StoreWidth(theOp.opCode);
    var pos := theOp.position;
    var found := NullAndIndexChecks(state, sizeToPop, pos, arrayInfo);
    if !found {
      return FieldNotFound;
    }
    AddressAndStore(state, sizeToPop, pos, arrayInfo, offsets);
    StelemCodeAfter(old(state.Output), sizeToPop, pos, arrayInfo, offsets, AllFieldsOffset(arrayInfo.FieldInfos));
    return Converted;
  }
}
