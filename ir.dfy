/**
 * The part of an LLVM module the analyses read: functions keyed by name, their
 * instruction lists, instruction operands and the static types of pointers.
 * Facts that LLVM computes itself (`onlyReadsMemory`, `mayThrow`, `mayReturn`
 * and the printed form of a non-pointer type) are stored as given fields.
 */
module Ir {

  /**
   * A static type. A pointer names its pointee; a struct type and every other
   * type (integers, floats, arrays, vectors, functions) carry the text LLVM's
   * type printer produces for them, such as "%struct.JNINativeInterface_",
   * "i32" or "[5 x i8]".
   */
  datatype Type =
    | Ptr(pointee: Type)
    | Struct(printed: string)
    | Leaf(printed: string)

  /** `Type::print`: a pointer prints as its pointee followed by a star. */
  function Render(t: Type): string
  {
    match t
    case Ptr(p) => Render(p) + "*"
    case Struct(s) => s
    case Leaf(s) => s
  }

  /** The pointer operand type of an address computation is always a pointer. */
  type PointerType = t: Type | t.Ptr? witness Ptr(Leaf("i8"))

  /** One index operand of a `getelementptr`: a constant (zero-extended) or not. */
  datatype Index = ConstIdx(value: nat) | VarIdx

  /**
   * A `getelementptr` instruction seen through one of its users: the type of
   * its pointer operand and its index operands. Its operand list is the base
   * pointer followed by the indices, so operand 2 is `indices[1]`.
   */
  datatype Gep = Gep(base: PointerType, indices: seq<Index>)
  {
    function NumOperands(): nat
    {
      1 + |indices|
    }

    /** `hasAllZeroIndices`: every index is the constant zero. */
    predicate AllZeroIndices()
    {
      forall k :: 0 <= k < |indices| ==> indices[k] == ConstIdx(0)
    }
  }

  /** An operand value: a global variable, a `getelementptr` result, or anything else. */
  datatype Value = GlobalVar(name: string) | GepRef(gep: Gep) | OtherValue

  datatype CastKind = IntToPtr | PtrToInt | OtherCast

  /**
   * The opcode of an instruction. A `call` names its callee (`None` for an
   * indirect call or a call to a null function) and the type of its first
   * argument. An `invoke` is a different instruction class from `call`.
   */
  datatype Opcode =
    | Call(callee: Option<string>, firstArg: Type)
    | Invoke(callee: Option<string>)
    | Cast(kind: CastKind)
    | GetElementPtr
    | OtherOp

  datatype Inst = Inst(op: Opcode, operands: seq<Value>, mayThrow: bool, mayReturn: bool)

  /** A function either has a body in this module or is only declared. */
  datatype Function =
    | Declaration(readOnly: bool)
    | Definition(readOnly: bool, body: seq<Inst>)

  datatype Option<T> = None | Some(value: T)

  /** The module's functions, keyed by name. */
  type Program = map<string, Function>

  /** The instructions `inst_begin`..`inst_end` visit: none for a declaration. */
  function Body(f: Function): seq<Inst>
  {
    if f.Definition? then f.body else []
  }
}
