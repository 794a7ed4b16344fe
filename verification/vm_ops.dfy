/** The opcode table of the threaded-code VM: each `OpCode` is numbered by
    its position in the declaration, and numbers decode back to opcodes. */
module VmOps {

  datatype OpCode =
    | Lit | Dup | Swap | Rot | Drop | Clear | StackSize
    | Add | Subtract | Multiply | Divide
    | Equal | Less | Greater | Not
    | ToR | RFrom | RFetch
    | CreateList | Append | Prepend | Concat | SplitHead
    | CreateString | ToString | Utf8ToString | StringConcat
    | Apply | Return | Exit | Jump | JumpStack | Function
    | ScanValue | ScanValueList | ScanObjectList | LitStack | Compile

  datatype Error = InvalidOpCode(value: nat)

  /** The number of opcodes */
  const OP_COUNT: nat := 38

  /** `usize::from(OpCode)`: the declaration index */
  function Encode(op: OpCode): (n: nat)
    ensures n < OP_COUNT
  {
    match op
    case Lit => 0 case Dup => 1 case Swap => 2 case Rot => 3 case Drop => 4
    case Clear => 5 case StackSize => 6 case Add => 7 case Subtract => 8
    case Multiply => 9 case Divide => 10 case Equal => 11 case Less => 12
    case Greater => 13 case Not => 14 case ToR => 15 case RFrom => 16
    case RFetch => 17 case CreateList => 18 case Append => 19 case Prepend => 20
    case Concat => 21 case SplitHead => 22 case CreateString => 23
    case ToString => 24 case Utf8ToString => 25 case StringConcat => 26
    case Apply => 27 case Return => 28 case Exit => 29 case Jump => 30
    case JumpStack => 31 case Function => 32 case ScanValue => 33
    case ScanValueList => 34 case ScanObjectList => 35 case LitStack => 36
    case Compile => 37
  }

  /** `OpCode::try_from(usize)` */
  function Decode(value: nat): (r: Result<OpCode>)
    ensures r.Ok? <==> value < OP_COUNT
    ensures r.Err? ==> r.error == InvalidOpCode(value)
  {
    match value
    case 0 => Ok(Lit) case 1 => Ok(Dup) case 2 => Ok(Swap) case 3 => Ok(Rot)
    case 4 => Ok(Drop) case 5 => Ok(Clear) case 6 => Ok(StackSize)
    case 7 => Ok(Add) case 8 => Ok(Subtract) case 9 => Ok(Multiply)
    case 10 => Ok(Divide) case 11 => Ok(Equal) case 12 => Ok(Less)
    case 13 => Ok(Greater) case 14 => Ok(Not) case 15 => Ok(ToR)
    case 16 => Ok(RFrom) case 17 => Ok(RFetch) case 18 => Ok(CreateList)
    case 19 => Ok(Append) case 20 => Ok(Prepend) case 21 => Ok(Concat)
    case 22 => Ok(SplitHead) case 23 => Ok(CreateString) case 24 => Ok(ToString)
    case 25 => Ok(Utf8ToString) case 26 => Ok(StringConcat) case 27 => Ok(Apply)
    case 28 => Ok(Return) case 29 => Ok(Exit) case 30 => Ok(Jump)
    case 31 => Ok(JumpStack) case 32 => Ok(Function) case 33 => Ok(ScanValue)
    case 34 => Ok(ScanValueList) case 35 => Ok(ScanObjectList)
    case 36 => Ok(LitStack) case 37 => Ok(Compile)
    case _ => Err(InvalidOpCode(value))
  }

  datatype Result<T> = Ok(value: T) | Err(error: Error)

  /** Decoding an opcode's number gives the opcode back. */
  lemma DecodeEncode(op: OpCode)
    ensures Decode(Encode(op)) == Ok(op)
  {
  }

  /** Every number below 38 decodes to the opcode with that number; every
      larger number is an invalid opcode. */
  lemma EncodeDecode(value: nat)
    ensures value < OP_COUNT ==> Decode(value).Ok? && Encode(Decode(value).value) == value
    ensures value >= OP_COUNT ==> Decode(value) == Err(InvalidOpCode(value))
  {
  }

  /** Distinct numbers never decode to the same opcode. */
  lemma DecodeInjective(a: nat, b: nat)
    requires Decode(a).Ok? && Decode(a) == Decode(b)
    ensures a == b
  {
    EncodeDecode(a);
    EncodeDecode(b);
  }
}
