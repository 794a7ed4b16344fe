/** The one-byte opcodes of the bytecode VM: `OpCode` is `repr(u8)`
    numbered from 0 in declaration order, and a byte decodes back. */
module ByteOpCode {

  newtype u8 = x: int | 0 <= x < 256

  datatype OpCode =
    | GetConstant | Add | Sub | Mult | Div | Not
    | Equal | Less | Greater | Jump | Return

  datatype Error = InvalidOpCode(code: u8)

  datatype Result<T> = Ok(value: T) | Err(error: Error)

  /** The number of opcodes */
  const OP_COUNT: u8 := 11

  /** `op as u8`: the declaration index */
  function Encode(op: OpCode): (b: u8)
    ensures b < OP_COUNT
  {
    match op
    case GetConstant => 0 case Add => 1 case Sub => 2 case Mult => 3
    case Div => 4 case Not => 5 case Equal => 6 case Less => 7
    case Greater => 8 case Jump => 9 case Return => 10
  }

  /** `OpCode::try_from(u8)` */
  function Decode(value: u8): (r: Result<OpCode>)
    ensures r.Ok? <==> value < OP_COUNT
    ensures r.Ok? ==> Encode(r.value) == value
    ensures r.Err? ==> r.error == InvalidOpCode(value)
  {
    match value
    case 0 => Ok(GetConstant) case 1 => Ok(Add) case 2 => Ok(Sub)
    case 3 => Ok(Mult) case 4 => Ok(Div) case 5 => Ok(Not)
    case 6 => Ok(Equal) case 7 => Ok(Less) case 8 => Ok(Greater)
    case 9 => Ok(Jump) case 10 => Ok(Return)
    case code => Err(InvalidOpCode(code))
  }

  /** Decoding an opcode's byte gives the opcode back. */
  lemma DecodeEncode(op: OpCode)
    ensures Decode(Encode(op)) == Ok(op)
  {
  }

  /** Every byte below 11 decodes to the opcode with that byte; every
      other byte is an invalid opcode carrying that byte. */
  lemma EncodeDecode(value: u8)
    ensures value < OP_COUNT ==> Decode(value).Ok? && Encode(Decode(value).value) == value
    ensures value >= OP_COUNT ==> Decode(value) == Err(InvalidOpCode(value))
  {
  }

  /** Distinct bytes never decode to the same opcode. */
  lemma DecodeInjective(a: u8, b: u8)
    requires Decode(a).Ok? && Decode(a) == Decode(b)
    ensures a == b
  {
    EncodeDecode(a);
    EncodeDecode(b);
  }

  /** The decoding of a few bytes, among them the out-of-range 177 */
  lemma DecodeExamples()
    ensures Decode(0) == Ok(GetConstant) && Decode(4) == Ok(Div) && Decode(10) == Ok(Return)
    ensures Decode(177) == Err(InvalidOpCode(177))
  {
  }
}
