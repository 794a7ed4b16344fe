/** A chunk of bytecode: a constant pool and a byte string of
    opcode/parameter pairs. The constants' type is a parameter, since the
    values the bytecode VM works on are not part of this model. */
module Chunks {
  import opened ByteOpCode

  class Chunk<V> {
    var constants: seq<V>
    var code: seq<u8>

    /** `Chunk::new`: nothing in either part */
    constructor New()
      ensures constants == [] && code == []
    {
      constants := [];
      code := [];
    }

    /** `add_constant`: appends the value and returns its index */
    method AddConstant(value: V) returns (index: nat)
      modifies this
      ensures constants == old(constants) + [value] && code == old(code)
      ensures index == |old(constants)| && index < |constants| && constants[index] == value
    {
      constants := constants + [value];
      index := |constants| - 1;
    }

    /** `push_op_code`: appends the opcode's byte and then the parameter,
        so the byte at the old end decodes back to the opcode */
    method PushOpCode(op: OpCode, param: u8)
      modifies this
      ensures code == old(code) + [Encode(op), param] && constants == old(constants)
      ensures Decode(code[|old(code)|]) == Ok(op) && code[|old(code)| + 1] == param
    {
      code := code + [Encode(op)];
      code := code + [param];
      DecodeEncode(op);
    }
  }

  /** A first constant gets index 0 and is what the pool holds. */
  method AddConstantExample<V>(c: V) returns (index: nat, constants: seq<V>)
    ensures index == 0 && constants == [c]
  {
    var chunk := new Chunk<V>.New();
    index := chunk.AddConstant(c);
    constants := chunk.constants;
  }

  /** The first constant pushed with `GetConstant` gives the code `[0, 0]`. */
  method PushOpCodeExample<V>(c: V) returns (code: seq<u8>)
    ensures code == [0, 0]
  {
    var chunk := new Chunk<V>.New();
    var index := chunk.AddConstant(c);
    chunk.PushOpCode(GetConstant, index as u8);
    code := chunk.code;
  }
}
