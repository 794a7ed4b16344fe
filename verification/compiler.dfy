/** The token-to-bytecode compiler: a `Program` accumulates constants and
    instructions (indices into an op table, found by name in an op map),
    and the `Compiler` walks a token stream appending to it. Each step is
    specified by a function on an `Image` of the program, and the
    compiler's methods are proved to follow those functions. */
module BytecodeCompiler {
  import opened Base
  import VmOps
  import ThreadedVm

  type OpFn = ThreadedVm.OpFn

  /** The values the compiler stores as constants (the list and string
      values of the VM are never created here) */
  datatype Value =
    | Integer(i: Int64)
    | Float(bits: bv64)
    | Boolean(b: bool)
    | Char(c: char)

  /** The token types the compiler sees. `Other` stands for every token
      type the compiler has no case for; `debug` is its Debug rendering. */
  datatype TokenType =
    | IntegerToken(i: Int64)
    | FloatToken(bits: bv64)
    | BooleanToken(b: bool)
    | CharToken(c: char)
    | Dup | Swap | Rot | Drop
    | ToR | RFrom | RFetch
    | Plus | Dash | Star | Slash
    | EqualEqual | BangEqual | Less | Greater | LessEqual | GreaterEqual | Bang
    | Word(word: string)
    | Other(debug: string)

  /** Compiler errors; `Upstream` stands for the errors the scanner puts
      in the token stream, which compilation passes through unchanged */
  datatype Error =
    | UnsupportedToken(message: string)
    | InvalidOperation(message: string)
    | Upstream(message: string)

  /** The contents of a program, as a clone of it holds them */
  datatype Image = Image(constants: seq<Value>, instructions: seq<nat>, opTable: seq<OpFn>, opMap: map<string, nat>)

  /** A program after a compilation step, and the error that stopped it */
  datatype Outcome = Outcome(image: Image, error: Option<Error>)

  // ---------------------------------------------------------------------
  // What each token compiles to

  /** The constant a literal token adds */
  function LiteralValue(t: TokenType): Option<Value>
  {
    if t.IntegerToken? then Some(Integer(t.i))
    else if t.FloatToken? then Some(Float(t.bits))
    else if t.BooleanToken? then Some(Boolean(t.b))
    else if t.CharToken? then Some(Char(t.c))
    else None
  }

  /** The op names an operator token is compiled to, in order; the
      negated comparisons take two */
  function OpNames(t: TokenType): seq<string>
  {
    match t
    case Dup => ["dup"]
    case Swap => ["swap"]
    case Rot => ["rot"]
    case Drop => ["drop"]
    case ToR => [">r"]
    case RFrom => ["r>"]
    case RFetch => ["r@"]
    case Plus => ["+"]
    case Dash => ["-"]
    case Star => ["*"]
    case Slash => ["/"]
    case EqualEqual => ["=="]
    case BangEqual => ["==", "!"]
    case Less => ["<"]
    case Greater => [">"]
    case LessEqual => [">", "!"]
    case GreaterEqual => ["<", "!"]
    case Bang => ["!"]
    case _ => []
  }

  /** `compile_op` for each name in turn, stopping at the first that the
      op map does not have */
  function EmitOps(img: Image, names: seq<string>): (r: Outcome)
    ensures r.image.constants == img.constants && r.image.opMap == img.opMap && r.image.opTable == img.opTable
    ensures img.instructions <= r.image.instructions
    ensures r.error.None? ==> |r.image.instructions| == |img.instructions| + |names|
    ensures r.error.Some? ==> r.error.value.InvalidOperation? && |r.image.instructions| < |img.instructions| + |names|
    decreases |names|
  {
    if names == [] then Outcome(img, None)
    else if names[0] !in img.opMap then
      Outcome(img, Some(InvalidOperation(names[0] + " operation not found")))
    else EmitOps(img.(instructions := img.instructions + [img.opMap[names[0]]]), names[1..])
  }

  /** A literal: the constant is added first, then `lit` and the
      constant's index are emitted, or the missing `lit` reported */
  function LiteralStep(img: Image, value: Value): Outcome
  {
    var added := img.(constants := img.constants + [value]);
    if "lit" in img.opMap then
      Outcome(added.(instructions := img.instructions + [img.opMap["lit"], |img.constants|]), None)
    else Outcome(added, Some(InvalidOperation("lit operation not found")))
  }

  /** `compile_token` */
  function TokenStep(img: Image, t: TokenType): (r: Outcome)
    ensures r.image.opMap == img.opMap && r.image.opTable == img.opTable
    ensures img.constants <= r.image.constants && img.instructions <= r.image.instructions
    ensures |r.image.constants| == |img.constants| + (if LiteralValue(t).Some? then 1 else 0)
    ensures t.Word? || t.Other? ==> r.error.Some? && r.image == img
  {
    if LiteralValue(t).Some? then LiteralStep(img, LiteralValue(t).value)
    else if t.Word? then Outcome(img, Some(UnsupportedToken("word: " + t.word)))
    else if t.Other? then Outcome(img, Some(UnsupportedToken(t.debug)))
    else EmitOps(img, OpNames(t))
  }

  /** `compile`: each token in turn, stopping at the first error, whether
      the token stream yields it or compiling a token does */
  function CompileAll(img: Image, tokens: seq<Result<TokenType, Error>>): (r: Outcome)
    ensures r.image.opMap == img.opMap && r.image.opTable == img.opTable
    ensures img.constants <= r.image.constants && img.instructions <= r.image.instructions
    ensures (exists i :: 0 <= i < |tokens| && tokens[i].Err?) ==> r.error.Some?
    decreases |tokens|
  {
    if tokens == [] then Outcome(img, None)
    else match tokens[0]
      case Err(e) => Outcome(img, Some(e))
      case Ok(t) =>
        var o := TokenStep(img, t);
        if o.error.Some? then o else CompileAll(o.image, tokens[1..])
  }

  // ---------------------------------------------------------------------
  // Properties of compilation

  /** The op indices of a run of names */
  function Indices(opMap: map<string, nat>, names: seq<string>): seq<nat>
    requires forall i :: 0 <= i < |names| ==> names[i] in opMap
  {
    if names == [] then [] else [opMap[names[0]]] + Indices(opMap, names[1..])
  }

  /** Emitting ops appends their indices when all are mapped, and fails
      otherwise; it touches nothing but the instructions. */
  lemma {:induction false} EmitOpsSpec(img: Image, names: seq<string>)
    ensures EmitOps(img, names).image.constants == img.constants
    ensures EmitOps(img, names).image.opMap == img.opMap && EmitOps(img, names).image.opTable == img.opTable
    ensures EmitOps(img, names).error.None? <==> forall i :: 0 <= i < |names| ==> names[i] in img.opMap
    ensures (forall i :: 0 <= i < |names| ==> names[i] in img.opMap) ==>
      EmitOps(img, names).image.instructions == img.instructions + Indices(img.opMap, names)
    decreases |names|
  {
    if names != [] && names[0] in img.opMap {
      var next := img.(instructions := img.instructions + [img.opMap[names[0]]]);
      EmitOpsSpec(next, names[1..]);
      assert forall i :: 1 <= i < |names| ==> names[1..][i - 1] == names[i];
    }
  }

  /** When names[k] is the first unmapped name, the names before it are
      emitted and it is reported. */
  lemma {:induction false} EmitOpsFirstMissing(img: Image, names: seq<string>, k: nat)
    requires k < |names| && names[k] !in img.opMap
    requires forall i :: 0 <= i < k ==> names[i] in img.opMap
    ensures EmitOps(img, names) == Outcome(img.(instructions := img.instructions + Indices(img.opMap, names[..k])),
                                           Some(InvalidOperation(names[k] + " operation not found")))
    decreases k
  {
    if k == 0 {
      assert names[..0] == [];
    } else {
      var next := img.(instructions := img.instructions + [img.opMap[names[0]]]);
      assert names[1..][k - 1] == names[k];
      assert forall i :: 0 <= i < k - 1 ==> names[1..][i] == names[i + 1];
      EmitOpsFirstMissing(next, names[1..], k - 1);
      assert names[1..][..k - 1] == names[..k][1..];
      assert img.instructions + Indices(img.opMap, names[..k])
        == next.instructions + Indices(img.opMap, names[1..][..k - 1]);
    }
  }

  /** A literal adds exactly one constant and emits `lit` and that
      constant's index, so the operand names the literal's value. */
  lemma LiteralEmits(img: Image, t: TokenType)
    requires LiteralValue(t).Some?
    ensures TokenStep(img, t).image.constants == img.constants + [LiteralValue(t).value]
    ensures TokenStep(img, t).image.constants[|img.constants|] == LiteralValue(t).value
    ensures "lit" in img.opMap ==>
      TokenStep(img, t).error.None?
      && TokenStep(img, t).image.instructions == img.instructions + [img.opMap["lit"], |img.constants|]
    ensures "lit" !in img.opMap ==>
      TokenStep(img, t).error == Some(InvalidOperation("lit operation not found"))
      && TokenStep(img, t).image.instructions == img.instructions
  {
  }

  /** `!=` compiles to `==` followed by `!`. */
  lemma BangEqualExpands(img: Image)
    requires "==" in img.opMap && "!" in img.opMap
    ensures TokenStep(img, BangEqual) == Outcome(img.(instructions := img.instructions + [img.opMap["=="], img.opMap["!"]]), None)
  {
    OperatorStep(img, BangEqual);
    EmitTwo(img, "==", "!");
  }

  /** `<=` compiles to `>` followed by `!`. */
  lemma LessEqualExpands(img: Image)
    requires ">" in img.opMap && "!" in img.opMap
    ensures TokenStep(img, LessEqual) == Outcome(img.(instructions := img.instructions + [img.opMap[">"], img.opMap["!"]]), None)
  {
    OperatorStep(img, LessEqual);
    EmitTwo(img, ">", "!");
  }

  /** `>=` compiles to `<` followed by `!`. */
  lemma GreaterEqualExpands(img: Image)
    requires "<" in img.opMap && "!" in img.opMap
    ensures TokenStep(img, GreaterEqual) == Outcome(img.(instructions := img.instructions + [img.opMap["<"], img.opMap["!"]]), None)
  {
    OperatorStep(img, GreaterEqual);
    EmitTwo(img, "<", "!");
  }

  /** An operator token compiles to its op names. */
  lemma OperatorStep(img: Image, t: TokenType)
    requires LiteralValue(t).None? && !t.Word? && !t.Other?
    ensures TokenStep(img, t) == EmitOps(img, OpNames(t))
  {
  }

  lemma EmitTwo(img: Image, a: string, b: string)
    requires a in img.opMap && b in img.opMap
    ensures EmitOps(img, [a, b]) == Outcome(img.(instructions := img.instructions + [img.opMap[a], img.opMap[b]]), None)
  {
    var one := img.(instructions := img.instructions + [img.opMap[a]]);
    assert [a, b][1..] == [b] && [b][1..] == [];
    assert EmitOps(img, [a, b]) == EmitOps(one, [b]);
    var two := one.(instructions := one.instructions + [img.opMap[b]]);
    assert EmitOps(one, [b]) == EmitOps(two, []);
    assert two.instructions == img.instructions + [img.opMap[a], img.opMap[b]];
  }

  /** A word token, or any token type without a case, is unsupported and
      changes nothing. */
  lemma UnsupportedTokens(img: Image, w: string, debug: string)
    ensures TokenStep(img, Word(w)) == Outcome(img, Some(UnsupportedToken("word: " + w)))
    ensures TokenStep(img, Other(debug)) == Outcome(img, Some(UnsupportedToken(debug)))
  {
  }

  /** An operator whose name the op map lacks is an InvalidOperation
      naming it. */
  lemma UnmappedOp(img: Image, t: TokenType)
    requires |OpNames(t)| == 1 && OpNames(t)[0] !in img.opMap
    ensures TokenStep(img, t) == Outcome(img, Some(InvalidOperation(OpNames(t)[0] + " operation not found")))
  {
  }

  /** Compiling a concatenation compiles the first part and, only if it
      succeeded, goes on with the second. */
  lemma {:induction false} CompileAppend(img: Image, a: seq<Result<TokenType, Error>>, b: seq<Result<TokenType, Error>>)
    ensures CompileAll(img, a).error.Some? ==> CompileAll(img, a + b) == CompileAll(img, a)
    ensures CompileAll(img, a).error.None? ==> CompileAll(img, a + b) == CompileAll(CompileAll(img, a).image, b)
    decreases |a|
  {
    if a != [] {
      assert (a + b)[0] == a[0] && (a + b)[1..] == a[1..] + b;
      if a[0].Ok? && TokenStep(img, a[0].value).error.None? {
        CompileAppend(TokenStep(img, a[0].value).image, a[1..], b);
      }
    } else {
      assert a + b == b;
    }
  }

  /** An error in the token stream stops compilation there: what follows
      it is never compiled. */
  lemma CompileStops(img: Image, before: seq<Result<TokenType, Error>>, e: Error, after: seq<Result<TokenType, Error>>)
    requires CompileAll(img, before).error.None?
    ensures CompileAll(img, before + [Err(e)] + after) == Outcome(CompileAll(img, before).image, Some(e))
  {
    var rest := [Err(e)] + after;
    assert before + [Err(e)] + after == before + rest;
    CompileAppend(img, before, rest);
    StreamError(CompileAll(img, before).image, rest);
  }

  lemma StreamError(img: Image, tokens: seq<Result<TokenType, Error>>)
    requires tokens != [] && tokens[0].Err?
    ensures CompileAll(img, tokens) == Outcome(img, Some(tokens[0].error))
  {
  }

  /** Compilation only appends: the constants and instructions before it
      are kept as prefixes, and the op table and map are untouched. */
  lemma {:induction false} CompileAppends(img: Image, tokens: seq<Result<TokenType, Error>>)
    ensures var r := CompileAll(img, tokens).image;
      r.opTable == img.opTable && r.opMap == img.opMap
      && |img.constants| <= |r.constants| && r.constants[..|img.constants|] == img.constants
      && |img.instructions| <= |r.instructions| && r.instructions[..|img.instructions|] == img.instructions
    decreases |tokens|
  {
    if tokens != [] && tokens[0].Ok? {
      var t := tokens[0].value;
      var o := TokenStep(img, t);
      StepAppends(img, t);
      if o.error.None? {
        CompileAppends(o.image, tokens[1..]);
        var r := CompileAll(o.image, tokens[1..]).image;
        assert r.constants[..|img.constants|] == r.constants[..|o.image.constants|][..|img.constants|];
        assert r.instructions[..|img.instructions|] == r.instructions[..|o.image.instructions|][..|img.instructions|];
      }
    }
  }

  lemma StepAppends(img: Image, t: TokenType)
    ensures var r := TokenStep(img, t).image;
      r.opTable == img.opTable && r.opMap == img.opMap
      && |img.constants| <= |r.constants| && r.constants[..|img.constants|] == img.constants
      && |img.instructions| <= |r.instructions| && r.instructions[..|img.instructions|] == img.instructions
  {
    if LiteralValue(t).None? && !t.Word? && !t.Other? {
      OperatorStep(img, t);
      EmitOpsSpec(img, OpNames(t));
    }
  }

  /** A token the compiler handles with every op name it needs mapped */
  predicate Compilable(opMap: map<string, nat>, t: Result<TokenType, Error>)
  {
    t.Ok? && !t.value.Word? && !t.value.Other?
    && (LiteralValue(t.value).Some? ==> "lit" in opMap)
    && forall i :: 0 <= i < |OpNames(t.value)| ==> OpNames(t.value)[i] in opMap
  }

  /** The instructions a token emits: two for a literal, one per op name */
  function Width(t: TokenType): nat
  {
    if LiteralValue(t).Some? then 2 else |OpNames(t)|
  }

  function TotalWidth(tokens: seq<Result<TokenType, Error>>): nat
    requires forall i :: 0 <= i < |tokens| ==> tokens[i].Ok?
  {
    if tokens == [] then 0 else Width(tokens[0].value) + TotalWidth(tokens[1..])
  }

  function LiteralCount(tokens: seq<Result<TokenType, Error>>): nat
    requires forall i :: 0 <= i < |tokens| ==> tokens[i].Ok?
  {
    if tokens == [] then 0
    else (if LiteralValue(tokens[0].value).Some? then 1 else 0) + LiteralCount(tokens[1..])
  }

  /** A stream of compilable tokens compiles without error, adding one
      constant per literal and the instructions each token is worth. */
  lemma {:induction false} CompileSizes(img: Image, tokens: seq<Result<TokenType, Error>>)
    requires forall i :: 0 <= i < |tokens| ==> tokens[i].Ok? && Compilable(img.opMap, tokens[i])
    ensures CompileAll(img, tokens).error.None?
    ensures |CompileAll(img, tokens).image.constants| == |img.constants| + LiteralCount(tokens)
    ensures |CompileAll(img, tokens).image.instructions| == |img.instructions| + TotalWidth(tokens)
    decreases |tokens|
  {
    if tokens != [] {
      var t := tokens[0].value;
      StepSize(img, t);
      var o := TokenStep(img, t);
      assert forall i :: 0 <= i < |tokens[1..]| ==> Compilable(o.image.opMap, tokens[1..][i]) by {
        StepAppends(img, t);
        forall i | 0 <= i < |tokens[1..]|
          ensures Compilable(o.image.opMap, tokens[1..][i])
        {
          assert tokens[1..][i] == tokens[i + 1];
        }
      }
      CompileSizes(o.image, tokens[1..]);
    }
  }

  lemma StepSize(img: Image, t: TokenType)
    requires Compilable(img.opMap, Ok(t))
    ensures TokenStep(img, t).error.None?
    ensures |TokenStep(img, t).image.constants| == |img.constants| + (if LiteralValue(t).Some? then 1 else 0)
    ensures |TokenStep(img, t).image.instructions| == |img.instructions| + Width(t)
  {
    EmitOpsSpec(img, OpNames(t));
    if LiteralValue(t).None? {
      IndicesLength(img.opMap, OpNames(t));
    }
  }

  lemma {:induction false} IndicesLength(opMap: map<string, nat>, names: seq<string>)
    requires forall i :: 0 <= i < |names| ==> names[i] in opMap
    ensures |Indices(opMap, names)| == |names|
    decreases |names|
  {
    if names != [] {
      IndicesLength(opMap, names[1..]);
    }
  }

  // ---------------------------------------------------------------------
  // The program

  class Program {
    var constants: seq<Value>
    var instructions: seq<nat>
    var opTable: seq<OpFn>
    var opMap: map<string, nat>

    /** What a clone of the program holds */
    function Snapshot(): Image
      reads this
    {
      Image(constants, instructions, opTable, opMap)
    }

    constructor New()
      ensures Snapshot() == Image([], [], [], map[])
    {
      constants := [];
      instructions := [];
      opTable := [];
      opMap := map[];
    }

    /** Appends a constant and returns its index, under which it can be
        read back */
    method AddConstant(value: Value) returns (index: nat)
      modifies this
      ensures Snapshot() == old(Snapshot()).(constants := old(constants) + [value])
      ensures index == |old(constants)| && GetConstant(index) == Some(value)
    {
      constants := constants + [value];
      index := |constants| - 1;
    }

    /** The constant at an index, or None past the end */
    function GetConstant(index: nat): (r: Option<Value>)
      reads this
      ensures r.None? <==> index >= |constants|
      ensures r.Some? ==> r.value == constants[index]
    {
      if index < |constants| then Some(constants[index]) else None
    }

    method AddInstruction(opIndex: nat)
      modifies this
      ensures Snapshot() == old(Snapshot()).(instructions := old(instructions) + [opIndex])
    {
      instructions := instructions + [opIndex];
    }

    /** Appends an opcode's number, which decodes back to the opcode */
    method AddOp(op: VmOps.OpCode)
      modifies this
      ensures Snapshot() == old(Snapshot()).(instructions := old(instructions) + [VmOps.Encode(op)])
      ensures VmOps.Decode(instructions[|instructions| - 1]) == VmOps.Ok(op)
    {
      instructions := instructions + [VmOps.Encode(op)];
      VmOps.DecodeEncode(op);
    }

    /** Appends exactly two entries: the opcode's number, then its argument */
    method AddOpArg(op: VmOps.OpCode, arg: nat)
      modifies this
      ensures Snapshot() == old(Snapshot()).(instructions := old(instructions) + [VmOps.Encode(op), arg])
      ensures |instructions| == |old(instructions)| + 2
      ensures VmOps.Decode(instructions[|instructions| - 2]) == VmOps.Ok(op) && instructions[|instructions| - 1] == arg
    {
      instructions := instructions + [VmOps.Encode(op), arg];
      VmOps.DecodeEncode(op);
    }

    method SetOpTable(table: seq<OpFn>)
      modifies this
      ensures Snapshot() == old(Snapshot()).(opTable := table)
    {
      opTable := table;
    }

    method SetOpMap(m: map<string, nat>)
      modifies this
      ensures Snapshot() == old(Snapshot()).(opMap := m)
    {
      opMap := m;
    }

    /** The index the op map gives a name, if any */
    function GetOpIndex(name: string): (r: Option<nat>)
      reads this
      ensures r.Some? <==> name in opMap
      ensures r.Some? ==> r.value == opMap[name]
    {
      if name in opMap then Some(opMap[name]) else None
    }

    /** A name the op map sends to `opCode`, or None when there is none.
        The map's iteration order is unspecified, so when several names
        share the index any one of them may come back. */
    method GetOpName(opCode: nat) returns (name: Option<string>)
      ensures name.Some? ==> name.value in opMap && opMap[name.value] == opCode
      ensures name.None? <==> forall n :: n in opMap ==> opMap[n] != opCode
    {
      var left := opMap.Keys;
      while left != {}
        invariant left <= opMap.Keys
        invariant forall n :: n in opMap && n !in left ==> opMap[n] != opCode
        decreases left
      {
        var n :| n in left;
        if opMap[n] == opCode {
          return Some(n);
        }
        left := left - {n};
      }
      name := None;
    }

    /** The instruction at `ip`, or None at or past the end */
    function GetInstruction(ip: nat): (r: Option<nat>)
      reads this
      ensures r.None? <==> ip >= |instructions|
      ensures r.Some? ==> r.value == instructions[ip]
    {
      if ip < |instructions| then Some(instructions[ip]) else None
    }

    /** The operation at a table index, or None past the end */
    function GetOp(index: nat): (r: Option<OpFn>)
      reads this
      ensures r.None? <==> index >= |opTable|
      ensures r.Some? ==> r.value == opTable[index]
    {
      if index < |opTable| then Some(opTable[index]) else None
    }
  }

  // ---------------------------------------------------------------------
  // The compiler

  class Compiler {
    const program: Program

    /** A compiler over an empty program with the given op table and map */
    constructor New(opTable: seq<OpFn>, opMap: map<string, nat>)
      ensures fresh(program)
      ensures program.Snapshot() == Image([], [], opTable, opMap)
    {
      var p := new Program.New();
      p.SetOpTable(opTable);
      p.SetOpMap(opMap);
      program := p;
    }

    /** `compile_op`: emits the op's index, or reports the name missing */
    method CompileOp(name: string) returns (error: Option<Error>)
      modifies program
      ensures Outcome(program.Snapshot(), error) == EmitOps(old(program.Snapshot()), [name])
    {
      var index := program.GetOpIndex(name);
      if index.None? {
        return Some(InvalidOperation(name + " operation not found"));
      }
      program.AddInstruction(index.value);
      error := None;
    }

    /** `compile_integer`, `compile_float`, `compile_boolean` and
        `compile_char`, which differ only in the constant's kind */
    method CompileLiteral(value: Value) returns (error: Option<Error>)
      modifies program
      ensures Outcome(program.Snapshot(), error) == LiteralStep(old(program.Snapshot()), value)
    {
      var constIndex := program.AddConstant(value);
      var litIndex := program.GetOpIndex("lit");
      if litIndex.None? {
        return Some(InvalidOperation("lit operation not found"));
      }
      program.AddInstruction(litIndex.value);
      program.AddInstruction(constIndex);
      error := None;
    }

    /** Compiles the op names in turn, stopping at the first error */
    method CompileOps(names: seq<string>) returns (error: Option<Error>)
      modifies program
      ensures Outcome(program.Snapshot(), error) == EmitOps(old(program.Snapshot()), names)
    {
      var i := 0;
      while i < |names|
        invariant 0 <= i <= |names|
        invariant EmitOps(old(program.Snapshot()), names) == EmitOps(program.Snapshot(), names[i..])
      {
        assert names[i..][1..] == names[i + 1..];
        error := CompileOp(names[i]);
        if error.Some? {
          return;
        }
        i := i + 1;
      }
      error := None;
    }

    /** `compile_token` */
    method CompileToken(t: TokenType) returns (error: Option<Error>)
      modifies program
      ensures Outcome(program.Snapshot(), error) == TokenStep(old(program.Snapshot()), t)
    {
      var literal := LiteralValue(t);
      if literal.Some? {
        error := CompileLiteral(literal.value);
      } else if t.Word? {
        error := Some(UnsupportedToken("word: " + t.word));
      } else if t.Other? {
        error := Some(UnsupportedToken(t.debug));
      } else {
        error := CompileOps(OpNames(t));
      }
    }

    /** `compile`: compiles the tokens in order, stopping at the first
        error, and otherwise returns a clone of the program */
    method Compile(tokens: seq<Result<TokenType, Error>>) returns (r: Result<Image, Error>)
      modifies program
      ensures var o := CompileAll(old(program.Snapshot()), tokens);
        program.Snapshot() == o.image
        && r == (if o.error.Some? then Err(o.error.value) else Ok(o.image))
    {
      var i := 0;
      while i < |tokens|
        invariant 0 <= i <= |tokens|
        invariant CompileAll(old(program.Snapshot()), tokens) == CompileAll(program.Snapshot(), tokens[i..])
      {
        assert tokens[i..][0] == tokens[i] && tokens[i..][1..] == tokens[i + 1..];
        if tokens[i].Err? {
          return Err(tokens[i].error);
        }
        var error := CompileToken(tokens[i].value);
        if error.Some? {
          return Err(error.value);
        }
        i := i + 1;
      }
      r := Ok(program.Snapshot());
    }
  }
}
