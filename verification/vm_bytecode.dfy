/** The bytecode VM and its stack built-ins: opcode bytes with inline
    operands, a data stack, a call stack and an instruction pointer.

    This generation of the VM uses opcodes and value kinds that the opcode
    table and value type beside it do not have, so those are stand-ins
    here: the byte decoder, the arithmetic on values, their equality and
    their partial ordering are parameters (`Semantics`). Indexing out of bounds, which
    panics, is the error `Panic`. `execute` may loop forever, so it is run
    for at most a given number of instructions. */
module BytecodeVm {
  import opened Base
  import ByteOpCode
  import Values

  type u8 = ByteOpCode.u8

  /** The values this VM handles directly; `Opaque` stands for the others
      (floats, rationals, strings), whose equality is a parameter */
  datatype Value =
    | Integer(i: Int64)
    | Boolean(b: bool)
    | Address(addr: nat)
    | Lambda(name: string, ip: nat)
    | Opaque(id: nat)

  /** The opcodes this VM dispatches */
  datatype Op =
    | GetConstant | Add | Sub | Mult | Div | Modulo
    | Equal | Not | Less | Greater
    | Jump | MarkJump | CallTardiFn
    | ToCallStack | FromCallStack | CopyCallStack
    | Drop | Swap | IP | Return

  predicate IsArithmetic(op: Op)
  {
    op.Add? || op.Sub? || op.Mult? || op.Div? || op.Modulo?
  }

  datatype Error =
    | StackUnderflow
    | InvalidOpCode(code: u8)
    | InvalidValueType(value: Value)
    | UncallableObject(value: Value)
    | ArithmeticError(reason: nat)
    | Panic                     // an index out of bounds

  /** The collaborators this generation relies on: `OpCode::try_from`,
      the arithmetic operators on values, `PartialEq` and `PartialOrd` on
      values */
  datatype Semantics = Semantics(
    decode: u8 -> Option<Op>,
    arithmetic: (Op, Value, Value) -> Result<Value, Error>,
    equal: (Value, Value) -> bool,
    compare: (Value, Value) -> Option<Values.Ordering>)

  /** The derived `PartialEq`: values of different kinds are unequal and
      values this VM handles directly compare by their contents; only two
      stand-ins (two floats, say, where NaN is unequal to itself) are left
      to the parameter. */
  ghost predicate DerivedEquality(sem: Semantics)
  {
    forall a: Value, b: Value ::
      !(a.Opaque? && b.Opaque?) ==> (sem.equal(a, b) <==> a == b)
  }

  /** The stack built-ins */
  datatype Builtin = Call | DropIt | Dup | Nip | PopIt | Over | Rot | SwapIt

  /** A chunk as this VM reads it */
  datatype Chunk = Chunk(code: seq<u8>, constants: seq<Value>, builtins: seq<Builtin>)

  datatype State = State(ip: nat, stack: seq<Value>, callStack: seq<Value>)

  /** After one instruction: go on to the next one, go on where the
      instruction moved the pointer, stop normally, or stop with an error */
  datatype Status = Proceed | Jumped | Halt | Fault(error: Error)

  datatype Next = Next(state: State, status: Status)

  function Last(s: seq<Value>): Value
    requires s != []
  {
    s[|s| - 1]
  }

  function Init(s: seq<Value>): seq<Value>
    requires s != []
  {
    s[..|s| - 1]
  }

  /** `usize` arithmetic on the instruction pointer wraps around */
  function WrapUsize(n: int): nat
  {
    n % TWO_64
  }

  // ---------------------------------------------------------------------
  // Built-ins (`define_builtins`)

  /** The effect of a built-in on the machine, and its error if any */
  function BuiltinEffect(b: Builtin, st: State): (r: (State, Option<Error>))
    ensures r.1.None? ==> |r.0.stack| == |st.stack| + BuiltinDepth(b)
    ensures !b.Call? ==> r.0.ip == st.ip && r.0.callStack == st.callStack
    ensures b.Call? && r.1.None? ==> r.0.callStack == st.callStack + [Address(st.ip + 1)]
    ensures r.1.Some? ==> r.1.value == StackUnderflow || (b.Call? && r.1.value.UncallableObject?)
  {
    var s := st.stack;
    match b
    case Call =>
      if s == [] then (st, Some(StackUnderflow))
      else if Last(s).Lambda? then
        (State(WrapUsize(Last(s).ip + TWO_64 - 1), Init(s), st.callStack + [Address(st.ip + 1)]), None)
      else (st.(stack := Init(s)), Some(UncallableObject(Last(s))))
    case DropIt => if s == [] then (st, Some(StackUnderflow)) else (st.(stack := Init(s)), None)
    case PopIt => if s == [] then (st, Some(StackUnderflow)) else (st.(stack := Init(s)), None)
    case Dup => if s == [] then (st, Some(StackUnderflow)) else (st.(stack := s + [Last(s)]), None)
    case Nip =>
      if s == [] then (st, Some(StackUnderflow))
      else if |s| == 1 then (st.(stack := []), Some(StackUnderflow))
      else (st.(stack := s[..|s| - 2] + [Last(s)]), None)
    case Over =>
      if |s| >= 2 then (st.(stack := s + [s[|s| - 2]]), None) else (st, Some(StackUnderflow))
    case Rot =>
      if |s| >= 3 then (st.(stack := s[..|s| - 3] + s[|s| - 2..] + [s[|s| - 3]]), None)
      else (st, Some(StackUnderflow))
    case SwapIt =>
      if s == [] then (st, Some(StackUnderflow))
      else if |s| == 1 then (st.(stack := []), Some(StackUnderflow))
      else (st.(stack := s[..|s| - 2] + [s[|s| - 1], s[|s| - 2]]), None)
  }

  /** How many values a built-in leaves on the stack beyond what it found */
  function BuiltinDepth(b: Builtin): int
  {
    match b
    case Call => -1 case DropIt => -1 case PopIt => -1 case Nip => -1
    case Dup => 1 case Over => 1
    case Rot => 0 case SwapIt => 0
  }

  /** A built-in that succeeds changes the stack depth by its stack effect
      and needs at least as many values as it consumes. */
  lemma BuiltinStackEffect(b: Builtin, st: State)
    ensures BuiltinEffect(b, st).1.None? ==>
      |BuiltinEffect(b, st).0.stack| == |st.stack| + BuiltinDepth(b)
    ensures BuiltinEffect(b, st).1.None? <==>
      |st.stack| >= (match b case Over => 2 case Nip => 2 case SwapIt => 2 case Rot => 3 case _ => 1)
      && (b.Call? ==> Last(st.stack).Lambda?)
  {
  }

  /** dup copies the top; over copies the second from the top; nip drops
      the second and keeps the top. */
  lemma CopyingBuiltins(st: State, s: seq<Value>, a: Value, b: Value)
    requires st.stack == s + [a, b]
    ensures BuiltinEffect(Dup, st) == (st.(stack := s + [a, b, b]), None)
    ensures BuiltinEffect(Over, st) == (st.(stack := s + [a, b, a]), None)
    ensures BuiltinEffect(Nip, st) == (st.(stack := s + [b]), None)
  {
    var t := s + [a, b];
    assert t[..|t| - 2] == s && Last(t) == b && t[|t| - 2] == a;
    assert t + [b] == s + [a, b, b] && t + [a] == s + [a, b, a];
  }

  /** swap exchanges the top two, and swapping twice changes nothing. */
  lemma SwapExchanges(st: State, s: seq<Value>, a: Value, b: Value)
    requires st.stack == s + [a, b]
    ensures BuiltinEffect(SwapIt, st) == (st.(stack := s + [b, a]), None)
    ensures BuiltinEffect(SwapIt, BuiltinEffect(SwapIt, st).0) == (st, None)
  {
    assert (s + [a, b])[..|s + [a, b]| - 2] == s;
    assert (s + [b, a])[..|s + [b, a]| - 2] == s;
  }

  /** rot moves the third from the top to the top, and three rots change
      nothing. */
  lemma RotRotates(st: State, s: seq<Value>, a: Value, b: Value, c: Value)
    requires st.stack == s + [a, b, c]
    ensures BuiltinEffect(Rot, st) == (st.(stack := s + [b, c, a]), None)
    ensures BuiltinEffect(Rot, BuiltinEffect(Rot, BuiltinEffect(Rot, st).0).0) == (st, None)
  {
    RotOnce(st, s, a, b, c);
    RotOnce(st.(stack := s + [b, c, a]), s, b, c, a);
    RotOnce(st.(stack := s + [c, a, b]), s, c, a, b);
  }

  lemma RotOnce(st: State, s: seq<Value>, a: Value, b: Value, c: Value)
    requires st.stack == s + [a, b, c]
    ensures BuiltinEffect(Rot, st) == (st.(stack := s + [b, c, a]), None)
  {
    var t := s + [a, b, c];
    assert t[..|t| - 3] == s && t[|t| - 2..] == [b, c] && t[|t| - 3] == a;
    assert s + [b, c] + [a] == s + [b, c, a];
  }

  /** call on a lambda records the return address after the calling
      instruction and moves to just before the lambda's entry, which the
      interpreter's increment then reaches; anything else is uncallable. */
  lemma CallBuiltin(st: State, s: seq<Value>, top: Value)
    requires st.stack == s + [top]
    requires top.Lambda? ==> top.ip < TWO_64
    ensures top.Lambda? && top.ip >= 1 ==>
      BuiltinEffect(Call, st) == (State(top.ip - 1, s, st.callStack + [Address(st.ip + 1)]), None)
    ensures !top.Lambda? ==> BuiltinEffect(Call, st) == (st.(stack := s), Some(UncallableObject(top)))
  {
    assert Init(s + [top]) == s;
  }

  /** `insert_builtin` and `define_builtins`: the names in the order they
      are inserted */
  const BUILTIN_NAMES: seq<string> := ["call", "drop", "dup", "nip", "pop", "over", "rot", "swap"]
  const BUILTINS: seq<Builtin> := [Call, DropIt, Dup, Nip, PopIt, Over, Rot, SwapIt]

  /** `insert_builtin`: names the built-in at the table's old length, then
      appends it */
  method InsertBuiltin(builtins: seq<Builtin>, index: map<string, nat>, name: string, b: Builtin)
    returns (builtins': seq<Builtin>, index': map<string, nat>)
    ensures builtins' == builtins + [b] && index' == index[name := |builtins|]
  {
    index' := index[name := |builtins|];
    builtins' := builtins + [b];
  }

  /** `define_builtins`: each built-in is found under its name at its
      position in the table. */
  method DefineBuiltins() returns (builtins: seq<Builtin>, index: map<string, nat>)
    ensures builtins == BUILTINS
    ensures forall i :: 0 <= i < |BUILTIN_NAMES| ==>
      BUILTIN_NAMES[i] in index && index[BUILTIN_NAMES[i]] == i
  {
    builtins, index := [], map[];
    builtins, index := InsertBuiltin(builtins, index, "call", Call);
    builtins, index := InsertBuiltin(builtins, index, "drop", DropIt);
    builtins, index := InsertBuiltin(builtins, index, "dup", Dup);
    builtins, index := InsertBuiltin(builtins, index, "nip", Nip);
    builtins, index := InsertBuiltin(builtins, index, "pop", PopIt);
    builtins, index := InsertBuiltin(builtins, index, "over", Over);
    builtins, index := InsertBuiltin(builtins, index, "rot", Rot);
    builtins, index := InsertBuiltin(builtins, index, "swap", SwapIt);
  }

  // ---------------------------------------------------------------------
  // The interpreter loop (`VM::execute`)

  /** The arithmetic and comparison opcodes: pop b, then a, push a op b;
      a missing operand is an underflow, with b already gone */
  function BinaryStep(sem: Semantics, op: Op, st: State): Next
    requires IsArithmetic(op) || op.Equal? || op.Less? || op.Greater?
  {
    var s := st.stack;
    if s == [] then Next(st, Fault(StackUnderflow))
    else if |s| == 1 then Next(st.(stack := []), Fault(StackUnderflow))
    else
      var a, b, rest := s[|s| - 2], s[|s| - 1], s[..|s| - 2];
      var c :=
        if IsArithmetic(op) then sem.arithmetic(op, a, b)
        else if op.Equal? then Ok(Boolean(sem.equal(a, b)))
        else if op.Less? then Ok(Boolean(sem.compare(a, b) == Some(Values.Less)))
        else Ok(Boolean(sem.compare(a, b) == Some(Values.Greater)));
      if c.Err? then Next(st.(stack := rest), Fault(c.error))
      else Next(st.(stack := rest + [c.value]), Proceed)
  }

  /** The opcodes with an inline operand byte after them */
  function OperandStep(chunk: Chunk, op: Op, st: State): Next
    requires op.GetConstant? || op.Jump? || op.MarkJump? || op.CallTardiFn?
  {
    var code := chunk.code;
    var at := st.ip + 1;
    var pushed := st.callStack + [Address(st.ip + 2)];
    if at >= |code| then
      Next(if op.MarkJump? then st.(ip := at, callStack := pushed) else st.(ip := at), Fault(Panic))
    else
      var operand := code[at] as nat;
      match op
      case GetConstant =>
        if operand >= |chunk.constants| then Next(st.(ip := at), Fault(Panic))
        else Next(st.(ip := at, stack := st.stack + [chunk.constants[operand]]), Proceed)
      case Jump => Next(st.(ip := operand), Jumped)
      case MarkJump => Next(st.(ip := operand, callStack := pushed), Jumped)
      case CallTardiFn =>
        if operand >= |chunk.builtins| then Next(st.(ip := at), Fault(Panic))
        else
          var (after, error) := BuiltinEffect(chunk.builtins[operand], st.(ip := at));
          if error.Some? then Next(after, Fault(error.value)) else Next(after, Proceed)
  }

  /** `Return`: with an empty call stack execution ends; otherwise the
      popped return address is where execution goes on */
  function ReturnStep(st: State): Next
  {
    var cs := st.callStack;
    if cs == [] then Next(st, Halt)
    else if Last(cs).Address? then Next(st.(ip := Last(cs).addr, callStack := Init(cs)), Jumped)
    else Next(st.(callStack := Init(cs)), Fault(InvalidValueType(Last(cs))))
  }

  /** The opcodes that only move values between the stacks */
  function StackStep(op: Op, st: State): Next
    requires op.Not? || op.ToCallStack? || op.FromCallStack? || op.CopyCallStack? || op.Drop? || op.Swap? || op.IP?
  {
    var s, cs := st.stack, st.callStack;
    match op
    case Not =>
      if s == [] then Next(st, Fault(StackUnderflow))
      else if Last(s).Boolean? then Next(st.(stack := Init(s) + [Boolean(!Last(s).b)]), Proceed)
      else Next(st, Fault(InvalidValueType(Last(s))))
    case ToCallStack =>
      if s == [] then Next(st, Fault(StackUnderflow))
      else Next(st.(stack := Init(s), callStack := cs + [Last(s)]), Proceed)
    case FromCallStack =>
      if cs == [] then Next(st, Fault(StackUnderflow))
      else Next(st.(stack := s + [Last(cs)], callStack := Init(cs)), Proceed)
    case CopyCallStack =>
      if cs == [] then Next(st, Fault(StackUnderflow))
      else Next(st.(stack := s + [Last(cs)]), Proceed)
    case Drop => Outcome(BuiltinEffect(DropIt, st))
    case Swap => Outcome(BuiltinEffect(SwapIt, st))
    case IP => Next(st.(stack := s + [Address(st.ip + 1)]), Proceed)
  }

  /** A built-in's effect as the outcome of an instruction */
  function Outcome(effect: (State, Option<Error>)): Next
  {
    if effect.1.Some? then Next(effect.0, Fault(effect.1.value)) else Next(effect.0, Proceed)
  }

  /** One instruction: decode the byte at ip and run it */
  function Step(sem: Semantics, chunk: Chunk, st: State): (r: Next)
    requires st.ip < |chunk.code|
    ensures sem.decode(chunk.code[st.ip]).None? ==> r == Next(st, Fault(InvalidOpCode(chunk.code[st.ip])))
  {
    var byte := chunk.code[st.ip];
    match sem.decode(byte)
    case None => Next(st, Fault(InvalidOpCode(byte)))
    case Some(op) =>
      if op.GetConstant? || op.Jump? || op.MarkJump? || op.CallTardiFn? then OperandStep(chunk, op, st)
      else if IsArithmetic(op) || op.Equal? || op.Less? || op.Greater? then BinaryStep(sem, op, st)
      else if op.Return? then ReturnStep(st)
      else StackStep(op, st)
  }

  /** How a run ends */
  datatype Ending = Finished | Failed(error: Error) | OutOfFuel

  datatype Run = Run(state: State, ending: Ending)

  /** The loop from a state, for at most `fuel` instructions: an
      instruction that neither jumped nor stopped is followed by the next
      one */
  function ExecFrom(sem: Semantics, chunk: Chunk, st: State, fuel: nat): (r: Run)
    ensures st.ip >= |chunk.code| ==> r == Run(st, Finished)
    ensures st.ip < |chunk.code| && fuel == 0 ==> r == Run(st, OutOfFuel)
    ensures r.ending.Finished? ==> r.state.ip >= |chunk.code| || r.state.callStack == []
    decreases fuel, 0
  {
    if st.ip >= |chunk.code| then Run(st, Finished)
    else if fuel == 0 then Run(st, OutOfFuel)
    else Resume(sem, chunk, Step(sem, chunk, st), fuel - 1)
  }

  /** What the loop does after an instruction */
  function Resume(sem: Semantics, chunk: Chunk, n: Next, fuel: nat): (r: Run)
    ensures n.status.Halt? ==> r == Run(n.state, Finished)
    ensures n.status.Fault? ==> r == Run(n.state, Failed(n.status.error))
    decreases fuel, 1
  {
    match n.status
    case Proceed => ExecFrom(sem, chunk, n.state.(ip := WrapUsize(n.state.ip + 1)), fuel)
    case Jumped => ExecFrom(sem, chunk, n.state, fuel)
    case Halt => Run(n.state, Finished)
    case Fault(e) => Run(n.state, Failed(e))
  }

  // ---------------------------------------------------------------------
  // What each instruction does

  /** The instruction at ip decodes to `op` */
  predicate At(sem: Semantics, chunk: Chunk, st: State, op: Op)
  {
    st.ip < |chunk.code| && sem.decode(chunk.code[st.ip]) == Some(op)
  }

  /** GetConstant pushes the constant its operand names and leaves ip on
      the operand, which the loop's increment then skips; an operand or
      constant index out of bounds panics. */
  lemma GetConstantPushes(sem: Semantics, chunk: Chunk, st: State)
    requires At(sem, chunk, st, GetConstant)
    ensures st.ip + 1 < |chunk.code| && (chunk.code[st.ip + 1] as nat) < |chunk.constants| ==>
      Step(sem, chunk, st)
      == Next(State(st.ip + 1, st.stack + [chunk.constants[chunk.code[st.ip + 1]]], st.callStack), Proceed)
    ensures st.ip + 1 >= |chunk.code| || (chunk.code[st.ip + 1] as nat) >= |chunk.constants| ==>
      Step(sem, chunk, st).status == Fault(Panic)
  {
  }

  /** An arithmetic opcode pops b, then a, and pushes a op b, or stops
      with the operator's error and both operands gone. */
  lemma ArithmeticPops(sem: Semantics, chunk: Chunk, st: State, op: Op, s: seq<Value>, a: Value, b: Value)
    requires At(sem, chunk, st, op) && IsArithmetic(op)
    requires st.stack == s + [a, b]
    ensures sem.arithmetic(op, a, b).Ok? ==>
      Step(sem, chunk, st) == Next(st.(stack := s + [sem.arithmetic(op, a, b).value]), Proceed)
    ensures sem.arithmetic(op, a, b).Err? ==>
      Step(sem, chunk, st) == Next(st.(stack := s), Fault(sem.arithmetic(op, a, b).error))
  {
    assert (s + [a, b])[..|s + [a, b]| - 2] == s;
  }

  /** Equal, Less and Greater pop two values and push one Boolean: a == b,
      a < b and a > b under the values' partial order (unordered values
      give false for both). */
  lemma ComparisonPushes(sem: Semantics, chunk: Chunk, st: State, op: Op, s: seq<Value>, a: Value, b: Value)
    requires At(sem, chunk, st, op) && (op.Equal? || op.Less? || op.Greater?)
    requires st.stack == s + [a, b]
    ensures Step(sem, chunk, st).status == Proceed
    ensures Step(sem, chunk, st).state == st.(stack := s + [Boolean(
      if op.Equal? then sem.equal(a, b)
      else if op.Less? then sem.compare(a, b) == Some(Values.Less)
      else sem.compare(a, b) == Some(Values.Greater))])
  {
    assert (s + [a, b])[..|s + [a, b]| - 2] == s;
  }

  /** Under the derived equality, Equal on values this VM handles
      directly pushes whether they are the same value, and values of
      different kinds are never equal. */
  lemma EqualPushes(sem: Semantics, chunk: Chunk, st: State, s: seq<Value>, a: Value, b: Value)
    requires DerivedEquality(sem) && At(sem, chunk, st, Equal)
    requires st.stack == s + [a, b] && !(a.Opaque? && b.Opaque?)
    ensures Step(sem, chunk, st) == Next(st.(stack := s + [Boolean(a == b)]), Proceed)
  {
    ComparisonPushes(sem, chunk, st, Equal, s, a, b);
    assert sem.equal(a, b) == (a == b);
  }

  /** A two-operand opcode with fewer than two values underflows, and the
      one value there was is gone. */
  lemma BinaryUnderflow(sem: Semantics, chunk: Chunk, st: State, op: Op)
    requires At(sem, chunk, st, op) && (IsArithmetic(op) || op.Equal? || op.Less? || op.Greater?)
    requires |st.stack| < 2
    ensures Step(sem, chunk, st) == Next(st.(stack := []), Fault(StackUnderflow))
  {
  }

  /** Not negates a Boolean; any other value is put back and reported. */
  lemma NotNegates(sem: Semantics, chunk: Chunk, st: State, s: seq<Value>, v: Value)
    requires At(sem, chunk, st, Not)
    requires st.stack == s + [v]
    ensures v.Boolean? ==> Step(sem, chunk, st) == Next(st.(stack := s + [Boolean(!v.b)]), Proceed)
    ensures !v.Boolean? ==> Step(sem, chunk, st) == Next(st, Fault(InvalidValueType(v)))
  {
    assert Init(s + [v]) == s;
  }

  /** Jump goes to its operand; MarkJump first pushes the address after
      its operand onto the call stack. Neither is followed by the
      increment. */
  lemma JumpsMove(sem: Semantics, chunk: Chunk, st: State, op: Op)
    requires At(sem, chunk, st, op) && (op.Jump? || op.MarkJump?)
    requires st.ip + 1 < |chunk.code|
    ensures op.Jump? ==>
      Step(sem, chunk, st) == Next(st.(ip := chunk.code[st.ip + 1] as nat), Jumped)
    ensures op.MarkJump? ==>
      Step(sem, chunk, st)
      == Next(st.(ip := chunk.code[st.ip + 1] as nat, callStack := st.callStack + [Address(st.ip + 2)]), Jumped)
  {
  }

  /** Return with an empty call stack ends the run where it is; otherwise
      it pops the return address and goes there, and a popped value that
      is not an address stops the run with an error. */
  lemma ReturnResumes(sem: Semantics, chunk: Chunk, st: State, fuel: nat)
    requires At(sem, chunk, st, Return)
    ensures st.callStack == [] ==> ExecFrom(sem, chunk, st, fuel + 1) == Run(st, Finished)
    ensures st.callStack != [] && Last(st.callStack).Address? ==>
      ExecFrom(sem, chunk, st, fuel + 1)
      == ExecFrom(sem, chunk, State(Last(st.callStack).addr, st.stack, Init(st.callStack)), fuel)
    ensures st.callStack != [] && !Last(st.callStack).Address? ==>
      ExecFrom(sem, chunk, st, fuel + 1)
      == Run(st.(callStack := Init(st.callStack)), Failed(InvalidValueType(Last(st.callStack))))
  {
  }

  /** Drop removes the top, and underflows on an empty stack. */
  lemma DropRemoves(sem: Semantics, chunk: Chunk, st: State, s: seq<Value>, v: Value)
    requires At(sem, chunk, st, Drop)
    ensures st.stack == s + [v] ==> Step(sem, chunk, st) == Next(st.(stack := s), Proceed)
    ensures st.stack == [] ==> Step(sem, chunk, st) == Next(st, Fault(StackUnderflow))
  {
    assert Init(s + [v]) == s;
  }

  /** Swap exchanges the top two, and with fewer than two values
      underflows. */
  lemma SwapStep(sem: Semantics, chunk: Chunk, st: State, s: seq<Value>, a: Value, b: Value)
    requires At(sem, chunk, st, Swap)
    ensures st.stack == s + [a, b] ==> Step(sem, chunk, st) == Next(st.(stack := s + [b, a]), Proceed)
    ensures |st.stack| < 2 ==> Step(sem, chunk, st).status == Fault(StackUnderflow)
  {
    assert Step(sem, chunk, st) == StackStep(Swap, st);
    if st.stack == s + [a, b] {
      SwapExchanges(st, s, a, b);
    }
  }

  /** ToCallStack moves the top to the call stack and FromCallStack moves
      it back, so the pair changes nothing but ip; CopyCallStack pushes a
      copy of the call stack's top. */
  lemma CallStackTransfers(sem: Semantics, chunk: Chunk, st: State, s: seq<Value>, v: Value)
    requires At(sem, chunk, st, ToCallStack)
    requires st.stack == s + [v]
    ensures Step(sem, chunk, st) == Next(State(st.ip, s, st.callStack + [v]), Proceed)
    ensures forall st' | At(sem, chunk, st', FromCallStack) && st'.stack == s && st'.callStack == st.callStack + [v] ::
      Step(sem, chunk, st') == Next(st'.(stack := st.stack, callStack := st.callStack), Proceed)
    ensures forall st' | At(sem, chunk, st', CopyCallStack) && st'.callStack == st.callStack + [v] ::
      Step(sem, chunk, st') == Next(st'.(stack := st'.stack + [v]), Proceed)
  {
    assert Init(s + [v]) == s;
    assert Init(st.callStack + [v]) == st.callStack;
  }

  /** How many values an instruction that goes on leaves on the data
      stack beyond what it found */
  function OpDepth(op: Op): int
  {
    match op
    case GetConstant => 1 case FromCallStack => 1 case CopyCallStack => 1 case IP => 1
    case Not => 0 case Swap => 0 case Jump => 0 case MarkJump => 0 case Return => 0
    case CallTardiFn => 0
    case _ => -1
  }

  /** The loop runs the instruction at ip and resumes after it. */
  lemma ExecStep(sem: Semantics, chunk: Chunk, st: State, n: Next, fuel: nat)
    requires st.ip < |chunk.code| && n == Step(sem, chunk, st)
    ensures ExecFrom(sem, chunk, st, fuel + 1) == Resume(sem, chunk, n, fuel)
  {
  }

  /** Only a `Return` with an empty call stack stops the machine
      normally, and it stops it where it is. */
  lemma StepHalts(sem: Semantics, chunk: Chunk, st: State)
    requires st.ip < |chunk.code|
    ensures Step(sem, chunk, st).status.Halt? <==> sem.decode(chunk.code[st.ip]) == Some(Return) && st.callStack == []
    ensures Step(sem, chunk, st).status.Halt? ==> Step(sem, chunk, st).state == st
  {
  }

  /** Every instruction other than a built-in call that goes on changes the
      data stack depth by its opcode's fixed effect. */
  lemma StackEffect(sem: Semantics, chunk: Chunk, st: State, op: Op)
    requires At(sem, chunk, st, op) && !op.CallTardiFn?
    requires Step(sem, chunk, st).status.Proceed? || Step(sem, chunk, st).status.Jumped?
    ensures |Step(sem, chunk, st).state.stack| == |st.stack| + OpDepth(op)
  {
  }

  // ---------------------------------------------------------------------
  // The machine

  class VM {
    var ip: nat
    var stack: seq<Value>
    var callStack: seq<Value>

    function Current(): State
      reads this
    {
      State(ip, stack, callStack)
    }

    /** `VM::new`: both stacks empty, at the start */
    constructor New()
      ensures Current() == State(0, [], [])
    {
      ip, stack, callStack := 0, [], [];
    }

    /** `pop().ok_or(StackUnderflow)` on the data stack */
    method Pop() returns (r: Option<Value>)
      modifies this
      ensures old(stack) == [] ==> r.None? && stack == old(stack)
      ensures old(stack) != [] ==> r == Some(Last(old(stack))) && stack == Init(old(stack))
      ensures ip == old(ip) && callStack == old(callStack)
    {
      if stack == [] {
        r := None;
      } else {
        r := Some(stack[|stack| - 1]);
        stack := stack[..|stack| - 1];
      }
    }

    /** Runs a stack built-in, as its closure in `define_builtins` does */
    method RunBuiltin(b: Builtin) returns (error: Option<Error>)
      modifies this
      ensures (Current(), error) == BuiltinEffect(b, old(Current()))
    {
      error := None;
      match b
      case Call =>
        var top := Pop();
        if top.None? {
          error := Some(StackUnderflow);
        } else if top.value.Lambda? {
          callStack := callStack + [Address(ip + 1)];
          ip := WrapUsize(top.value.ip + TWO_64 - 1);
        } else {
          error := Some(UncallableObject(top.value));
        }
      case DropIt =>
        var top := Pop();
        if top.None? { error := Some(StackUnderflow); }
      case PopIt =>
        var top := Pop();
        if top.None? { error := Some(StackUnderflow); }
      case Dup =>
        if stack == [] {
          error := Some(StackUnderflow);
        } else {
          stack := stack + [stack[|stack| - 1]];
        }
      case Nip =>
        var top := Pop();
        if top.None? {
          error := Some(StackUnderflow);
        } else {
          var second := Pop();
          if second.None? {
            error := Some(StackUnderflow);
          } else {
            assert stack == old(stack)[..|old(stack)| - 2];
            stack := stack + [top.value];
          }
        }
      case Over =>
        var n := |stack|;
        if n >= 2 {
          stack := stack + [stack[n - 2]];
        } else {
          error := Some(StackUnderflow);
        }
      case Rot =>
        var n := |stack|;
        if n >= 3 {
          var item := stack[n - 3];
          stack := stack[..n - 3] + stack[n - 2..] + [item];
        } else {
          error := Some(StackUnderflow);
        }
      case SwapIt =>
        error := Swap();
    }

    /** Pops b, then a, and pushes them back exchanged */
    method Swap() returns (error: Option<Error>)
      modifies this
      ensures (Current(), error) == BuiltinEffect(SwapIt, old(Current()))
    {
      error := None;
      var b := Pop();
      if b.None? {
        error := Some(StackUnderflow);
      } else {
        var a := Pop();
        if a.None? {
          error := Some(StackUnderflow);
        } else {
          assert stack == old(stack)[..|old(stack)| - 2];
          stack := stack + [b.value, a.value];
        }
      }
    }

    /** `binary_op!` and the comparisons */
    method Binary(sem: Semantics, op: Op) returns (status: Status)
      requires IsArithmetic(op) || op.Equal? || op.Less? || op.Greater?
      modifies this
      ensures Next(Current(), status) == BinaryStep(sem, op, old(Current()))
    {
      var b := Pop();
      if b.None? {
        return Fault(StackUnderflow);
      }
      var a := Pop();
      if a.None? {
        return Fault(StackUnderflow);
      }
      assert stack == old(stack)[..|old(stack)| - 2];
      var c: Result<Value, Error>;
      if IsArithmetic(op) {
        c := sem.arithmetic(op, a.value, b.value);
      } else if op.Equal? {
        c := Ok(Boolean(sem.equal(a.value, b.value)));
      } else if op.Less? {
        c := Ok(Boolean(sem.compare(a.value, b.value) == Some(Values.Less)));
      } else {
        c := Ok(Boolean(sem.compare(a.value, b.value) == Some(Values.Greater)));
      }
      if c.Err? {
        return Fault(c.error);
      }
      stack := stack + [c.value];
      status := Proceed;
    }

    /** The opcodes that read the operand byte after them */
    method WithOperand(chunk: Chunk, op: Op) returns (status: Status)
      requires op.GetConstant? || op.Jump? || op.MarkJump? || op.CallTardiFn?
      modifies this
      ensures Next(Current(), status) == OperandStep(chunk, op, old(Current()))
    {
      if op.MarkJump? {
        callStack := callStack + [Address(ip + 2)];
      }
      ip := ip + 1;
      if ip >= |chunk.code| {
        return Fault(Panic);
      }
      var operand := chunk.code[ip] as nat;
      match op
      case GetConstant =>
        if operand >= |chunk.constants| {
          return Fault(Panic);
        }
        stack := stack + [chunk.constants[operand]];
        status := Proceed;
      case Jump =>
        ip := operand;
        status := Jumped;
      case MarkJump =>
        ip := operand;
        status := Jumped;
      case CallTardiFn =>
        if operand >= |chunk.builtins| {
          return Fault(Panic);
        }
        var error := RunBuiltin(chunk.builtins[operand]);
        status := if error.Some? then Fault(error.value) else Proceed;
    }

    /** `Return`: halt on an empty call stack, else go to the popped address */
    method Return() returns (status: Status)
      modifies this
      ensures Next(Current(), status) == ReturnStep(old(Current()))
    {
      if callStack == [] {
        return Halt;
      }
      var a := callStack[|callStack| - 1];
      callStack := callStack[..|callStack| - 1];
      if a.Address? {
        ip := a.addr;
        status := Jumped;
      } else {
        status := Fault(InvalidValueType(a));
      }
    }

    /** The opcodes that move values between the stacks */
    method Shuffle(op: Op) returns (status: Status)
      requires op.Not? || op.ToCallStack? || op.FromCallStack? || op.CopyCallStack? || op.Drop? || op.Swap? || op.IP?
      modifies this
      ensures Next(Current(), status) == StackStep(op, old(Current()))
    {
      status := Proceed;
      match op
      case Not =>
        var a := Pop();
        if a.None? {
          status := Fault(StackUnderflow);
        } else if a.value.Boolean? {
          stack := stack + [Boolean(!a.value.b)];
        } else {
          stack := stack + [a.value];
          status := Fault(InvalidValueType(a.value));
        }
      case ToCallStack =>
        var item := Pop();
        if item.None? {
          status := Fault(StackUnderflow);
        } else {
          callStack := callStack + [item.value];
        }
      case FromCallStack =>
        if callStack == [] {
          status := Fault(StackUnderflow);
        } else {
          stack := stack + [callStack[|callStack| - 1]];
          callStack := callStack[..|callStack| - 1];
        }
      case CopyCallStack =>
        if callStack == [] {
          status := Fault(StackUnderflow);
        } else {
          stack := stack + [callStack[|callStack| - 1]];
        }
      case Drop =>
        var error := RunBuiltin(DropIt);
        if error.Some? { status := Fault(error.value); }
      case Swap =>
        var error := Swap();
        if error.Some? { status := Fault(error.value); }
      case IP =>
        stack := stack + [Address(ip + 1)];
    }

    /** Decodes and runs the instruction at ip */
    method ExecuteInstruction(sem: Semantics, chunk: Chunk) returns (status: Status)
      requires ip < |chunk.code|
      modifies this
      ensures Next(Current(), status) == Step(sem, chunk, old(Current()))
    {
      var byte := chunk.code[ip];
      var decoded := sem.decode(byte);
      if decoded.None? {
        return Fault(InvalidOpCode(byte));
      }
      var op := decoded.value;
      if op.GetConstant? || op.Jump? || op.MarkJump? || op.CallTardiFn? {
        status := WithOperand(chunk, op);
      } else if IsArithmetic(op) || op.Equal? || op.Less? || op.Greater? {
        status := Binary(sem, op);
      } else if op.Return? {
        status := Return();
      } else {
        status := Shuffle(op);
      }
    }

    /** `VM::execute`, for at most `fuel` instructions: starts at 0 and
        runs until the end of the code, a `Return` with nothing to return
        to, or an error */
    method Execute(sem: Semantics, chunk: Chunk, fuel: nat) returns (ending: Ending)
      modifies this
      ensures Run(Current(), ending) == ExecFrom(sem, chunk, old(Current()).(ip := 0), fuel)
    {
      ip := 0;
      var left := fuel;
      while ip < |chunk.code|
        invariant ExecFrom(sem, chunk, Current(), left) == ExecFrom(sem, chunk, old(Current()).(ip := 0), fuel)
        decreases left
      {
        if left == 0 {
          return OutOfFuel;
        }
        ghost var before := Current();
        var status := ExecuteInstruction(sem, chunk);
        left := left - 1;
        ghost var after := Current();
        ExecStep(sem, chunk, before, Next(after, status), left);
        match status
        case Proceed =>
          ip := WrapUsize(ip + 1);
          assert Current() == after.(ip := WrapUsize(after.ip + 1));
        case Jumped =>
        case Halt =>
          return Finished;
        case Fault(e) =>
          return Failed(e);
      }
      ending := Finished;
    }
  }
}
