/** The indirect-threaded-code VM: the instruction stream holds indices
    into a table of operations, and `run` dispatches them in turn. An
    operation is modelled as a function on the instruction pointer and
    the data stack; the loop is bounded by a fuel count, since an
    operation may move the instruction pointer back. */
module ThreadedVm {
  import opened Base

  datatype Value =
    | Integer(i: Int64)
    | Float(bits: bv64)
    | Boolean(b: bool)

  datatype VMError = InvalidOpCode(index: nat) | StackUnderflow

  /** The part of the VM an operation works on */
  datatype Machine = Machine(ip: nat, stack: seq<Value>)

  /** What an operation leaves behind, and the error it reports, if any */
  datatype Step = Step(after: Machine, error: Option<VMError>)

  type OpFn = Machine -> Step

  /** How a run ends */
  datatype Ending = Finished | Failed(error: VMError) | OutOfFuel

  datatype Outcome = Outcome(machine: Machine, ending: Ending)

  /** The run loop as a function: dispatch the instruction at ip after
      stepping past it, for at most `fuel` dispatches */
  function RunFrom(ops: seq<OpFn>, code: seq<nat>, m: Machine, fuel: nat): (r: Outcome)
    ensures m.ip >= |code| ==> r == Outcome(m, Finished)
    ensures m.ip < |code| && fuel == 0 ==> r == Outcome(m, OutOfFuel)
    ensures r.ending == Finished ==> r.machine.ip >= |code|
    decreases fuel
  {
    if m.ip >= |code| then Outcome(m, Finished)
    else if fuel == 0 then Outcome(m, OutOfFuel)
    else
      var index := code[m.ip];
      var stepped := m.(ip := m.ip + 1);
      if index >= |ops| then Outcome(stepped, Failed(InvalidOpCode(index)))
      else
        var s := ops[index](stepped);
        if s.error.Some? then Outcome(s.after, Failed(s.error.value))
        else RunFrom(ops, code, s.after, fuel - 1)
  }

  /** A run that finishes has its instruction pointer at or past the end
      of the instructions. */
  lemma {:induction false} FinishedAtEnd(ops: seq<OpFn>, code: seq<nat>, m: Machine, fuel: nat)
    requires RunFrom(ops, code, m, fuel).ending == Finished
    ensures RunFrom(ops, code, m, fuel).machine.ip >= |code|
    decreases fuel
  {
    if m.ip < |code| && fuel > 0 {
      var index := code[m.ip];
      if index < |ops| {
        var s := ops[index](m.(ip := m.ip + 1));
        if s.error.None? {
          FinishedAtEnd(ops, code, s.after, fuel - 1);
        }
      }
    }
  }

  /** An instruction indexing past the op table stops the run with
      InvalidOpCode(index), the instruction pointer already past it. */
  lemma InvalidIndexFails(ops: seq<OpFn>, code: seq<nat>, m: Machine, fuel: nat)
    requires m.ip < |code| && code[m.ip] >= |ops| && fuel > 0
    ensures RunFrom(ops, code, m, fuel) == Outcome(m.(ip := m.ip + 1), Failed(InvalidOpCode(code[m.ip])))
  {
  }

  /** An operation that succeeds sees the instruction pointer already
      advanced past its own instruction, and the run goes on from what it
      leaves. */
  lemma DispatchAdvances(ops: seq<OpFn>, code: seq<nat>, m: Machine, fuel: nat)
    requires m.ip < |code| && code[m.ip] < |ops| && fuel > 0
    requires ops[code[m.ip]](m.(ip := m.ip + 1)).error.None?
    ensures RunFrom(ops, code, m, fuel) == RunFrom(ops, code, ops[code[m.ip]](m.(ip := m.ip + 1)).after, fuel - 1)
  {
  }

  class VM {
    var opTable: seq<OpFn>
    var instructions: seq<nat>
    var ip: nat
    var stack: seq<Value>

    /** `VM::new` */
    constructor New()
      ensures opTable == [] && instructions == [] && ip == 0 && stack == []
    {
      opTable := [];
      instructions := [];
      ip := 0;
      stack := [];
    }

    /** `VM::run`, with at most `fuel` dispatches */
    method Run(fuel: nat) returns (ending: Ending)
      modifies this
      ensures RunFrom(old(opTable), old(instructions), old(Machine(ip, stack)), fuel) == Outcome(Machine(ip, stack), ending)
      ensures opTable == old(opTable) && instructions == old(instructions)
    {
      var left := fuel;
      while ip < |instructions|
        invariant RunFrom(opTable, instructions, Machine(ip, stack), left)
          == RunFrom(old(opTable), old(instructions), old(Machine(ip, stack)), fuel)
        invariant opTable == old(opTable) && instructions == old(instructions)
        decreases left
      {
        if left == 0 {
          return OutOfFuel;
        }
        var opIndex := instructions[ip];
        ip := ip + 1;
        if opIndex >= |opTable| {
          return Failed(InvalidOpCode(opIndex));
        }
        var s := opTable[opIndex](Machine(ip, stack));
        ip, stack := s.after.ip, s.after.stack;
        if s.error.Some? {
          return Failed(s.error.value);
        }
        left := left - 1;
      }
      return Finished;
    }

    /** `VM::push` */
    method Push(value: Value)
      modifies this
      ensures stack == old(stack) + [value]
      ensures ip == old(ip) && opTable == old(opTable) && instructions == old(instructions)
    {
      stack := stack + [value];
    }

    /** `VM::pop`: the top of the stack, or StackUnderflow when it is empty */
    method Pop() returns (r: Result<Value, VMError>)
      modifies this
      ensures old(stack) == [] ==> r == Err(StackUnderflow) && stack == []
      ensures old(stack) != [] ==> r == Ok(old(stack)[|old(stack)| - 1]) && stack == old(stack)[..|old(stack)| - 1]
      ensures ip == old(ip) && opTable == old(opTable) && instructions == old(instructions)
    {
      if stack == [] {
        return Err(StackUnderflow);
      }
      r := Ok(stack[|stack| - 1]);
      stack := stack[..|stack| - 1];
    }

    /** `VM::stack_size` */
    function StackSize(): (r: nat)
      reads this
      ensures r == |stack|
    {
      |stack|
    }

    /** `VM::add_op`: appends the operation and returns its index */
    method AddOp(op: OpFn) returns (index: nat)
      modifies this
      ensures opTable == old(opTable) + [op] && index == |old(opTable)|
      ensures ip == old(ip) && stack == old(stack) && instructions == old(instructions)
    {
      opTable := opTable + [op];
      index := |opTable| - 1;
    }

    /** `VM::add_instruction` */
    method AddInstruction(opIndex: nat)
      modifies this
      ensures instructions == old(instructions) + [opIndex]
      ensures ip == old(ip) && stack == old(stack) && opTable == old(opTable)
    {
      instructions := instructions + [opIndex];
    }
  }

  /** Pushing then popping gives back the value and the old stack size. */
  method PushPop(vm: VM, value: Value) returns (r: Result<Value, VMError>)
    modifies vm
    ensures r == Ok(value) && vm.stack == old(vm.stack) && vm.StackSize() == old(vm.StackSize())
  {
    vm.Push(value);
    r := vm.Pop();
  }

  /** Push 42, pop it, then pop from the empty stack. */
  method StackExample() returns (size: nat, first: Result<Value, VMError>, second: Result<Value, VMError>)
    ensures size == 1 && first == Ok(Integer(42)) && second == Err(StackUnderflow)
  {
    var vm := new VM.New();
    vm.Push(Integer(42));
    size := vm.StackSize();
    first := vm.Pop();
    second := vm.Pop();
  }

  /** An operation pushing 123, run as the only instruction, leaves 123 on
      the stack. */
  method RunExample() returns (ending: Ending, top: Result<Value, VMError>)
    ensures ending == Finished && top == Ok(Integer(123))
  {
    var vm := new VM.New();
    var index := vm.AddOp((m: Machine) => Step(m.(stack := m.stack + [Integer(123)]), None));
    vm.AddInstruction(index);
    ending := vm.Run(1);
    top := vm.Pop();
  }

  /** An instruction naming a missing operation fails with InvalidOpCode. */
  method InvalidOpCodeExample() returns (ending: Ending)
    ensures ending == Failed(InvalidOpCode(999))
  {
    var vm := new VM.New();
    vm.AddInstruction(999);
    ending := vm.Run(1);
  }
}
