/** The running environment of the threaded-code VM: constants, the flat
    instruction vector, the op table of lambdas and the loaded modules.
    Constants are values of a type parameter, since `Value` is not part of
    this model. */
module Environments {
  import opened Base
  import Values

  type Lambda = Values.Lambda

  const KERNEL := "std/kernel"

  /** The environment's own `Module`: word names to op-table indices */
  datatype Module = Module(
    path: Option<string>,
    name: string,
    defined: map<string, nat>,
    imported: map<string, nat>)

  datatype Error =
    | ModuleNotFound(name: string)
    | InvalidInstructionPointer(ip: nat)
    | InvalidOpCode(ip: nat, index: nat)
    | KernelMissing          // indexing `modules[KERNEL]` panics

  /** `Module::new` */
  function NewModule(name: string): (m: Module)
    ensures m.name == name && m.path.None? && m.defined == map[] && m.imported == map[]
  {
    Module(None, name, map[], map[])
  }

  /** `Module::with_path` */
  function WithPath(path: string, name: string): (m: Module)
    ensures m.name == name && m.path == Some(path) && m.defined == map[] && m.imported == map[]
  {
    Module(Some(path), name, map[], map[])
  }

  /** `Module::with_imports`: a fresh module importing what the other
      module defines */
  function WithImports(name: string, other: Module): (r: Module)
    ensures r.name == name && r.path.None? && r.defined == map[]
    ensures r.imported == other.defined
  {
    Module(None, name, map[], other.defined)
  }

  /** `Module::get`: defined words first, then imported ones */
  function Get(m: Module, name: string): (r: Option<nat>)
    ensures r.None? <==> name !in m.defined && name !in m.imported
    ensures name in m.defined ==> r == Some(m.defined[name])
    ensures name !in m.defined && name in m.imported ==> r == Some(m.imported[name])
  {
    if name in m.defined then Some(m.defined[name])
    else if name in m.imported then Some(m.imported[name])
    else None
  }

  /** A module made with imports resolves every name as the other module's
      definitions do. */
  lemma WithImportsResolves(name: string, other: Module, w: string)
    ensures WithImports(name, other).name == name && WithImports(name, other).defined == map[]
    ensures Get(WithImports(name, other), w) == (if w in other.defined then Some(other.defined[w]) else None)
  {
  }

  /** The insertion loop shared by both `use_module`s: every entry of
      `from` goes into `into`, replacing an entry with the same key. */
  method InsertAll(into: map<string, nat>, from: map<string, nat>) returns (r: map<string, nat>)
    ensures r == into + from
  {
    r := into;
    var keys := from.Keys;
    while keys != {}
      invariant keys <= from.Keys
      invariant r == into + map k | k in from.Keys - keys :: from[k]
      decreases keys
    {
      var key :| key in keys;
      r := r[key := from[key]];
      keys := keys - {key};
    }
    assert from.Keys - keys == from.Keys;
  }

  /** After importing from another module, each of its definitions is
      imported at its index, and every other import is as it was. */
  lemma ImportedAfterUse(imported: map<string, nat>, defs: map<string, nat>, w: string)
    ensures w in defs ==> w in imported + defs && (imported + defs)[w] == defs[w]
    ensures w !in defs ==> (w in imported + defs <==> w in imported)
    ensures w !in defs && w in imported ==> (imported + defs)[w] == imported[w]
  {
  }

  /** `Module::use_module`: imports everything the other module defines */
  method UseModuleOf(m: Module, other: Module) returns (r: Module)
    ensures r == m.(imported := m.imported + other.defined)
  {
    var imported := InsertAll(m.imported, other.defined);
    r := m.(imported := imported);
  }

  class Environment<V> {
    var constants: seq<V>
    var instructions: seq<nat>
    var opTable: seq<Lambda>
    var modules: map<string, Module>

    /** `Environment::new` */
    constructor New()
      ensures constants == [] && instructions == [] && opTable == [] && modules == map[]
    {
      constants := [];
      instructions := [];
      opTable := [];
      modules := map[];
    }

    /** `Environment::extend_instructions`: appends the instructions and
        returns where they start */
    method ExtendInstructions(more: seq<nat>) returns (start: nat)
      modifies this
      ensures start == |old(instructions)| && instructions == old(instructions) + more
      ensures instructions[..start] == old(instructions) && instructions[start..] == more
      ensures constants == old(constants) && opTable == old(opTable) && modules == old(modules)
    {
      start := |instructions|;
      instructions := instructions + more;
    }

    /** `Environment::add_instruction` */
    method AddInstruction(opCode: nat)
      modifies this
      ensures instructions == old(instructions) + [opCode]
      ensures constants == old(constants) && opTable == old(opTable) && modules == old(modules)
    {
      instructions := instructions + [opCode];
    }

    /** `Environment::add_constant`: appends and returns the new index */
    method AddConstant(value: V) returns (index: nat)
      modifies this
      ensures constants == old(constants) + [value] && index == |old(constants)|
      ensures GetConstant(index) == Some(value)
      ensures instructions == old(instructions) && opTable == old(opTable) && modules == old(modules)
    {
      constants := constants + [value];
      index := |constants| - 1;
    }

    /** `Environment::get_constant` */
    function GetConstant(index: nat): (r: Option<V>)
      reads this
      ensures r.Some? <==> index < |constants|
      ensures r.Some? ==> r.value == constants[index]
    {
      if index < |constants| then Some(constants[index]) else None
    }

    /** `Environment::set_op_table` */
    method SetOpTable(table: seq<Lambda>)
      modifies this
      ensures opTable == table
      ensures constants == old(constants) && instructions == old(instructions) && modules == old(modules)
    {
      opTable := table;
    }

    /** `Environment::add_to_op_table`: the lambda always goes on the end of
        the op table; a named lambda is then defined in the module at that
        index, and a missing module is an error raised after the table has
        grown. */
    method AddToOpTable(moduleKey: string, lambda: Lambda) returns (r: Result<(), Error>)
      modifies this
      ensures opTable == old(opTable) + [lambda]
      ensures lambda.name.None? ==> r.Ok? && modules == old(modules)
      ensures lambda.name.Some? && moduleKey !in old(modules) ==>
        r == Err(ModuleNotFound(moduleKey)) && modules == old(modules)
      ensures lambda.name.Some? && moduleKey in old(modules) ==>
        r.Ok? && modules == old(modules)[moduleKey := old(modules)[moduleKey].(
          defined := old(modules)[moduleKey].defined[lambda.name.value := |old(opTable)|])]
      ensures constants == old(constants) && instructions == old(instructions)
    {
      var index := |opTable|;
      opTable := opTable + [lambda];
      if lambda.name.Some? {
        if moduleKey !in modules {
          return Err(ModuleNotFound(moduleKey));
        }
        var m := modules[moduleKey];
        modules := modules[moduleKey := m.(defined := m.defined[lambda.name.value := index])];
      }
      r := Ok(());
    }

    /** `Environment::add_macro`: a macro is added like any other lambda */
    method AddMacro(moduleName: string, macroLambda: Lambda) returns (r: Result<(), Error>)
      modifies this
      ensures opTable == old(opTable) + [macroLambda]
      ensures macroLambda.name.None? ==> r.Ok? && modules == old(modules)
      ensures macroLambda.name.Some? && moduleName in old(modules) ==>
        r.Ok? && GetOpIndex(moduleName, macroLambda.name.value) == Some(|old(opTable)|)
      ensures macroLambda.name.Some? && moduleName in old(modules) ==>
        modules == old(modules)[moduleName := old(modules)[moduleName].(
          defined := old(modules)[moduleName].defined[macroLambda.name.value := |old(opTable)|])]
      ensures macroLambda.name.Some? && moduleName !in old(modules) ==>
        r == Err(ModuleNotFound(moduleName)) && modules == old(modules)
      ensures constants == old(constants) && instructions == old(instructions)
    {
      r := AddToOpTable(moduleName, macroLambda);
    }

    /** `Environment::set_imported`: replaces a module's imports; a missing
        module is left missing */
    method SetImported(modulePath: string, imported: map<string, nat>)
      modifies this
      ensures modulePath in old(modules) ==>
        modules == old(modules)[modulePath := old(modules)[modulePath].(imported := imported)]
      ensures modulePath !in old(modules) ==> modules == old(modules)
      ensures constants == old(constants) && instructions == old(instructions) && opTable == old(opTable)
    {
      if modulePath in modules {
        modules := modules[modulePath := modules[modulePath].(imported := imported)];
      }
    }

    /** `Environment::get_op_index`: the word's index in the named module */
    function GetOpIndex(moduleName: string, word: string): (r: Option<nat>)
      reads this
      ensures r.Some? <==> moduleName in modules && Get(modules[moduleName], word).Some?
    {
      if moduleName in modules then Get(modules[moduleName], word) else None
    }

    /** `Environment::get_instruction` */
    function GetInstruction(ip: nat): (r: Result<nat, Error>)
      reads this
      ensures ip < |instructions| ==> r == Ok(instructions[ip])
      ensures ip >= |instructions| ==> r == Err(InvalidInstructionPointer(ip))
    {
      if ip < |instructions| then Ok(instructions[ip]) else Err(InvalidInstructionPointer(ip))
    }

    /** `Environment::get_op`: the error names both the instruction pointer
        and the missing index */
    function GetOp(ip: nat, index: nat): (r: Result<Lambda, Error>)
      reads this
      ensures index < |opTable| ==> r == Ok(opTable[index])
      ensures index >= |opTable| ==> r == Err(InvalidOpCode(ip, index))
    {
      if index < |opTable| then Ok(opTable[index]) else Err(InvalidOpCode(ip, index))
    }

    /** `Environment::add_module` */
    method AddModule(m: Module)
      modifies this
      ensures modules == old(modules)[m.name := m]
      ensures constants == old(constants) && instructions == old(instructions) && opTable == old(opTable)
    {
      var name := m.name;
      modules := modules[name := m];
    }

    /** `Environment::create_module`: a module importing the kernel's
        definitions; without a kernel module the lookup panics */
    function CreateModule(name: string): (r: Result<Module, Error>)
      reads this
      ensures KERNEL !in modules ==> r == Err(KernelMissing)
      ensures KERNEL in modules ==>
        r.Ok? && r.value.name == name && r.value.imported == modules[KERNEL].defined && r.value.defined == map[]
    {
      if KERNEL in modules then Ok(WithImports(name, modules[KERNEL])) else Err(KernelMissing)
    }

    /** `Environment::get_or_create_module_mut`: an existing module is
        returned as it is; otherwise a new module importing the kernel is
        added under the name and returned. */
    method GetOrCreateModule(name: string) returns (r: Result<Module, Error>)
      modifies this
      ensures name in old(modules) ==> modules == old(modules) && r == Ok(old(modules)[name])
      ensures name !in old(modules) && KERNEL in old(modules) ==>
        r.Ok? && r.value.defined == map[] && r.value.imported == old(modules)[KERNEL].defined
        && modules == old(modules)[name := r.value]
      ensures name !in old(modules) && KERNEL !in old(modules) ==> r == Err(KernelMissing) && modules == old(modules)
      ensures constants == old(constants) && instructions == old(instructions) && opTable == old(opTable)
    {
      if name in modules {
        return Ok(modules[name]);
      }
      var created := CreateModule(name);
      if created.Err? {
        return created;
      }
      AddModule(created.value);
      r := Ok(modules[name]);
    }

    /** `Environment::use_module`: copies the source module's definitions
        into the destination's imports, replacing same-named imports; a
        missing source or destination is an error that changes nothing. */
    method UseModule(source: string, dest: string) returns (r: Result<(), Error>)
      modifies this
      ensures source !in old(modules) ==> r == Err(ModuleNotFound(source)) && modules == old(modules)
      ensures source in old(modules) && dest !in old(modules) ==> r == Err(ModuleNotFound(dest)) && modules == old(modules)
      ensures source in old(modules) && dest in old(modules) ==>
        r.Ok? && modules == old(modules)[dest := old(modules)[dest].(
          imported := old(modules)[dest].imported + old(modules)[source].defined)]
      ensures constants == old(constants) && instructions == old(instructions) && opTable == old(opTable)
    {
      if source !in modules {
        return Err(ModuleNotFound(source));
      }
      var defs := modules[source].defined;
      if dest !in modules {
        return Err(ModuleNotFound(dest));
      }
      var target := modules[dest];
      var imported := InsertAll(target.imported, defs);
      modules := modules[dest := target.(imported := imported)];
      r := Ok(());
    }
  }
}
