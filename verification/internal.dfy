/** Registration of built-in words: each is appended to the op table as a
    lambda and named in a module's index at its op-table position. Built-in
    functions are modelled by an identifier. */
module InternalRegistry {
  import opened Base
  import ModuleSystem
  import Values

  type Lambda = Values.Lambda

  datatype Error = ModuleNotFound(name: string)

  /** `Lambda::new_builtin`: named, not immediate, defined */
  function NewBuiltin(name: string, op: nat): (l: Lambda)
    ensures l.name == Some(name) && !l.immediate && l.defined && l.callable == Values.BuiltIn(op)
  {
    Values.Lambda(Some(name), false, true, Values.BuiltIn(op))
  }

  /** `Lambda::new_builtin_macro`: the same, but immediate */
  function NewBuiltinMacro(name: string, op: nat): (l: Lambda)
    ensures l == NewBuiltin(name, op).(immediate := true)
  {
    Values.Lambda(Some(name), true, true, Values.BuiltIn(op))
  }

  /** The builders of the internal modules */
  datatype Builder = Fs | Kernel | Internals | Io | Sandbox | Scanning | Strings | Vectors

  /** The dispatch at the head of `define_module` */
  function SelectBuilder(name: string): (r: Result<Builder, Error>)
    ensures r.Ok? <==> ModuleSystem.IsInternal(name)
    ensures r.Err? ==> r.error == ModuleNotFound(name)
  {
    if name == ModuleSystem.FS then Ok(Fs)
    else if name == ModuleSystem.KERNEL then Ok(Kernel)
    else if name == ModuleSystem.INTERNALS then Ok(Internals)
    else if name == ModuleSystem.IO then Ok(Io)
    else if name == ModuleSystem.SANDBOX then Ok(Sandbox)
    else if name == ModuleSystem.SCANNING then Ok(Scanning)
    else if name == ModuleSystem.STRINGS then Ok(Strings)
    else if name == ModuleSystem.VECTORS then Ok(Vectors)
    else Err(ModuleNotFound(name))
  }

  /** A module can be defined exactly when its name is one of the internal
      modules; any other name is not found. */
  lemma SelectBuilderInternal(name: string)
    ensures SelectBuilder(name).Ok? <==> ModuleSystem.IsInternal(name)
    ensures !ModuleSystem.IsInternal(name) ==> SelectBuilder(name) == Err(ModuleNotFound(name))
  {
  }

  /** The names the strings module registers, in order */
  const STRING_WORDS: seq<string> := [
    "<string>", ">string", "utf8>string", "concat", "nth", ">utf8", "empty?", "in?",
    "starts-with?", "ends-with?", "index-of?", "length", "replace-all", "split",
    "split-all", "split-at", "split-whitespace", "lines", "strip-start", "strip-end",
    "substring", ">lowercase", ">uppercase"]

  /** The op table being filled and the name index of the module being
      defined */
  class Registry {
    var opTable: seq<Lambda>
    var table: map<string, nat>

    constructor New(opTable: seq<Lambda>)
      ensures this.opTable == opTable && table == map[]
    {
      this.opTable := opTable;
      table := map[];
    }

    /** `push_op`: appends a built-in and names it at its position */
    method PushOp(name: string, op: nat)
      modifies this
      ensures opTable == old(opTable) + [NewBuiltin(name, op)]
      ensures table == old(table)[name := |old(opTable)|]
      ensures table[name] == |opTable| - 1
    {
      var lambda := NewBuiltin(name, op);
      var index := |opTable|;
      opTable := opTable + [lambda];
      table := table[name := index];
    }

    /** `push_macro`: as `push_op`, with an immediate lambda */
    method PushMacro(name: string, op: nat)
      modifies this
      ensures opTable == old(opTable) + [NewBuiltinMacro(name, op)]
      ensures table == old(table)[name := |old(opTable)|]
      ensures table[name] == |opTable| - 1
    {
      var lambda := NewBuiltinMacro(name, op);
      var index := |opTable|;
      opTable := opTable + [lambda];
      table := table[name := index];
    }

    /** Pushes each of the words in order, identifying the built-in for the
        i-th word by i: the words go into the op table one after another,
        and the table names each word at the op-table entry built for it. */
    method PushWords(words: seq<string>)
      modifies this
      ensures |opTable| == |old(opTable)| + |words| && opTable[..|old(opTable)|] == old(opTable)
      ensures forall i :: 0 <= i < |words| ==> opTable[|old(opTable)| + i] == NewBuiltin(words[i], i)
      ensures forall i :: 0 <= i < |words| ==> words[i] in table
      ensures forall w :: w in table && w !in old(table) ==>
        |old(opTable)| <= table[w] < |opTable| && opTable[table[w]].name == Some(w)
      ensures forall w :: w in old(table) && w !in words ==> w in table && table[w] == old(table)[w]
    {
      var base := |opTable|;
      var k := 0;
      while k < |words|
        invariant 0 <= k <= |words|
        invariant |opTable| == base + k && opTable[..base] == old(opTable)
        invariant forall i :: 0 <= i < k ==> opTable[base + i] == NewBuiltin(words[i], i)
        invariant forall i :: 0 <= i < k ==> words[i] in table
        invariant forall w :: w in table && w !in old(table) ==>
          base <= table[w] < base + k && opTable[table[w]].name == Some(w)
        invariant forall w :: w in old(table) && w !in words[..k] ==> w in table && table[w] == old(table)[w]
      {
        PushOp(words[k], k);
        k := k + 1;
      }
      assert words[..k] == words;
    }

    /** `StringsBuilder::define_module`: a module defining exactly the
        string words, each at the op-table entry built for it */
    method DefineStrings() returns (m: ModuleSystem.Module)
      modifies this
      ensures |opTable| == |old(opTable)| + |STRING_WORDS| && opTable[..|old(opTable)|] == old(opTable)
      ensures forall i :: 0 <= i < |STRING_WORDS| ==> opTable[|old(opTable)| + i] == NewBuiltin(STRING_WORDS[i], i)
      ensures m.name == ModuleSystem.STRINGS && m.imported == map[] && m.exported == {} && m.path.None?
      ensures forall i :: 0 <= i < |STRING_WORDS| ==> STRING_WORDS[i] in m.defined
      ensures forall w :: w in m.defined ==>
        |old(opTable)| <= m.defined[w] < |opTable| && opTable[m.defined[w]].name == Some(w)
    {
      table := map[];
      PushWords(STRING_WORDS);
      m := ModuleSystem.Module(None, ModuleSystem.STRINGS, table, map[], {});
    }
  }
}
