/** Modules of words: each maps word names to indices in the environment's
    op table, split into words it defines and words it imports, with an
    optional export list; the module manager keeps the loaded modules by
    name. */
module ModuleSystem {
  import opened Base

  /** The names of the modules whose words are built in */
  const FS := "std/fs"
  const KERNEL := "std/kernel"
  const SANDBOX := "std/sandbox"
  const INTERNALS := "std/_internals"
  const IO := "std/io"
  const SCANNING := "std/scanning"
  const STRINGS := "std/strings"
  const VECTORS := "std/vectors"

  const INTERNAL_MODULES: set<string> := {FS, KERNEL, SANDBOX, INTERNALS, IO, SCANNING, STRINGS, VECTORS}

  datatype Module = Module(
    path: Option<string>,
    name: string,
    defined: map<string, nat>,
    imported: map<string, nat>,
    exported: set<string>)

  /** A map lookup as an option */
  function Lookup<K, V>(m: map<K, V>, k: K): Option<V>
  {
    if k in m then Some(m[k]) else None
  }

  function OrElse<T>(a: Option<T>, b: Option<T>): Option<T>
  {
    if a.Some? then a else b
  }

  /** `Module::new` */
  function NewModule(name: string): (m: Module)
    ensures m.name == name && m.path.None?
    ensures m.defined == map[] && m.imported == map[] && m.exported == {}
  {
    Module(None, name, map[], map[], {})
  }

  /** `Module::with_path` */
  function WithPath(path: string, name: string): (m: Module)
    ensures m.name == name && m.path == Some(path)
    ensures m.defined == map[] && m.imported == map[] && m.exported == {}
  {
    Module(Some(path), name, map[], map[], {})
  }

  /** `Module::with_imports`: a fresh module importing everything the other
      module defines */
  function WithImports(name: string, other: Module): (r: Module)
    ensures r.name == name && r.path.None? && r.defined == map[] && r.exported == {}
    ensures r.imported == other.defined
  {
    Module(None, name, map[], other.defined, {})
  }

  /** `Module::get`: defined words first, then imported ones */
  function Get(m: Module, name: string): (r: Option<nat>)
    ensures r.None? <==> name !in m.defined && name !in m.imported
    ensures name in m.defined ==> r == Some(m.defined[name])
    ensures name !in m.defined && name in m.imported ==> r == Some(m.imported[name])
  {
    OrElse(Lookup(m.defined, name), Lookup(m.imported, name))
  }

  /** A name resolves exactly when it is defined or imported, and a defined
      word hides an imported word of the same name. */
  lemma GetResolves(m: Module, name: string)
    ensures Get(m, name).Some? <==> name in m.defined || name in m.imported
    ensures name in m.defined ==> Get(m, name) == Some(m.defined[name])
    ensures name !in m.defined && name in m.imported ==> Get(m, name) == Some(m.imported[name])
  {
  }

  /** A module made with imports defines and exports nothing and resolves
      every name as the other module's definitions do. */
  lemma WithImportsResolves(name: string, other: Module, w: string)
    ensures WithImports(name, other).defined == map[] && WithImports(name, other).exported == {}
    ensures WithImports(name, other).imported == other.defined
    ensures Get(WithImports(name, other), w) == Lookup(other.defined, w)
  {
  }

  /** What a module exports: everything it defines when it has no export
      list, otherwise each listed name that resolves, at its index */
  function Exports(m: Module): (r: map<string, nat>)
    ensures m.exported == {} ==> r == m.defined
    ensures m.exported != {} ==> r.Keys <= m.exported
    ensures forall n :: n in r ==> Get(m, n) == Some(r[n])
  {
    if m.exported == {} then m.defined
    else map n | n in m.exported && Get(m, n).Some? :: Get(m, n).value
  }

  /** With an export list, exactly the listed names that resolve are
      exported, defined-first; names found nowhere are dropped. */
  lemma ExportsListed(m: Module, n: string)
    requires m.exported != {}
    ensures n in Exports(m) <==> n in m.exported && (n in m.defined || n in m.imported)
    ensures n in Exports(m) ==> Some(Exports(m)[n]) == Get(m, n)
  {
    GetResolves(m, n);
  }

  /** Without an export list, a module exports what it defines and none of
      its imports. */
  lemma ExportsDefault(m: Module, n: string)
    requires m.exported == {}
    ensures Exports(m) == m.defined
    ensures n in m.imported && n !in m.defined ==> n !in Exports(m)
  {
  }

  /** `Module::get_exports`: the two loops that fill the export map */
  method GetExports(m: Module) returns (exports: map<string, nat>)
    ensures exports == Exports(m)
  {
    exports := map[];
    if m.exported == {} {
      var keys := m.defined.Keys;
      while keys != {}
        invariant keys <= m.defined.Keys
        invariant exports == map k | k in m.defined.Keys - keys :: m.defined[k]
        decreases keys
      {
        var key :| key in keys;
        exports := exports[key := m.defined[key]];
        keys := keys - {key};
      }
      assert m.defined.Keys - keys == m.defined.Keys;
    } else {
      var names := m.exported;
      while names != {}
        invariant names <= m.exported
        invariant exports == map n | n in m.exported - names && Get(m, n).Some? :: Get(m, n).value
        decreases names
      {
        var name :| name in names;
        var index := OrElse(Lookup(m.defined, name), Lookup(m.imported, name));
        if index.Some? {
          exports := exports[name := index.value];
        }
        names := names - {name};
      }
      assert m.exported - names == m.exported;
    }
  }

  /** `ModuleManager::is_internal`: the module's words are built in */
  predicate IsInternal(name: string)
    ensures IsInternal(name) ==> |name| > 4 && name[..4] == "std/"
  {
    name in INTERNAL_MODULES
  }

  /** Exactly the eight built-in module names are internal. */
  lemma InternalNames(name: string)
    ensures IsInternal(name) <==>
      name == "std/fs" || name == "std/kernel" || name == "std/sandbox" || name == "std/_internals"
      || name == "std/io" || name == "std/scanning" || name == "std/strings" || name == "std/vectors"
    ensures |INTERNAL_MODULES| == 8
  {
  }

  /** Where the search for a target goes first */
  datatype FindStart =
    | ModuleNotFound(target: string)        // a relative name with no context
    | FromContext(context: string, target: string)
    | FromSearchPaths(target: string)

  /** The guard at the head of `ModuleManager::find`: a `./` or `../` name is
      resolved against the context module's path, and without one it is not
      found; any other name is searched for on the search paths. */
  function Find(target: string, context: Option<string>): (r: FindStart)
    ensures r.ModuleNotFound? <==> (IsPrefix("./", target) || IsPrefix("../", target)) && context.None?
    ensures r.FromSearchPaths? <==> !IsPrefix("./", target) && !IsPrefix("../", target)
    ensures r.target == target
  {
    if IsPrefix("./", target) || IsPrefix("../", target) then
      if context.Some? then FromContext(context.value, target) else ModuleNotFound(target)
    else FromSearchPaths(target)
  }

  /** `ModuleManager`: the loaded modules by name; the search paths are
      only read by the file search, which is not modelled. */
  class ModuleManager {
    var paths: seq<string>
    var modules: map<string, Module>

    /** `ModuleManager::new`, with the paths already canonical */
    constructor New(paths: seq<string>)
      ensures this.paths == paths && modules == map[]
    {
      this.paths := paths;
      modules := map[];
    }

    /** `ModuleManager::get` */
    function GetModule(name: string): Option<Module>
      reads this
    {
      Lookup(modules, name)
    }

    /** `ModuleManager::contains_module` */
    predicate ContainsModule(name: string)
      reads this
    {
      name in modules
    }

    /** `ModuleManager::get_op_index`: the word's index in the named module */
    function GetOpIndex(moduleName: string, word: string): (r: Option<nat>)
      reads this
      ensures r.Some? <==> moduleName in modules && Get(modules[moduleName], word).Some?
    {
      match GetModule(moduleName)
      case Some(m) => Get(m, word)
      case None => None
    }

    /** `ModuleManager::add_module`: stores the module under its own name,
        replacing any module of that name and leaving the others alone */
    method AddModule(m: Module)
      modifies this
      ensures modules == old(modules)[m.name := m] && paths == old(paths)
      ensures ContainsModule(m.name) && GetModule(m.name) == Some(m)
      ensures forall n :: n != m.name ==> GetModule(n) == old(GetModule(n))
    {
      var name := m.name;
      modules := modules[name := m];
    }
  }
}
