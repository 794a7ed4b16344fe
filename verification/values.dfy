/** The interpreter's values: `ValueData` (integers, floats, booleans, chars,
    strings, lists, hash maps, functions, addresses, words, symbols and a few
    markers) with its equality, ordering, integer arithmetic and rendering,
    and `FrozenValueData`, the hashable subset used as hash-map keys, with
    freezing and thawing between the two. */
module Values {
  import opened Base

  datatype Ordering = Less | Equal | Greater

  /** An `f64`, kept as its bit pattern; no float arithmetic is modelled */
  datatype F64 = F64(bits: bv64)

  /** The float operations the value layer calls, supplied from outside:
      arithmetic, `i64 as f64`, IEEE equality and ordering, and the test
      against `0.0` */
  datatype FloatOps = FloatOps(
    add: (F64, F64) -> F64,
    sub: (F64, F64) -> F64,
    mul: (F64, F64) -> F64,
    div: (F64, F64) -> F64,
    fromInt: int -> F64,
    eq: (F64, F64) -> bool,
    cmp: (F64, F64) -> Option<Ordering>,
    isZero: F64 -> bool)

  /** A built-in is identified by `id`; a compiled function by its words
      and entry point */
  datatype Callable = BuiltIn(id: nat) | Compiled(words: seq<string>, ip: nat)

  datatype Lambda = Lambda(name: Option<string>, immediate: bool, defined: bool, callable: Callable)

  datatype ValueData =
    | Integer(i: Int64)
    | Float(f: F64)
    | Boolean(b: bool)
    | Char(c: char)
    | String(s: string)
    | List(items: seq<ValueData>)
    | HashMap(entries: map<FrozenValueData, ValueData>)
    | Function(lambda: Lambda)
    | Address(addr: nat)
    | Word(word: string)
    | Symbol(moduleName: string, word: string)
    | Macro
    | Literal(value: ValueData)
    | Return(addr: nat, breakpoint: bool)
    | Writer(writer: nat)
    | Reader(reader: nat)
    | EndOfInput

  datatype FrozenValueData =
    | Integer(i: Int64)
    | Boolean(b: bool)
    | Char(c: char)
    | String(s: string)
    | Address(addr: nat)
    | Word(word: string)
    | Symbol(moduleName: string, word: string)
    | Return(addr: nat, breakpoint: bool)

  datatype Error =
    | TypeMismatch(operation: string)
    | DivisionByZero
    | UnfreezableValue(value: ValueData)
    | DivisionOverflow     // `i64::MIN / -1` panics

  // ---------------------------------------------------------------------
  // Freezing and thawing

  /** The kinds of value that have a frozen form */
  predicate Freezable(v: ValueData)
  {
    v.Integer? || v.Boolean? || v.Char? || v.String? || v.Address? || v.Word? || v.Symbol? || v.Return?
  }

  /** `FrozenValueData::try_from` */
  function Freeze(v: ValueData): (r: Result<FrozenValueData, Error>)
    ensures r.Ok? <==> Freezable(v)
    ensures r.Err? ==> r.error == UnfreezableValue(v)
  {
    match v
    case Integer(i) => Ok(FrozenValueData.Integer(i))
    case Boolean(b) => Ok(FrozenValueData.Boolean(b))
    case Char(c) => Ok(FrozenValueData.Char(c))
    case String(s) => Ok(FrozenValueData.String(s))
    case Address(a) => Ok(FrozenValueData.Address(a))
    case Word(w) => Ok(FrozenValueData.Word(w))
    case Symbol(m, w) => Ok(FrozenValueData.Symbol(m, w))
    case Return(a, bp) => Ok(FrozenValueData.Return(a, bp))
    case _ => Err(UnfreezableValue(v))
  }

  /** `ValueData::from(FrozenValueData)` */
  function Thaw(f: FrozenValueData): (v: ValueData)
    ensures Freezable(v) && Freeze(v) == Ok(f)
  {
    match f
    case Integer(i) => ValueData.Integer(i)
    case Boolean(b) => ValueData.Boolean(b)
    case Char(c) => ValueData.Char(c)
    case String(s) => ValueData.String(s)
    case Address(a) => ValueData.Address(a)
    case Word(w) => ValueData.Word(w)
    case Symbol(m, w) => ValueData.Symbol(m, w)
    case Return(a, bp) => ValueData.Return(a, bp)
  }

  /** Freezing succeeds exactly for the eight freezable kinds and otherwise
      reports the value itself as unfreezable. */
  lemma FreezeDomain(v: ValueData)
    ensures Freeze(v).Ok? <==> Freezable(v)
    ensures !Freezable(v) ==> Freeze(v) == Err(UnfreezableValue(v))
  {
  }

  /** Thawing then freezing gives back the frozen value, and a value that
      freezes is what its frozen form thaws to. */
  lemma FreezeThaw(f: FrozenValueData, v: ValueData)
    ensures Freeze(Thaw(f)) == Ok(f)
    ensures Freeze(v) == Ok(f) ==> Thaw(f) == v
  {
  }

  // ---------------------------------------------------------------------
  // Rendering

  /** The `Display` form of a char: quoted, with newline, return, tab,
      backslash and quote escaped */
  function ShowChar(c: char): string
  {
    if c == '\n' then "'\\n'"
    else if c == '\r' then "'\\r'"
    else if c == '\t' then "'\\t'"
    else if c == '\\' then "'\\\\'"
    else if c == '\'' then "'\\''"
    else ['\'', c, '\'']
  }

  /** Different chars render differently. */
  lemma ShowCharInjective(c: char, d: char)
    ensures ShowChar(c) == ShowChar(d) ==> c == d
  {
    if ShowChar(c) == ShowChar(d) {
      assert ShowChar(c)[1] == ShowChar(d)[1];
      if |ShowChar(c)| == 4 {
        assert ShowChar(c)[2] == ShowChar(d)[2];
      }
    }
  }

  function ShowBool(b: bool): string
  {
    if b then "#t" else "#f"
  }

  /** A string literal: quoted, after doubling each backslash and then
      escaping each double quote */
  function QuoteString(s: string): string
  {
    "\"" + ReplaceAll(ReplaceAll(s, "\\", "\\\\"), "\"", "\\\"") + "\""
  }

  /** Quoting escapes each backslash and each double quote once: the two
      replacements in that order give the per-char escape. */
  lemma {:induction false} QuoteStringEscapes(s: string)
    ensures QuoteString(s) == ['"'] + Escape(s) + ['"']
  {
    EscapeByReplacing(s);
  }

  lemma {:induction false} EscapeByReplacing(s: string)
    ensures ReplaceAll(ReplaceAll(s, "\\", "\\\\"), "\"", "\\\"") == Escape(s)
    decreases |s|
  {
    if s != [] {
      var c, t := s[0], s[1..];
      var first := if c == '\\' then "\\\\" else [c];
      assert s[..1] == [c];
      assert ReplaceAll(s, "\\", "\\\\") == first + ReplaceAll(t, "\\", "\\\\");
      ReplaceCharAppend(first, ReplaceAll(t, "\\", "\\\\"), '"', "\\\"");
      EscapeByReplacing(t);
      if c == '\\' {
        assert ReplaceAll(first, "\"", "\\\"") == first by {
          assert first[1..] == "\\";
          assert ReplaceAll("\\", "\"", "\\\"") == "\\" by {
            assert ReplaceAll([], "\"", "\\\"") == [];
          }
        }
      } else {
        assert ReplaceAll(first, "\"", "\\\"") == EscapeChar(c) by {
          assert first[..1] == first && first[1..] == [];
        }
      }
    }
  }

  /** `FrozenValueData`'s `Display` */
  function FrozenShow(f: FrozenValueData): string
  {
    match f
    case Integer(n) => ShowInt(n)
    case Boolean(b) => ShowBool(b)
    case Char(c) => ShowChar(c)
    case String(s) => s
    case Address(a) => "<@" + ShowNat(a) + ">"
    case Word(w) => w
    case Symbol(m, w) => m + "::" + w
    case Return(a, bp) => "<@" + ShowNat(a) + " - " + (if bp then "true" else "false") + ">"
  }

  /** `FrozenValueData::to_repr` */
  function FrozenRepr(f: FrozenValueData): string
  {
    if f.String? then QuoteString(f.s) else FrozenShow(f)
  }

  /** `ValueData`'s `Display`, where it is modelled: floats, hash maps,
      functions, literals, readers and writers (and lists holding them)
      render through code outside this model and give `None`. */
  function ValueShow(v: ValueData): (r: Option<string>)
    ensures (v.Integer? || v.Boolean? || v.Char? || v.String? || v.Address? || v.Word? || v.Symbol?
             || v.Macro? || v.Return? || v.EndOfInput?) ==> r.Some?
    ensures (v.Float? || v.HashMap? || v.Function? || v.Literal? || v.Writer? || v.Reader?) ==> r.None?
    decreases v, 1
  {
    match v
    case Integer(n) => Some(ShowInt(n))
    case Boolean(b) => Some(ShowBool(b))
    case Char(c) => Some(ShowChar(c))
    case List(items) =>
      (match ShowItems(items)
       case Some(body) => Some("{" + body + " }")
       case None => None)
    case String(s) => Some(s)
    case Address(a) => Some("<@" + ShowNat(a) + ">")
    case Word(w) => Some(w)
    case Symbol(m, w) => Some(m + "::" + w)
    case Macro => Some("MACRO:")
    case Return(a, bp) => Some("<@" + ShowNat(a) + " - " + (if bp then "true" else "false") + ">")
    case EndOfInput => Some("<EOI>")
    case _ => None
  }

  /** The list body: a space and the repr of each item */
  function ShowItems(items: seq<ValueData>): Option<string>
    decreases items, 0
  {
    if items == [] then Some("")
    else match (ValueRepr(items[0]), ShowItems(items[1..]))
      case (Some(head), Some(rest)) => Some(" " + head + rest)
      case _ => None
  }

  /** `ValueData::to_repr` */
  function ValueRepr(v: ValueData): (r: Option<string>)
    ensures r.Some? <==> ValueShow(v).Some?
    ensures v.String? ==> r == Some(QuoteString(v.s))
    decreases v, 2
  {
    if v.String? then Some(QuoteString(v.s)) else ValueShow(v)
  }

  /** A list renders as braces around each item's repr, each after a
      space, so a string inside a list is quoted. */
  lemma ListRendering(s: string)
    ensures ValueShow(ValueData.List([])) == Some("{ }")
    ensures ValueShow(ValueData.List([ValueData.String(s)])) == Some("{ " + QuoteString(s) + " }")
  {
    assert ShowItems([]) == Some("");
    assert "{" + "" + " }" == "{ }";
    var items := [ValueData.String(s)];
    var q := QuoteString(s);
    assert items[1..] == [];
    assert ValueRepr(items[0]) == Some(q);
    assert ShowItems(items) == Some(" " + q + "");
    assert " " + q + "" == " " + q;
    assert "{" + (" " + q) + " }" == "{ " + q + " }";
  }

  /** A frozen value and its thawed form render alike. */
  lemma ThawRendersAlike(f: FrozenValueData)
    ensures ValueShow(Thaw(f)) == Some(FrozenShow(f))
    ensures ValueRepr(Thaw(f)) == Some(FrozenRepr(f))
  {
  }

  // ---------------------------------------------------------------------
  // Words

  /** `get_word` */
  function GetWord(v: ValueData): (r: Option<string>)
    ensures r.Some? <==> v.Word? || v.Symbol?
  {
    if v.Word? || v.Symbol? then Some(v.word) else None
  }

  /** Between words and symbols, with at least one a plain word, equality
      is agreement of the words `get_word` returns. */
  lemma GetWordEquality(ops: FloatOps, a: ValueData, b: ValueData)
    requires (a.Word? && (b.Word? || b.Symbol?)) || (b.Word? && (a.Word? || a.Symbol?))
    ensures GetWord(a).Some? && GetWord(b).Some?
    ensures Equals(ops, a, b) <==> GetWord(a) == GetWord(b)
  {
  }

  /** Only words and symbols have a word. */
  lemma GetWordKinds(v: ValueData)
    ensures GetWord(v).Some? <==> v.Word? || v.Symbol?
  {
  }

  // ---------------------------------------------------------------------
  // Equality

  /** `PartialEq for Lambda` (derived): name, flags and callable; built-ins
      compare by identity, compiled functions by entry point */
  predicate LambdaEqual(a: Lambda, b: Lambda)
  {
    a.name == b.name && a.immediate == b.immediate && a.defined == b.defined
    && match (a.callable, b.callable)
       case (BuiltIn(x), BuiltIn(y)) => x == y
       case (Compiled(_, x), Compiled(_, y)) => x == y
       case _ => false
  }

  /** `PartialEq for ValueData` */
  predicate Equals(ops: FloatOps, a: ValueData, b: ValueData)
    ensures Equals(ops, a, b) ==> Kind(a) == Kind(b)
    ensures (a.Return? || a.Writer? || a.Reader?) ==> !Equals(ops, a, b)
    decreases a
  {
    match a
    case Integer(x) => (b.Integer? && x == b.i) || (b.Float? && ops.eq(ops.fromInt(x), b.f))
    case Float(x) => (b.Float? && ops.eq(x, b.f)) || (b.Integer? && ops.eq(x, ops.fromInt(b.i)))
    case Boolean(x) => b.Boolean? && x == b.b
    case Char(x) => b.Char? && x == b.c
    case String(x) => b.String? && x == b.s
    case List(x) => b.List? && |x| == |b.items| && forall i :: 0 <= i < |x| ==> Equals(ops, x[i], b.items[i])
    case HashMap(x) =>
      b.HashMap? && |x| == |b.entries| && forall k :: k in x ==> k in b.entries && Equals(ops, x[k], b.entries[k])
    case Function(x) => b.Function? && LambdaEqual(x, b.lambda)
    case Address(x) => b.Address? && x == b.addr
    case Word(x) => (b.Word? || b.Symbol?) && x == b.word
    case Symbol(m, x) => (b.Word? && x == b.word) || (b.Symbol? && m == b.moduleName && x == b.word)
    case Macro => b.Macro?
    case Literal(x) => b.Literal? && Equals(ops, x, b.value)
    case EndOfInput => b.EndOfInput?
    case _ => false
  }

  /** A word equals a symbol with the same word whatever its module; two
      symbols must agree on both. */
  lemma WordSymbolEquality(ops: FloatOps, w: string, m: string, x: string, m2: string)
    ensures Equals(ops, ValueData.Word(w), ValueData.Symbol(m, x)) <==> w == x
    ensures Equals(ops, ValueData.Symbol(m, x), ValueData.Word(w)) <==> w == x
    ensures Equals(ops, ValueData.Symbol(m, x), ValueData.Symbol(m2, w)) <==> m == m2 && w == x
    ensures Equals(ops, ValueData.Word(w), ValueData.Word(x)) <==> w == x
  {
  }

  /** Return addresses, readers and writers are never equal, not even to
      themselves. */
  lemma NotSelfEqual(ops: FloatOps, a: nat, bp: bool, h: nat)
    ensures !Equals(ops, ValueData.Return(a, bp), ValueData.Return(a, bp))
    ensures !Equals(ops, ValueData.Writer(h), ValueData.Writer(h))
    ensures !Equals(ops, ValueData.Reader(h), ValueData.Reader(h))
  {
  }

  /** The float operations' equality is symmetric. */
  ghost predicate SymmetricEq(ops: FloatOps)
  {
    forall x, y :: ops.eq(x, y) == ops.eq(y, x)
  }

  /** Two finite sets of keys, one inside the other and of one size, are the
      same set. */
  lemma SameKeys<K>(x: set<K>, y: set<K>)
    requires x <= y && |x| == |y|
    ensures x == y
  {
    assert x - y == {} && x * y == x && x + y == y;
    assert |y - x| == 0;
  }

  /** Equality is symmetric when float equality is. */
  lemma {:induction false} EqualSymmetric(ops: FloatOps, a: ValueData, b: ValueData)
    requires SymmetricEq(ops)
    ensures Equals(ops, a, b) == Equals(ops, b, a)
    decreases a, 1
  {
    if a.List? && b.List? {
      ListsSymmetric(ops, a.items, b.items);
    } else if a.HashMap? && b.HashMap? {
      MapsSymmetric(ops, a.entries, b.entries);
    } else if a.Literal? && b.Literal? {
      EqualSymmetric(ops, a.value, b.value);
    } else {
      ScalarsSymmetric(ops, a, b);
    }
  }

  lemma ScalarsSymmetric(ops: FloatOps, a: ValueData, b: ValueData)
    requires SymmetricEq(ops)
    requires !(a.List? && b.List?) && !(a.HashMap? && b.HashMap?) && !(a.Literal? && b.Literal?)
    ensures Equals(ops, a, b) == Equals(ops, b, a)
  {
  }

  lemma {:induction false} ListsSymmetric(ops: FloatOps, x: seq<ValueData>, y: seq<ValueData>)
    requires SymmetricEq(ops)
    ensures Equals(ops, ValueData.List(x), ValueData.List(y)) == Equals(ops, ValueData.List(y), ValueData.List(x))
    decreases ValueData.List(x), 0
  {
    if |x| == |y| {
      forall i | 0 <= i < |x|
        ensures Equals(ops, x[i], y[i]) == Equals(ops, y[i], x[i])
      {
        EqualSymmetric(ops, x[i], y[i]);
      }
    }
  }

  lemma {:induction false} MapsSymmetric(ops: FloatOps, x: map<FrozenValueData, ValueData>, y: map<FrozenValueData, ValueData>)
    requires SymmetricEq(ops)
    ensures Equals(ops, ValueData.HashMap(x), ValueData.HashMap(y)) == Equals(ops, ValueData.HashMap(y), ValueData.HashMap(x))
    decreases ValueData.HashMap(x), 0
  {
    forall k | k in x && k in y
      ensures Equals(ops, x[k], y[k]) == Equals(ops, y[k], x[k])
    {
      EqualSymmetric(ops, x[k], y[k]);
    }
    if |x| == |y| {
      if forall k :: k in x ==> k in y {
        SameKeys(x.Keys, y.Keys);
      }
      if forall k :: k in y ==> k in x {
        SameKeys(y.Keys, x.Keys);
      }
    }
  }

  // ---------------------------------------------------------------------
  // Ordering

  function CompareInt(a: int, b: int): Ordering
  {
    if a < b then Less else if a == b then Equal else Greater
  }

  function CompareBool(a: bool, b: bool): Ordering
  {
    if a == b then Equal else if b then Less else Greater
  }

  /** String order: lexicographic by char (UTF-8 byte order is code-point
      order, so this is `str`'s order) */
  function CompareStrings(a: string, b: string): Ordering
  {
    if a == [] && b == [] then Equal
    else if a == [] then Less
    else if b == [] then Greater
    else if a[0] < b[0] then Less
    else if a[0] > b[0] then Greater
    else CompareStrings(a[1..], b[1..])
  }

  /** `Option<String>`'s order: `None` first */
  function CompareNames(a: Option<string>, b: Option<string>): Ordering
  {
    match (a, b)
    case (None, None) => Equal
    case (None, Some(_)) => Less
    case (Some(_), None) => Greater
    case (Some(x), Some(y)) => CompareStrings(x, y)
  }

  /** `PartialOrd for Lambda` (derived): name, then the flags, then the
      callable, which never compares */
  function CompareLambdas(a: Lambda, b: Lambda): Option<Ordering>
  {
    var n := CompareNames(a.name, b.name);
    if n != Equal then Some(n)
    else if a.immediate != b.immediate then Some(CompareBool(a.immediate, b.immediate))
    else if a.defined != b.defined then Some(CompareBool(a.defined, b.defined))
    else None
  }

  /** `PartialOrd for ValueData` */
  function PartialCmp(ops: FloatOps, a: ValueData, b: ValueData): (r: Option<Ordering>)
    ensures r.Some? ==> Kind(a) == Kind(b)
    ensures a.Integer? && b.Integer? ==>
      (r == Some(Less) <==> a.i < b.i) && (r == Some(Equal) <==> a.i == b.i) && (r == Some(Greater) <==> a.i > b.i)
    decreases a, 1
  {
    match a
    case Integer(x) =>
      if b.Integer? then Some(CompareInt(x, b.i))
      else if b.Float? then ops.cmp(ops.fromInt(x), b.f)
      else None
    case Float(x) =>
      if b.Float? then ops.cmp(x, b.f)
      else if b.Integer? then ops.cmp(x, ops.fromInt(b.i))
      else None
    case Char(x) => if b.Char? then Some(CompareInt(x as int, b.c as int)) else None
    case Boolean(x) => if b.Boolean? then Some(CompareBool(x, b.b)) else None
    case List(x) =>
      if !b.List? then None
      else if |x| != |b.items| then Some(CompareInt(|x|, |b.items|))
      else FirstDifference(ops, x, b.items)
    case String(x) => if b.String? then Some(CompareStrings(x, b.s)) else None
    case Function(x) => if b.Function? then CompareLambdas(x, b.lambda) else None
    case Word(x) => if b.Word? then Some(CompareStrings(x, b.word)) else None
    case Symbol(m1, w1) =>
      if !b.Symbol? then None
      else
        var m := CompareStrings(m1, b.moduleName);
        Some(if m != Equal then m else CompareStrings(w1, b.word))
    case _ => None
  }

  /** Equal-length lists: the comparison of the first pair of items that does
      not compare equal, or `Equal` */
  function FirstDifference(ops: FloatOps, x: seq<ValueData>, y: seq<ValueData>): Option<Ordering>
    requires |x| == |y|
    decreases x, 0
  {
    if x == [] then Some(Equal)
    else
      var c := PartialCmp(ops, x[0], y[0]);
      if c != Some(Equal) then c else FirstDifference(ops, x[1..], y[1..])
  }

  /** `Ord::cmp`: an incomparable pair counts as `Less` */
  function Cmp(ops: FloatOps, a: ValueData, b: ValueData): (r: Ordering)
    ensures PartialCmp(ops, a, b).Some? ==> r == PartialCmp(ops, a, b).value
    ensures Kind(a) != Kind(b) ==> r == Less
  {
    match PartialCmp(ops, a, b)
    case Some(o) => o
    case None => Less
  }

  /** The comparison loop over two equal-length lists */
  method CompareItems(ops: FloatOps, x: seq<ValueData>, y: seq<ValueData>) returns (r: Option<Ordering>)
    requires |x| == |y|
    ensures r == FirstDifference(ops, x, y)
  {
    var i := 0;
    while i < |x|
      invariant 0 <= i <= |x|
      invariant FirstDifference(ops, x[i..], y[i..]) == FirstDifference(ops, x, y)
      decreases |x| - i
    {
      assert x[i..][1..] == x[i + 1..] && y[i..][1..] == y[i + 1..];
      var c := PartialCmp(ops, x[i], y[i]);
      if c != Some(Equal) {
        return c;
      }
      i := i + 1;
    }
    assert x[i..] == [];
    return Some(Equal);
  }

  /** Lists compare by length first; equal-length lists compare as their
      first pair of items that does not compare equal. */
  lemma ListOrder(ops: FloatOps, x: seq<ValueData>, y: seq<ValueData>, i: nat)
    requires i <= |x| == |y|
    requires forall j :: 0 <= j < i ==> PartialCmp(ops, x[j], y[j]) == Some(Equal)
    ensures |x| < |y| ==> PartialCmp(ops, ValueData.List(x), ValueData.List(y)) == Some(Less)
    ensures i == |x| ==> PartialCmp(ops, ValueData.List(x), ValueData.List(y)) == Some(Equal)
    ensures i < |x| && PartialCmp(ops, x[i], y[i]) != Some(Equal) ==>
      PartialCmp(ops, ValueData.List(x), ValueData.List(y)) == PartialCmp(ops, x[i], y[i])
  {
    FirstDifferenceAfter(ops, x, y, i);
  }

  lemma {:induction false} FirstDifferenceAfter(ops: FloatOps, x: seq<ValueData>, y: seq<ValueData>, i: nat)
    requires i <= |x| == |y|
    requires forall j :: 0 <= j < i ==> PartialCmp(ops, x[j], y[j]) == Some(Equal)
    ensures FirstDifference(ops, x, y) == FirstDifference(ops, x[i..], y[i..])
    decreases i
  {
    if i > 0 {
      assert x[1..][i - 1..] == x[i..] && y[1..][i - 1..] == y[i..];
      FirstDifferenceAfter(ops, x[1..], y[1..], i - 1);
    } else {
      assert x[0..] == x && y[0..] == y;
    }
  }

  /** Values of different kinds are unequal and incomparable, so `cmp` puts
      either first; numbers and words/symbols are the only kinds that mix. */
  lemma MismatchedKinds(ops: FloatOps, a: ValueData, b: ValueData)
    requires Kind(a) != Kind(b)
    ensures !Equals(ops, a, b) && PartialCmp(ops, a, b).None? && Cmp(ops, a, b) == Less
  {
  }

  /** A value's kind, with integers and floats one kind and words and symbols
      another */
  function Kind(v: ValueData): nat
  {
    match v
    case Integer(_) => 0 case Float(_) => 0 case Boolean(_) => 1 case Char(_) => 2 case String(_) => 3
    case List(_) => 4 case HashMap(_) => 5 case Function(_) => 6 case Address(_) => 7
    case Word(_) => 8 case Symbol(_, _) => 8 case Macro => 10 case Literal(_) => 11
    case Return(_, _) => 12 case Writer(_) => 13 case Reader(_) => 14 case EndOfInput => 15
  }

  /** The float operations' ordering reports `Equal` only for equal floats. */
  ghost predicate CmpImpliesEq(ops: FloatOps)
  {
    forall x, y :: ops.cmp(x, y) == Some(Equal) ==> ops.eq(x, y)
  }

  lemma {:induction false} CompareStringsEqual(a: string, b: string)
    ensures CompareStrings(a, b) == Equal <==> a == b
  {
    if a != [] && b != [] && a[0] == b[0] {
      CompareStringsEqual(a[1..], b[1..]);
      assert a == [a[0]] + a[1..] && b == [b[0]] + b[1..];
    }
  }

  /** Comparing as `Equal` implies being equal (given floats agree). */
  lemma {:induction false} CmpEqualMeansEqual(ops: FloatOps, a: ValueData, b: ValueData)
    requires CmpImpliesEq(ops)
    ensures PartialCmp(ops, a, b) == Some(Equal) ==> Equals(ops, a, b)
    decreases a, 1
  {
    if a.List? && b.List? {
      ListsCmpEqual(ops, a.items, b.items);
    } else if a.String? && b.String? {
      CompareStringsEqual(a.s, b.s);
    } else if a.Word? && b.Word? {
      CompareStringsEqual(a.word, b.word);
    } else if a.Symbol? && b.Symbol? {
      CompareStringsEqual(a.moduleName, b.moduleName);
      CompareStringsEqual(a.word, b.word);
    }
  }

  lemma {:induction false} ListsCmpEqual(ops: FloatOps, x: seq<ValueData>, y: seq<ValueData>)
    requires CmpImpliesEq(ops)
    ensures PartialCmp(ops, ValueData.List(x), ValueData.List(y)) == Some(Equal) ==> Equals(ops, ValueData.List(x), ValueData.List(y))
    decreases ValueData.List(x), 0
  {
    if PartialCmp(ops, ValueData.List(x), ValueData.List(y)) == Some(Equal) {
      forall i | 0 <= i < |x|
        ensures Equals(ops, x[i], y[i])
      {
        AllCompareEqual(ops, x, y, i);
        CmpEqualMeansEqual(ops, x[i], y[i]);
      }
    }
  }

  /** When equal-length lists compare `Equal`, every pair of items does. */
  lemma {:induction false} AllCompareEqual(ops: FloatOps, x: seq<ValueData>, y: seq<ValueData>, i: nat)
    requires |x| == |y| && i < |x| && FirstDifference(ops, x, y) == Some(Equal)
    ensures PartialCmp(ops, x[i], y[i]) == Some(Equal)
    decreases i
  {
    if i > 0 {
      AllCompareEqual(ops, x[1..], y[1..], i - 1);
    }
  }

  // ---------------------------------------------------------------------
  // Arithmetic

  /** `Add for ValueData`: integers wrap around at 64 bits */
  function Add(ops: FloatOps, a: ValueData, b: ValueData): (r: Result<ValueData, Error>)
    ensures r.Ok? <==> IsNumber(a) && IsNumber(b)
    ensures r.Err? ==> r.error == TypeMismatch("addition")
    ensures r.Ok? ==> (r.value.Integer? <==> a.Integer? && b.Integer?) && (r.value.Float? <==> !(a.Integer? && b.Integer?))
    ensures a.Integer? && b.Integer? && InI64(a.i + b.i) ==> r == Ok(ValueData.Integer(a.i + b.i))
  {
    match (a, b)
    case (Integer(x), Integer(y)) => Ok(ValueData.Integer(WrapI64(x + y)))
    case (Float(x), Float(y)) => Ok(ValueData.Float(ops.add(x, y)))
    case (Integer(x), Float(y)) => Ok(ValueData.Float(ops.add(ops.fromInt(x), y)))
    case (Float(x), Integer(y)) => Ok(ValueData.Float(ops.add(x, ops.fromInt(y))))
    case _ => Err(TypeMismatch("addition"))
  }

  /** `Sub for ValueData` */
  function Sub(ops: FloatOps, a: ValueData, b: ValueData): (r: Result<ValueData, Error>)
    ensures r.Ok? <==> IsNumber(a) && IsNumber(b)
    ensures r.Err? ==> r.error == TypeMismatch("subtraction")
    ensures r.Ok? ==> (r.value.Integer? <==> a.Integer? && b.Integer?) && (r.value.Float? <==> !(a.Integer? && b.Integer?))
    ensures a.Integer? && b.Integer? && InI64(a.i - b.i) ==> r == Ok(ValueData.Integer(a.i - b.i))
  {
    match (a, b)
    case (Integer(x), Integer(y)) => Ok(ValueData.Integer(WrapI64(x - y)))
    case (Float(x), Float(y)) => Ok(ValueData.Float(ops.sub(x, y)))
    case (Integer(x), Float(y)) => Ok(ValueData.Float(ops.sub(ops.fromInt(x), y)))
    case (Float(x), Integer(y)) => Ok(ValueData.Float(ops.sub(x, ops.fromInt(y))))
    case _ => Err(TypeMismatch("subtraction"))
  }

  /** `Mul for ValueData` */
  function Mul(ops: FloatOps, a: ValueData, b: ValueData): (r: Result<ValueData, Error>)
    ensures r.Ok? <==> IsNumber(a) && IsNumber(b)
    ensures r.Err? ==> r.error == TypeMismatch("multiplication")
    ensures r.Ok? ==> (r.value.Integer? <==> a.Integer? && b.Integer?) && (r.value.Float? <==> !(a.Integer? && b.Integer?))
    ensures a.Integer? && b.Integer? && InI64(a.i * b.i) ==> r == Ok(ValueData.Integer(a.i * b.i))
  {
    match (a, b)
    case (Integer(x), Integer(y)) => Ok(ValueData.Integer(WrapI64(x * y)))
    case (Float(x), Float(y)) => Ok(ValueData.Float(ops.mul(x, y)))
    case (Integer(x), Float(y)) => Ok(ValueData.Float(ops.mul(ops.fromInt(x), y)))
    case (Float(x), Integer(y)) => Ok(ValueData.Float(ops.mul(x, ops.fromInt(y))))
    case _ => Err(TypeMismatch("multiplication"))
  }

  /** `Div for ValueData`: integer division truncates toward zero */
  function Div(ops: FloatOps, a: ValueData, b: ValueData): (r: Result<ValueData, Error>)
    ensures !(IsNumber(a) && IsNumber(b)) <==> r == Err(TypeMismatch("division"))
    ensures r.Ok? ==> (r.value.Integer? <==> a.Integer? && b.Integer?)
    ensures IsNumber(a) && b.Integer? && b.i == 0 ==> r == Err(DivisionByZero)
  {
    if !(IsNumber(a) && IsNumber(b)) then Err(TypeMismatch("division"))
    else match a
      case Integer(x) =>
        if b.Integer? then
          if b.i == 0 then Err(DivisionByZero)
          else if x == I64_MIN && b.i == -1 then Err(DivisionOverflow)
          else Ok(ValueData.Integer(TruncDiv(x, b.i)))
        else if ops.isZero(b.f) then Err(DivisionByZero) else Ok(ValueData.Float(ops.div(ops.fromInt(x), b.f)))
      case Float(x) =>
        if b.Integer? then
          if b.i == 0 then Err(DivisionByZero) else Ok(ValueData.Float(ops.div(x, ops.fromInt(b.i))))
        else if ops.isZero(b.f) then Err(DivisionByZero) else Ok(ValueData.Float(ops.div(x, b.f)))
  }

  predicate IsNumber(v: ValueData) { v.Integer? || v.Float? }

  /** Arithmetic needs two numbers; anything else is a type mismatch. */
  lemma NonNumbersMismatch(ops: FloatOps, a: ValueData, b: ValueData)
    requires !IsNumber(a) || !IsNumber(b)
    ensures Add(ops, a, b).Err? && Add(ops, a, b).error.TypeMismatch?
    ensures Sub(ops, a, b).Err? && Sub(ops, a, b).error.TypeMismatch?
    ensures Mul(ops, a, b).Err? && Mul(ops, a, b).error.TypeMismatch?
    ensures Div(ops, a, b).Err? && Div(ops, a, b).error.TypeMismatch?
  {
  }

  /** Integer addition, subtraction and multiplication give integers, and
      subtracting what was added gives back the start, wrap-around or not. */
  lemma AddSubInverse(ops: FloatOps, x: Int64, y: Int64)
    ensures Add(ops, ValueData.Integer(x), ValueData.Integer(y)).Ok?
    ensures Add(ops, ValueData.Integer(x), ValueData.Integer(y)).value.Integer?
    ensures Mul(ops, ValueData.Integer(x), ValueData.Integer(y)).value.Integer?
    ensures Sub(ops, Add(ops, ValueData.Integer(x), ValueData.Integer(y)).value, ValueData.Integer(y))
      == Ok(ValueData.Integer(x))
  {
    var s := WrapI64(x + y);
    WrapCongruent(x + y);
    WrapEqual(s - y, x);
  }

  /** Integer division by a nonzero divisor (other than the overflowing
      `i64::MIN / -1`, which fails with DivisionOverflow where the source's
      `/` panics) gives the quotient truncated toward zero: the remainder
      is smaller than the divisor and has the dividend's sign. */
  lemma DivTruncates(ops: FloatOps, x: Int64, y: Int64)
    ensures y == 0 <==> Div(ops, ValueData.Integer(x), ValueData.Integer(y)) == Err(DivisionByZero)
    ensures (x == I64_MIN && y == -1) <==> Div(ops, ValueData.Integer(x), ValueData.Integer(y)) == Err(DivisionOverflow)
    ensures y != 0 && !(x == I64_MIN && y == -1) ==>
      var r := Div(ops, ValueData.Integer(x), ValueData.Integer(y));
      r.Ok? && r.value.Integer?
      && var rem := x - r.value.i * y;
         Abs(rem) < Abs(y) && (rem == 0 || (rem < 0 <==> x < 0))
  {
    if y != 0 && !(x == I64_MIN && y == -1) {
      var q := TruncDiv(x, y);
      DivRemainder(x, y);
    }
  }

  lemma DivRemainder(x: int, y: int)
    requires y != 0
    ensures var rem := x - TruncDiv(x, y) * y;
      Abs(rem) < Abs(y) && (rem == 0 || (rem < 0 <==> x < 0))
  {
    var r0 := Abs(x) % Abs(y);
    SignedRemainder(x, y);
    assert x - TruncDiv(x, y) * y == (if x < 0 then -r0 else r0);
  }

  /** The truncated remainder is the Euclidean remainder of the absolute
      values, carrying the dividend's sign. */
  lemma SignedRemainder(x: int, y: int)
    requires y != 0
    ensures x - TruncDiv(x, y) * y == (if x < 0 then -(Abs(x) % Abs(y)) else Abs(x) % Abs(y))
  {
    var ax: int, ay: int := Abs(x), Abs(y);
    var q0: int, r0: int := ax / ay, ax % ay;
    assert ax == q0 * ay + r0;
    var p := q0 * ay;
    var q := TruncDiv(x, y);
    MulNeg(q0, ay);
    if y < 0 {
      assert y == -ay;
      if x < 0 {
        assert q == q0;
        assert q * y == -p;
      } else {
        assert q == -q0;
        assert q * y == -q0 * -ay == p;
      }
    } else {
      assert y == ay;
      if x < 0 {
        assert q == -q0;
        assert q * y == -p;
      } else {
        assert q == q0;
      }
    }
  }

  lemma MulNeg(a: int, b: int)
    ensures a * -b == -(a * b) && -a * b == -(a * b) && -a * -b == a * b
  {
  }
}
