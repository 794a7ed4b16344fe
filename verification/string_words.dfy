/** The string words of the `std/strings` module: each pops its arguments
    from the VM's data stack, top first, checks their kinds, computes a
    string function, and pushes the result.

    Rust strings are UTF-8 and several words count in bytes (`length`,
    `index-of?`, `split-at`, `substring`) while Dafny strings are sequences
    of chars; `ByteIndex` maps a byte offset to the char boundary it names,
    and an offset inside a char, where Rust's slicing panics, is the error
    `Panic`. */
module StringWords {
  import opened Base
  import Values

  type Value = Values.ValueData

  datatype Error =
    | StackUnderflow
    | TypeMismatch(message: string)
    | Panic                     // slicing off a char boundary or out of range

  // ---------------------------------------------------------------------
  // Byte offsets and char boundaries

  /** The number of chars before byte offset `b`, when `b` falls on a char
      boundary of `s` */
  function ByteIndex(s: string, b: nat): Option<nat>
    decreases |s|
  {
    if b == 0 then Some(0)
    else if s == [] || b < Utf8Len(s[0]) then None
    else match ByteIndex(s[1..], b - Utf8Len(s[0]))
      case None => None
      case Some(k) => Some(k + 1)
  }

  lemma ByteLenCons(c: char, t: string)
    ensures ByteLen([c] + t) == Utf8Len(c) + ByteLen(t)
  {
    ByteLenAppend([c], t);
    assert ([c])[..0] == [];
  }

  /** The byte offset of every char boundary leads back to it. */
  lemma {:induction false} ByteIndexOfBoundary(s: string, k: nat)
    requires k <= |s|
    ensures ByteIndex(s, ByteLen(s[..k])) == Some(k)
    decreases k
  {
    if k > 0 {
      ByteLenCons(s[0], s[1..][..k - 1]);
      assert s[..k] == [s[0]] + s[1..][..k - 1];
      ByteIndexOfBoundary(s[1..], k - 1);
    }
  }

  /** A byte offset is a char boundary exactly when it is the byte length
      of some prefix, and `ByteIndex` names that prefix. */
  lemma {:induction false} ByteIndexSpec(s: string, b: nat)
    ensures ByteIndex(s, b).Some? ==>
      ByteIndex(s, b).value <= |s| && ByteLen(s[..ByteIndex(s, b).value]) == b
    ensures forall k :: 0 <= k <= |s| && ByteLen(s[..k]) == b ==> ByteIndex(s, b) == Some(k)
    decreases |s|
  {
    forall k | 0 <= k <= |s| && ByteLen(s[..k]) == b
      ensures ByteIndex(s, b) == Some(k)
    {
      ByteIndexOfBoundary(s, k);
    }
    if b != 0 && s != [] && b >= Utf8Len(s[0]) {
      ByteIndexSpec(s[1..], b - Utf8Len(s[0]));
      if ByteIndex(s[1..], b - Utf8Len(s[0])).Some? {
        var k := ByteIndex(s[1..], b - Utf8Len(s[0])).value;
        ByteLenCons(s[0], s[1..][..k]);
        assert s[..k + 1] == [s[0]] + s[1..][..k];
      }
    }
  }

  // ---------------------------------------------------------------------
  // The string functions the words call

  /** `chars().nth(i as usize)`: the char, or `#f` past the end */
  function CharAt(s: string, i: Int64): (v: Value)
  {
    var n := AsUsize(i);
    if n < |s| then Values.ValueData.Char(s[n]) else Values.ValueData.Boolean(false)
  }

  /** A negative index reads as a huge unsigned one, so `nth` gives a char
      exactly for indexes 0 to length - 1. */
  lemma CharAtRange(s: string, i: Int64)
    requires |s| <= I64_MAX
    ensures 0 <= i < |s| ==> CharAt(s, i) == Values.ValueData.Char(s[i])
    ensures !(0 <= i < |s|) ==> CharAt(s, i) == Values.ValueData.Boolean(false)
  {
  }

  /** `str::contains` with a string pattern */
  predicate Contains(s: string, sub: string)
  {
    Find(s, sub).Some?
  }

  /** `str::split_once` with a string pattern: the text before and after
      the first occurrence */
  function SplitOnce(s: string, sub: string): (r: Option<(string, string)>)
    ensures r.Some? ==> |r.value.0| + |sub| + |r.value.1| == |s|
  {
    match Find(s, sub)
    case None => None
    case Some(k) => Some((s[..k], s[k + |sub|..]))
  }

  /** An occurrence inside a prefix is an occurrence in the whole. */
  lemma OccursInPrefix(sub: string, s: string, m: nat, j: nat)
    requires m <= |s| && OccursAt(sub, s[..m], j)
    ensures OccursAt(sub, s, j)
  {
    assert s[..m][j..j + |sub|] == s[j..j + |sub|];
  }

  /** Text that ends before the first occurrence does, contains none. */
  lemma BeforeFirst(s: string, sub: string, k: nat, m: nat)
    requires Find(s, sub) == Some(k) && m <= |s| && m < k + |sub|
    ensures !Contains(s[..m], sub)
  {
    if Find(s[..m], sub).Some? {
      var j := Find(s[..m], sub).value;
      OccursInPrefix(sub, s, m, j);
    }
  }

  /** split_once cuts at the first occurrence of `sub` and keeps
      everything around it, and fails exactly when `sub` does not occur. */
  lemma SplitOnceSpec(s: string, sub: string)
    ensures SplitOnce(s, sub).Some? ==>
      var (prefix, suffix) := SplitOnce(s, sub).value;
      s == prefix + sub + suffix && (sub != [] ==> !Contains(prefix + sub[..|sub| - 1], sub))
    ensures SplitOnce(s, sub).None? <==> forall j :: 0 <= j <= |s| ==> !OccursAt(sub, s, j)
  {
    var found := Find(s, sub);
    if found.Some? {
      var k := found.value;
      AroundOccurrence(s, sub, k);
      if sub != [] {
        BeforeFirst(s, sub, k, k + |sub| - 1);
      }
    }
  }

  lemma AroundOccurrence(s: string, sub: string, k: nat)
    requires OccursAt(sub, s, k)
    ensures s == s[..k] + sub + s[k + |sub|..]
    ensures sub != [] ==> s[..k] + sub[..|sub| - 1] == s[..k + |sub| - 1]
  {
    assert s == s[..k] + s[k..k + |sub|] + s[k + |sub|..];
  }

  /** `str::split` with a string pattern, collected: the pieces between
      the occurrences, left to right. An empty pattern matches at every
      char boundary, the start and the end included. */
  function SplitAllOf(s: string, sub: string): (pieces: seq<string>)
    ensures |pieces| >= 1
    ensures sub == [] ==> |pieces| == |s| + 2
    ensures sub != [] && !Contains(s, sub) ==> pieces == [s]
    decreases |s|
  {
    if sub == [] then [""] + Chars(s) + [""]
    else match SplitOnce(s, sub)
      case None => [s]
      case Some((before, after)) => [before] + SplitAllOf(after, sub)
  }

  /** Each char of `s` as a one-char string */
  function Chars(s: string): (r: seq<string>)
    ensures |r| == |s|
  {
    if s == [] then [] else [[s[0]]] + Chars(s[1..])
  }

  /** The pieces rejoined with the separator */
  function Join(pieces: seq<string>, sep: string): string
  {
    if pieces == [] then ""
    else if |pieces| == 1 then pieces[0]
    else pieces[0] + sep + Join(pieces[1..], sep)
  }

  lemma JoinCons(a: string, r: seq<string>, sep: string)
    requires r != []
    ensures Join([a] + r, sep) == a + sep + Join(r, sep)
  {
    assert ([a] + r)[1..] == r;
  }

  lemma {:induction false} JoinChars(s: string)
    ensures Join(Chars(s) + [""], "") == s
    decreases |s|
  {
    if s != [] {
      JoinChars(s[1..]);
      assert Chars(s) + [""] == [[s[0]]] + (Chars(s[1..]) + [""]);
      JoinCons([s[0]], Chars(s[1..]) + [""], "");
    }
  }

  /** Joining the pieces of a split with its pattern gives back the
      string. */
  lemma {:induction false} SplitAllJoin(s: string, sub: string)
    ensures Join(SplitAllOf(s, sub), sub) == s
    decreases |s|
  {
    if sub == [] {
      JoinChars(s);
      JoinCons("", Chars(s) + [""], "");
      assert [""] + Chars(s) + [""] == [""] + (Chars(s) + [""]);
    } else if SplitOnce(s, sub).Some? {
      var (before, after) := SplitOnce(s, sub).value;
      SplitOnceSpec(s, sub);
      SplitAllJoin(after, sub);
      JoinCons(before, SplitAllOf(after, sub), sub);
    }
  }

  /** No piece of a split on a non-empty pattern contains the pattern. */
  lemma {:induction false} SplitAllPieces(s: string, sub: string)
    requires sub != []
    ensures forall i :: 0 <= i < |SplitAllOf(s, sub)| ==> !Contains(SplitAllOf(s, sub)[i], sub)
    decreases |s|
  {
    if SplitOnce(s, sub).Some? {
      var (before, after) := SplitOnce(s, sub).value;
      var k := Find(s, sub).value;
      assert before == s[..k];
      SplitAllPieces(after, sub);
      BeforeFirst(s, sub, k, k);
      PiecesCons(before, SplitAllOf(after, sub), sub);
    } else {
      assert SplitAllOf(s, sub) == [s];
    }
  }

  lemma PiecesCons(first: string, later: seq<string>, sub: string)
    requires !Contains(first, sub)
    requires forall i :: 0 <= i < |later| ==> !Contains(later[i], sub)
    ensures forall i :: 0 <= i < |[first] + later| ==> !Contains(([first] + later)[i], sub)
  {
  }

  /** `str::split_at` on a byte offset no greater than the byte length:
      the two sides of that boundary, or a panic inside a char */
  function SplitAtBytes(s: string, b: nat): Result<(string, string), Error>
    requires b <= ByteLen(s)
  {
    match ByteIndex(s, b)
    case None => Err(Panic)
    case Some(k) => if k <= |s| then Ok((s[..k], s[k..])) else Err(Panic)
  }

  /** A prefix has no more bytes than the whole. */
  lemma PrefixByteLen(s: string, k: nat)
    requires k <= |s|
    ensures ByteLen(s[..k]) <= ByteLen(s)
  {
    assert s == s[..k] + s[k..];
    ByteLenAppend(s[..k], s[k..]);
  }

  /** split-at on the byte offset of a char boundary cuts there. */
  lemma SplitAtBoundary(s: string, k: nat)
    requires k <= |s|
    ensures ByteLen(s[..k]) <= ByteLen(s)
    ensures SplitAtBytes(s, ByteLen(s[..k])) == Ok((s[..k], s[k..]))
  {
    PrefixByteLen(s, k);
    ByteIndexOfBoundary(s, k);
  }

  /** split-at's two parts concatenate to the string and the first has
      the requested byte length; it panics exactly off a char boundary. */
  lemma SplitAtBytesSpec(s: string, b: nat)
    requires b <= ByteLen(s)
    ensures SplitAtBytes(s, b).Ok? ==>
      SplitAtBytes(s, b).value.0 + SplitAtBytes(s, b).value.1 == s
      && ByteLen(SplitAtBytes(s, b).value.0) == b
    ensures SplitAtBytes(s, b).Err? <==> forall k :: 0 <= k <= |s| ==> ByteLen(s[..k]) != b
  {
    var found := ByteIndex(s, b);
    if found.Some? {
      ByteIndexSpec(s, b);
      var k := found.value;
      SplitAtBoundary(s, k);
      assert s[..k] + s[k..] == s;
    } else {
      forall k | 0 <= k <= |s|
        ensures ByteLen(s[..k]) != b
      {
        ByteIndexOfBoundary(s, k);
      }
    }
  }

  /** `&s[start..end]` on byte offsets: panics unless start <= end <= the
      byte length and both fall on char boundaries */
  function SliceBytes(s: string, start: nat, end: nat): Result<string, Error>
  {
    var i, j := ByteIndex(s, start), ByteIndex(s, end);
    if start > end || end > ByteLen(s) || i.None? || j.None? then Err(Panic)
    else if i.value <= j.value <= |s| then Ok(s[i.value..j.value])
    else Err(Panic)
  }

  /** A slice is the text between two char boundaries, and its byte
      length is the distance between them. */
  lemma SliceBytesSpec(s: string, i: nat, j: nat)
    requires i <= j <= |s|
    ensures SliceBytes(s, ByteLen(s[..i]), ByteLen(s[..j])) == Ok(s[i..j])
    ensures ByteLen(s[i..j]) == ByteLen(s[..j]) - ByteLen(s[..i])
  {
    ByteIndexOfBoundary(s, i);
    ByteIndexOfBoundary(s, j);
    assert s[..j] == s[..i] + s[i..j];
    ByteLenAppend(s[..i], s[i..j]);
    assert s == s[..j] + s[j..];
    ByteLenAppend(s[..j], s[j..]);
  }

  /** `str::strip_prefix` */
  function StripPrefix(s: string, p: string): Option<string>
  {
    if IsPrefix(p, s) then Some(s[|p|..]) else None
  }

  /** `str::strip_suffix` */
  function StripSuffix(s: string, p: string): Option<string>
  {
    if IsSuffix(p, s) then Some(s[..|s| - |p|]) else None
  }

  /** Stripping undoes prepending or appending, and fails exactly when the
      string does not start or end with the affix. */
  lemma StripInverse(p: string, t: string, s: string)
    ensures StripPrefix(p + t, p) == Some(t) && StripSuffix(t + p, p) == Some(t)
    ensures StripPrefix(s, p).Some? ==> p + StripPrefix(s, p).value == s
    ensures StripSuffix(s, p).Some? ==> StripSuffix(s, p).value + p == s
  {
    assert (p + t)[..|p|] == p && (p + t)[|p|..] == t;
    assert (t + p)[|t + p| - |p|..] == p && (t + p)[..|t|] == t;
    if IsPrefix(p, s) {
      assert s == s[..|p|] + s[|p|..];
    }
    if IsSuffix(p, s) {
      assert s == s[..|s| - |p|] + s[|s| - |p|..];
    }
  }

  // ---------------------------------------------------------------------
  // Popping arguments

  /** An argument popped and checked, or the error and the stack as the
      failed pop left it */
  datatype Arg<T> = Got(rest: seq<Value>, value: T) | Failed(rest: seq<Value>, error: Error)

  function PopAny(stack: seq<Value>): (r: Arg<Value>)
    ensures r.Got? <==> stack != []
    ensures r.Got? ==> r.rest == stack[..|stack| - 1] && r.value == stack[|stack| - 1]
    ensures r.Failed? ==> r == Failed(stack, StackUnderflow)
  {
    if stack == [] then Failed(stack, StackUnderflow)
    else Got(stack[..|stack| - 1], stack[|stack| - 1])
  }

  /** `vm.pop()?` then `get_string().ok_or_else(TypeMismatch(message))` */
  function PopString(stack: seq<Value>, message: string): (r: Arg<string>)
    ensures r.Got? ==> stack != [] && r.rest == stack[..|stack| - 1] && stack[|stack| - 1].String? && stack[|stack| - 1].s == r.value
    ensures r.Failed? ==> r.rest == stack || (stack != [] && r.rest == stack[..|stack| - 1])
    ensures r.Failed? ==> r.error == StackUnderflow || r.error == TypeMismatch(message)
  {
    match PopAny(stack)
    case Failed(rest, e) => Failed(rest, e)
    case Got(rest, v) => if v.String? then Got(rest, v.s) else Failed(rest, TypeMismatch(message))
  }

  /** `vm.pop()?` then `get_integer().ok_or_else(TypeMismatch(message))` */
  function PopInteger(stack: seq<Value>, message: string): (r: Arg<Int64>)
    ensures r.Got? ==> stack != [] && r.rest == stack[..|stack| - 1] && stack[|stack| - 1].Integer? && stack[|stack| - 1].i == r.value
    ensures r.Failed? ==> r.rest == stack || (stack != [] && r.rest == stack[..|stack| - 1])
    ensures r.Failed? ==> r.error == StackUnderflow || r.error == TypeMismatch(message)
  {
    match PopAny(stack)
    case Failed(rest, e) => Failed(rest, e)
    case Got(rest, v) => if v.Integer? then Got(rest, v.i) else Failed(rest, TypeMismatch(message))
  }

  /** The stack after a word, and its error if it failed */
  datatype Outcome = Outcome(stack: seq<Value>, error: Option<Error>)

  /** Pop and check `sub`, then `s`, for the words whose arguments are
      two strings */
  function PopPair(stack: seq<Value>, word: string, top: string, below: string): (r: Arg<(string, string)>)
    ensures r.Got? ==> |stack| >= 2 && r.rest == stack[..|stack| - 2]
    ensures r.Got? ==> stack[|stack| - 2].String? && stack[|stack| - 2].s == r.value.0
    ensures r.Got? ==> stack[|stack| - 1].String? && stack[|stack| - 1].s == r.value.1
    ensures r.Failed? ==> |stack| - 2 <= |r.rest| <= |stack| && r.rest == stack[..|r.rest|]
  {
    match PopString(stack, word + " " + top)
    case Failed(rest, e) => Failed(rest, e)
    case Got(rest, sub) =>
      match PopString(rest, word + " " + below)
      case Failed(rest', e) => Failed(rest', e)
      case Got(rest', s) => Got(rest', (s, sub))
  }

  /** Each argument is checked as soon as it is popped: an empty stack
      underflows and changes nothing, and a value of the wrong kind is
      reported, by the word and the argument's name, after it has been
      consumed. */
  lemma PopErrors(rest: seq<Value>, v: Value, message: string)
    ensures PopString([], message) == Failed([], StackUnderflow)
    ensures PopInteger([], message) == Failed([], StackUnderflow)
    ensures PopString(rest + [v], message) == if v.String? then Got(rest, v.s) else Failed(rest, TypeMismatch(message))
    ensures PopInteger(rest + [v], message) == if v.Integer? then Got(rest, v.i) else Failed(rest, TypeMismatch(message))
  {
    assert (rest + [v])[..|rest|] == rest;
  }

  /** The two-string words take `sub` from the top and `s` from below it;
      a missing or non-string argument is reported with everything popped
      so far gone. */
  lemma PopPairErrors(rest: seq<Value>, s: Value, sub: Value, word: string, top: string, below: string)
    ensures PopPair([], word, top, below) == Failed([], StackUnderflow)
    ensures !sub.String? ==> PopPair(rest + [sub], word, top, below) == Failed(rest, TypeMismatch(word + " " + top))
    ensures sub.String? ==> PopPair([sub], word, top, below) == Failed([], StackUnderflow)
    ensures sub.String? && !s.String? ==>
      PopPair(rest + [s, sub], word, top, below) == Failed(rest, TypeMismatch(word + " " + below))
    ensures sub.String? && s.String? ==> PopPair(rest + [s, sub], word, top, below) == Got(rest, (s.s, sub.s))
  {
    var one := rest + [s];
    var two := one + [sub];
    assert two == rest + [s, sub];
    assert two[..|two| - 1] == one && one[..|rest|] == rest;
    assert (rest + [sub])[..|rest|] == rest;
    assert [sub][..0] == [];
  }

  /** A word's stack effect: on success it consumed its `k` arguments from
      the top and pushed `pushed` results, leaving the values below them
      alone; on an error it consumed at most its `k` arguments and pushed
      nothing. */
  predicate Consumes(stack: seq<Value>, r: Outcome, k: nat, pushed: nat)
  {
    if r.error.None? then |stack| >= k && |r.stack| == |stack| - k + pushed && r.stack[..|stack| - k] == stack[..|stack| - k]
    else |stack| - k <= |r.stack| <= |stack| && r.stack == stack[..|r.stack|]
  }

  /** nth ( s i -- c ) */
  function NthEffect(stack: seq<Value>): (r: Outcome)
    ensures Consumes(stack, r, 2, 1)
  {
    match PopInteger(stack, "nth index should be integer")
    case Failed(rest, e) => Outcome(rest, Some(e))
    case Got(rest, i) =>
      match PopString(rest, "nth string")
      case Failed(rest', e) => Outcome(rest', Some(e))
      case Got(rest', s) => Outcome(rest' + [CharAt(s, i)], None)
  }

  /** empty? ( s -- ? ) */
  function IsEmptyEffect(stack: seq<Value>): (r: Outcome)
    ensures Consumes(stack, r, 1, 1)
  {
    match PopString(stack, "empty?")
    case Failed(rest, e) => Outcome(rest, Some(e))
    case Got(rest, s) => Outcome(rest + [Values.ValueData.Boolean(s == [])], None)
  }

  /** in? ( haystack needle -- ? ): the needle is popped first but its
      kind is checked after the haystack's */
  function IsInEffect(stack: seq<Value>): (r: Outcome)
    ensures Consumes(stack, r, 2, 1)
  {
    match PopAny(stack)
    case Failed(rest, e) => Outcome(rest, Some(e))
    case Got(rest, needle) =>
      match PopString(rest, "in? haystack")
      case Failed(rest', e) => Outcome(rest', Some(e))
      case Got(rest', haystack) =>
        if needle.String? then Outcome(rest' + [Values.ValueData.Boolean(Contains(haystack, needle.s))], None)
        else if needle.Char? then Outcome(rest' + [Values.ValueData.Boolean(needle.c in haystack)], None)
        else Outcome(rest', Some(TypeMismatch("in? needle")))
  }

  /** starts-with? ( str sub -- ? ) */
  function StartsWithEffect(stack: seq<Value>): (r: Outcome)
    ensures Consumes(stack, r, 2, 1)
  {
    match PopPair(stack, "starts-with?", "sub", "str")
    case Failed(rest, e) => Outcome(rest, Some(e))
    case Got(rest, (s, sub)) => Outcome(rest + [Values.ValueData.Boolean(IsPrefix(sub, s))], None)
  }

  /** ends-with? ( str sub -- ? ) */
  function EndsWithEffect(stack: seq<Value>): (r: Outcome)
    ensures Consumes(stack, r, 2, 1)
  {
    match PopPair(stack, "ends-with?", "sub", "str")
    case Failed(rest, e) => Outcome(rest, Some(e))
    case Got(rest, (s, sub)) => Outcome(rest + [Values.ValueData.Boolean(IsSuffix(sub, s))], None)
  }

  /** index-of? ( str sub -- i/#f ) */
  function IndexOfEffect(stack: seq<Value>): (r: Outcome)
    ensures Consumes(stack, r, 2, 1)
  {
    match PopPair(stack, "index-of?", "sub", "str")
    case Failed(rest, e) => Outcome(rest, Some(e))
    case Got(rest, (s, sub)) => Outcome(rest + [IndexValue(s, sub)], None)
  }

  /** length ( s -- l ): the byte length, cast to i64 */
  function LengthEffect(stack: seq<Value>): (r: Outcome)
    ensures Consumes(stack, r, 1, 1)
  {
    match PopString(stack, "length")
    case Failed(rest, e) => Outcome(rest, Some(e))
    case Got(rest, s) => Outcome(rest + [Values.ValueData.Integer(WrapI64(ByteLen(s)))], None)
  }

  /** replace-all ( str find repl -- out ) */
  function ReplaceAllEffect(stack: seq<Value>): (r: Outcome)
    ensures Consumes(stack, r, 3, 1)
  {
    match PopString(stack, "replace-all replace")
    case Failed(rest, e) => Outcome(rest, Some(e))
    case Got(rest, replace) =>
      match PopPair(rest, "replace-all", "target", "str")
      case Failed(rest', e) => Outcome(rest', Some(e))
      case Got(rest', (s, target)) => Outcome(rest' + [Values.ValueData.String(ReplaceAll(s, target, replace))], None)
  }

  /** split ( str sub -- prefix suffix/#f ) */
  function SplitEffect(stack: seq<Value>): (r: Outcome)
    ensures Consumes(stack, r, 2, 2)
  {
    match PopPair(stack, "split", "sub", "str")
    case Failed(rest, e) => Outcome(rest, Some(e))
    case Got(rest, (s, sub)) => Outcome(rest + SplitValues(s, sub), None)
  }

  /** split-all ( str sub -- vec ) */
  function SplitAllEffect(stack: seq<Value>): (r: Outcome)
    ensures Consumes(stack, r, 2, 1)
  {
    match PopPair(stack, "split-all", "sub", "str")
    case Failed(rest, e) => Outcome(rest, Some(e))
    case Got(rest, (s, sub)) => Outcome(rest + [Values.ValueData.List(StringValues(SplitAllOf(s, sub)))], None)
  }

  /** split-at ( str i -- prefix suffix/#f ) */
  function SplitAtEffect(stack: seq<Value>): (r: Outcome)
    ensures Consumes(stack, r, 2, 2)
  {
    match PopInteger(stack, "split-at index")
    case Failed(rest, e) => Outcome(rest, Some(e))
    case Got(rest, i) =>
      match PopString(rest, "split-at str")
      case Failed(rest', e) => Outcome(rest', Some(e))
      case Got(rest', s) =>
        match SplitAtValues(s, AsUsize(i))
        case Err(e) => Outcome(rest', Some(e))
        case Ok(out) => Outcome(rest' + out, None)
  }

  /** split-at's results: both sides of byte offset `b`, or the string and
      `#f` when `b` is past its end */
  function SplitAtValues(s: string, b: nat): (r: Result<seq<Value>, Error>)
    ensures r.Ok? ==> |r.value| == 2
  {
    if b <= ByteLen(s) then
      match SplitAtBytes(s, b)
      case Err(e) => Err(e)
      case Ok((prefix, suffix)) => Ok([Values.ValueData.String(prefix), Values.ValueData.String(suffix)])
    else Ok([Values.ValueData.String(s), Values.ValueData.Boolean(false)])
  }

  /** strip-start ( str pref -- out ) */
  function StripStartEffect(stack: seq<Value>): (r: Outcome)
    ensures Consumes(stack, r, 2, 1)
  {
    match PopPair(stack, "strip-start", "prefix", "str")
    case Failed(rest, e) => Outcome(rest, Some(e))
    case Got(rest, (s, p)) => Outcome(rest + [Values.ValueData.String(OrElse(StripPrefix(s, p), s))], None)
  }

  /** strip-end ( str suff -- out ) */
  function StripEndEffect(stack: seq<Value>): (r: Outcome)
    ensures Consumes(stack, r, 2, 1)
  {
    match PopPair(stack, "strip-end", "suffix", "str")
    case Failed(rest, e) => Outcome(rest, Some(e))
    case Got(rest, (s, p)) => Outcome(rest + [Values.ValueData.String(OrElse(StripSuffix(s, p), s))], None)
  }

  /** substring ( str start end -- sub ) */
  function SubstringEffect(stack: seq<Value>): (r: Outcome)
    ensures Consumes(stack, r, 3, 1)
  {
    match PopInteger(stack, "substring end")
    case Failed(rest, e) => Outcome(rest, Some(e))
    case Got(rest, end) =>
      match PopInteger(rest, "substring start")
      case Failed(rest', e) => Outcome(rest', Some(e))
      case Got(rest', start) =>
        match PopString(rest', "substring str")
        case Failed(rest'', e) => Outcome(rest'', Some(e))
        case Got(rest'', s) =>
          Pushed(rest'', SliceBytes(s, AsUsize(start), AsUsize(end)))
  }

  /** A string result pushed, or its error */
  function Pushed(rest: seq<Value>, r: Result<string, Error>): Outcome
  {
    match r
    case Err(e) => Outcome(rest, Some(e))
    case Ok(piece) => Outcome(rest + [Values.ValueData.String(piece)], None)
  }

  function OrElse(o: Option<string>, s: string): string
  {
    if o.Some? then o.value else s
  }

  /** index-of?'s result: the byte offset of the first occurrence, or `#f` */
  function IndexValue(s: string, sub: string): Value
  {
    match Find(s, sub)
    case None => Values.ValueData.Boolean(false)
    case Some(k) => Values.ValueData.Integer(WrapI64(ByteLen(s[..k])))
  }

  /** split's results: prefix and suffix, or the string and `#f` */
  function SplitValues(s: string, sub: string): seq<Value>
  {
    match SplitOnce(s, sub)
    case None => [Values.ValueData.String(s), Values.ValueData.Boolean(false)]
    case Some((prefix, suffix)) => [Values.ValueData.String(prefix), Values.ValueData.String(suffix)]
  }

  function StringValues(pieces: seq<string>): (r: seq<Value>)
    ensures |r| == |pieces| && forall i :: 0 <= i < |r| ==> r[i] == Values.ValueData.String(pieces[i])
  {
    if pieces == [] then [] else [Values.ValueData.String(pieces[0])] + StringValues(pieces[1..])
  }

  function AsResult<T>(a: Arg<T>): Result<T, Error>
  {
    match a
    case Got(_, v) => Ok(v)
    case Failed(_, e) => Err(e)
  }

  // ---------------------------------------------------------------------
  // What the words compute

  /** The first occurrence of `sub` in p + sub + q is right after p when
      no earlier one ends inside p + sub. */
  lemma FindFirst(p: string, sub: string, q: string)
    requires sub != [] && !Contains(p + sub[..|sub| - 1], sub)
    ensures Find(p + sub + q, sub) == Some(|p|)
  {
    var s := p + sub + q;
    assert s[|p|..|p| + |sub|] == sub;
    assert OccursAt(sub, s, |p|);
    var k := Find(s, sub).value;
    if k < |p| {
      var m := |p| + |sub| - 1;
      assert s[..m] == p + sub[..|sub| - 1];
      assert s[..m][k..k + |sub|] == s[k..k + |sub|];
      assert OccursAt(sub, s[..m], k);
      assert false;
    }
  }

  /** nth pushes the char at a non-negative index below the length, and
      `#f` for any other index. */
  lemma NthWord(rest: seq<Value>, s: string, i: Int64)
    requires |s| <= I64_MAX
    ensures NthEffect(rest + [STR(s), Values.ValueData.Integer(i)])
      == Outcome(rest + [if 0 <= i < |s| then Values.ValueData.Char(s[i]) else Values.ValueData.Boolean(false)], None)
  {
    PopErrors(rest + [STR(s)], Values.ValueData.Integer(i), "nth index should be integer");
    PopErrors(rest, STR(s), "nth string");
    assert rest + [STR(s), Values.ValueData.Integer(i)] == rest + [STR(s)] + [Values.ValueData.Integer(i)];
  }

  /** empty? tests for the empty string. */
  lemma IsEmptyWord(rest: seq<Value>, s: string)
    ensures IsEmptyEffect(rest + [STR(s)]) == Outcome(rest + [Values.ValueData.Boolean(|s| == 0)], None)
  {
    PopErrors(rest, STR(s), "empty?");
  }

  /** in? tests for an occurrence of a string or a char; any other needle
      is a type mismatch. */
  lemma IsInWord(rest: seq<Value>, s: string, needle: Value)
    ensures needle.String? ==>
      IsInEffect(rest + [STR(s), needle]) == Outcome(rest + [Values.ValueData.Boolean(exists j :: 0 <= j <= |s| && OccursAt(needle.s, s, j))], None)
    ensures needle.Char? ==>
      IsInEffect(rest + [STR(s), needle]) == Outcome(rest + [Values.ValueData.Boolean(exists j :: 0 <= j < |s| && s[j] == needle.c)], None)
    ensures !needle.String? && !needle.Char? ==>
      IsInEffect(rest + [STR(s), needle]) == Outcome(rest, Some(TypeMismatch("in? needle")))
  {
    var one := rest + [STR(s)];
    var two := one + [needle];
    assert two == rest + [STR(s), needle];
    assert two[..|two| - 1] == one;
    PopErrors(rest, STR(s), "in? haystack");
    if needle.String? && Find(s, needle.s).Some? {
      assert OccursAt(needle.s, s, Find(s, needle.s).value);
    }
  }

  /** starts-with? and ends-with? test for a prefix and a suffix. */
  lemma AffixWords(rest: seq<Value>, s: string, sub: string)
    ensures StartsWithEffect(rest + [STR(s), STR(sub)])
      == Outcome(rest + [Values.ValueData.Boolean(|sub| <= |s| && s[..|sub|] == sub)], None)
    ensures EndsWithEffect(rest + [STR(s), STR(sub)])
      == Outcome(rest + [Values.ValueData.Boolean(|sub| <= |s| && s[|s| - |sub|..] == sub)], None)
  {
    PopPairErrors(rest, STR(s), STR(sub), "starts-with?", "sub", "str");
    PopPairErrors(rest, STR(s), STR(sub), "ends-with?", "sub", "str");
  }

  /** index-of? gives the byte offset of the first occurrence, or `#f`
      when there is none. */
  lemma IndexOfWord(rest: seq<Value>, p: string, sub: string, q: string, s: string)
    requires sub != [] && !Contains(p + sub[..|sub| - 1], sub)
    requires ByteLen(p) <= I64_MAX
    ensures IndexOfEffect(rest + [STR(p + sub + q), STR(sub)])
      == Outcome(rest + [Values.ValueData.Integer(ByteLen(p))], None)
    ensures !Contains(s, sub) ==>
      IndexOfEffect(rest + [STR(s), STR(sub)]) == Outcome(rest + [Values.ValueData.Boolean(false)], None)
  {
    FindFirst(p, sub, q);
    assert (p + sub + q)[..|p|] == p;
    PopPairErrors(rest, STR(p + sub + q), STR(sub), "index-of?", "sub", "str");
    PopPairErrors(rest, STR(s), STR(sub), "index-of?", "sub", "str");
  }

  /** length pushes the byte length. */
  lemma LengthWord(rest: seq<Value>, s: string)
    requires ByteLen(s) <= I64_MAX
    ensures LengthEffect(rest + [STR(s)]) == Outcome(rest + [Values.ValueData.Integer(ByteLen(s))], None)
  {
    PopErrors(rest, STR(s), "length");
  }

  /** Text with no occurrence starting in its first k chars is copied
      through unchanged up to k. */
  lemma {:induction false} ReplaceUpTo(s: string, sub: string, to: string, k: nat)
    requires sub != [] && k <= |s|
    requires forall j :: 0 <= j < k ==> !OccursAt(sub, s, j)
    ensures ReplaceAll(s, sub, to) == s[..k] + ReplaceAll(s[k..], sub, to)
    decreases k
  {
    if k == 0 {
      assert s[..0] == [] && s[0..] == s;
    } else if |s| < |sub| {
      ReplaceShort(s, sub, to, k);
    } else {
      NoneInTail(s, sub, k);
      ReplaceUpTo(s[1..], sub, to, k - 1);
      ReplaceStep(s, sub, to, k);
    }
  }

  lemma ReplaceShort(s: string, sub: string, to: string, k: nat)
    requires |s| < |sub| && k <= |s|
    ensures ReplaceAll(s, sub, to) == s[..k] + ReplaceAll(s[k..], sub, to)
  {
    assert ReplaceAll(s, sub, to) == s;
    assert ReplaceAll(s[k..], sub, to) == s[k..];
    assert s[..k] + s[k..] == s;
  }

  /** One char that starts no occurrence is copied through. */
  lemma ReplaceStep(s: string, sub: string, to: string, k: nat)
    requires sub != [] && 1 <= k <= |s| && |sub| <= |s| && !OccursAt(sub, s, 0)
    requires ReplaceAll(s[1..], sub, to) == s[1..][..k - 1] + ReplaceAll(s[1..][k - 1..], sub, to)
    ensures ReplaceAll(s, sub, to) == s[..k] + ReplaceAll(s[k..], sub, to)
  {
    ReplaceSkip(s, sub, to);
    SnocSlices(s, k);
    CopyThrough(s, k, ReplaceAll(s, sub, to), ReplaceAll(s[1..], sub, to), ReplaceAll(s[k..], sub, to));
  }

  lemma CopyThrough(s: string, k: nat, r: string, tail: string, after: string)
    requires 1 <= k <= |s| && r == [s[0]] + tail && tail == s[1..][..k - 1] + after
    ensures r == s[..k] + after
  {
    assert [s[0]] + s[1..][..k - 1] == s[..k];
  }

  lemma ReplaceSkip(s: string, sub: string, to: string)
    requires sub != [] && |sub| <= |s| && !OccursAt(sub, s, 0)
    ensures ReplaceAll(s, sub, to) == [s[0]] + ReplaceAll(s[1..], sub, to)
  {
    assert s[0..|sub|] == s[..|sub|];
  }

  lemma SnocSlices(s: string, k: nat)
    requires 1 <= k <= |s|
    ensures s[1..][k - 1..] == s[k..]
  {
  }

  lemma NoneInTail(s: string, sub: string, k: nat)
    requires 1 <= k <= |s|
    requires forall j :: 0 <= j < k ==> !OccursAt(sub, s, j)
    ensures forall j :: 0 <= j < k - 1 ==> !OccursAt(sub, s[1..], j)
  {
    forall j | 0 <= j < k - 1
      ensures !OccursAt(sub, s[1..], j)
    {
      OccursAtTail(sub, s, j + 1);
    }
  }

  /** Replacing a pattern is splitting on it and joining the pieces with
      the replacement; for an empty pattern the replacement goes before
      every char and at the end. */
  lemma {:induction false} ReplaceAllIsJoin(s: string, sub: string, to: string)
    ensures ReplaceAll(s, sub, to) == Join(SplitAllOf(s, sub), to)
    decreases |s|
  {
    var cut := SplitOnce(s, sub);
    if sub == [] {
      JoinCharsWith(s, to);
      JoinCons("", Chars(s) + [""], to);
      assert [""] + Chars(s) + [""] == [""] + (Chars(s) + [""]);
    } else if cut.None? {
      ReplaceNone(s, sub, to);
    } else {
      var (before, after) := cut.value;
      ReplaceAtFirst(s, sub, to, before, after);
      ReplaceAllIsJoin(after, sub, to);
      SplitAllStep(s, sub, before, after);
      JoinCons(before, SplitAllOf(after, sub), to);
    }
  }

  /** The chars joined with `to`, after a leading `to`, are the string
      with `to` before every char and at the end. */
  lemma {:induction false} JoinCharsWith(s: string, to: string)
    ensures to + Join(Chars(s) + [""], to) == ReplaceAll(s, [], to)
    decreases |s|
  {
    if s != [] {
      JoinCharsWith(s[1..], to);
      assert Chars(s) + [""] == [[s[0]]] + (Chars(s[1..]) + [""]);
      JoinCons([s[0]], Chars(s[1..]) + [""], to);
    }
  }

  /** Without an occurrence nothing is replaced. */
  lemma ReplaceNone(s: string, sub: string, to: string)
    requires sub != [] && SplitOnce(s, sub).None?
    ensures ReplaceAll(s, sub, to) == s && SplitAllOf(s, sub) == [s]
  {
    ReplaceUpTo(s, sub, to, |s|);
    assert s[..|s|] == s && s[|s|..] == [];
  }

  /** The text before the first occurrence is kept and the occurrence
      replaced. */
  lemma ReplaceAtFirst(s: string, sub: string, to: string, before: string, after: string)
    requires sub != [] && SplitOnce(s, sub) == Some((before, after))
    ensures ReplaceAll(s, sub, to) == before + to + ReplaceAll(after, sub, to)
  {
    var k := Find(s, sub).value;
    ReplaceUpTo(s, sub, to, k);
    ReplaceAtStart(s[k..], sub, to);
    assert s[k..][|sub|..] == after;
  }

  lemma ReplaceAtStart(t: string, sub: string, to: string)
    requires sub != [] && OccursAt(sub, t, 0)
    ensures ReplaceAll(t, sub, to) == to + ReplaceAll(t[|sub|..], sub, to)
  {
    assert t[..|sub|] == sub;
  }

  lemma SplitAllStep(s: string, sub: string, before: string, after: string)
    requires sub != [] && SplitOnce(s, sub) == Some((before, after))
    ensures SplitAllOf(s, sub) == [before] + SplitAllOf(after, sub)
  {
  }

  /** replace-all pops the replacement, the target and the string, and
      pushes the string with every occurrence of the target replaced: the
      pieces between the occurrences joined with the replacement. */
  lemma ReplaceAllWord(rest: seq<Value>, s: string, target: string, to: string)
    ensures ReplaceAllEffect(rest + [STR(s), STR(target), STR(to)])
      == Outcome(rest + [STR(Join(SplitAllOf(s, target), to))], None)
  {
    var two := rest + [STR(s), STR(target)];
    assert rest + [STR(s), STR(target), STR(to)] == two + [STR(to)];
    PopErrors(two, STR(to), "replace-all replace");
    PopPairErrors(rest, STR(s), STR(target), "replace-all", "target", "str");
    ReplaceAllIsJoin(s, target, to);
  }

  /** split cuts at the first occurrence and pushes the text before and
      after it; without one it pushes the string back and `#f`. */
  lemma SplitWord(rest: seq<Value>, p: string, sub: string, q: string, s: string)
    requires sub != [] && !Contains(p + sub[..|sub| - 1], sub)
    ensures SplitEffect(rest + [STR(p + sub + q), STR(sub)]) == Outcome(rest + [STR(p), STR(q)], None)
    ensures !Contains(s, sub) ==>
      SplitEffect(rest + [STR(s), STR(sub)]) == Outcome(rest + [STR(s), Values.ValueData.Boolean(false)], None)
  {
    FindFirst(p, sub, q);
    var t := p + sub + q;
    assert t[..|p|] == p && t[|p| + |sub|..] == q;
    PopPairErrors(rest, STR(t), STR(sub), "split", "sub", "str");
    PopPairErrors(rest, STR(s), STR(sub), "split", "sub", "str");
  }

  /** split-all pushes the list of pieces, which rejoined with the
      pattern give back the string. */
  lemma SplitAllWord(rest: seq<Value>, s: string, sub: string)
    ensures SplitAllEffect(rest + [STR(s), STR(sub)])
      == Outcome(rest + [Values.ValueData.List(StringValues(SplitAllOf(s, sub)))], None)
    ensures Join(SplitAllOf(s, sub), sub) == s
  {
    PopPairErrors(rest, STR(s), STR(sub), "split-all", "sub", "str");
    SplitAllJoin(s, sub);
  }

  /** split-at on the byte offset of a char boundary pushes the chars
      before and after it; past the end it pushes the string back and
      `#f`. */
  lemma SplitAtWord(rest: seq<Value>, s: string, k: nat, i: Int64)
    requires k <= |s| && ByteLen(s) <= I64_MAX
    ensures ByteLen(s[..k]) <= ByteLen(s)
    ensures SplitAtEffect(rest + [STR(s), Values.ValueData.Integer(ByteLen(s[..k]))])
      == Outcome(rest + [STR(s[..k]), STR(s[k..])], None)
    ensures !(0 <= i <= ByteLen(s)) ==>
      SplitAtEffect(rest + [STR(s), Values.ValueData.Integer(i)])
      == Outcome(rest + [STR(s), Values.ValueData.Boolean(false)], None)
  {
    SplitAtBoundary(s, k);
    var b: Int64 := ByteLen(s[..k]);
    SplitAtPops(rest, s, b);
    SplitAtPops(rest, s, i);
  }

  lemma SplitAtPops(rest: seq<Value>, s: string, i: Int64)
    ensures SplitAtEffect(rest + [STR(s), Values.ValueData.Integer(i)])
      == (var b := AsUsize(i);
          if b <= ByteLen(s) then
            match SplitAtBytes(s, b)
            case Err(e) => Outcome(rest, Some(e))
            case Ok((prefix, suffix)) => Outcome(rest + [STR(prefix), STR(suffix)], None)
          else Outcome(rest + [STR(s), Values.ValueData.Boolean(false)], None))
  {
    assert rest + [STR(s), Values.ValueData.Integer(i)] == rest + [STR(s)] + [Values.ValueData.Integer(i)];
    PopErrors(rest + [STR(s)], Values.ValueData.Integer(i), "split-at index");
    PopErrors(rest, STR(s), "split-at str");
  }

  /** strip-start removes a prefix the string has and strip-end a suffix;
      otherwise the string is pushed back unchanged. */
  lemma StripWords(rest: seq<Value>, p: string, t: string, s: string)
    ensures StripStartEffect(rest + [STR(p + t), STR(p)]) == Outcome(rest + [STR(t)], None)
    ensures StripEndEffect(rest + [STR(t + p), STR(p)]) == Outcome(rest + [STR(t)], None)
    ensures !IsPrefix(p, s) ==>
      StripStartEffect(rest + [STR(s), STR(p)]) == Outcome(rest + [STR(s)], None)
    ensures !IsSuffix(p, s) ==>
      StripEndEffect(rest + [STR(s), STR(p)]) == Outcome(rest + [STR(s)], None)
  {
    StripInverse(p, t, s);
    PopPairErrors(rest, STR(p + t), STR(p), "strip-start", "prefix", "str");
    PopPairErrors(rest, STR(s), STR(p), "strip-start", "prefix", "str");
    PopPairErrors(rest, STR(t + p), STR(p), "strip-end", "suffix", "str");
    PopPairErrors(rest, STR(s), STR(p), "strip-end", "suffix", "str");
  }

  /** substring between the byte offsets of two char boundaries pushes
      the chars between them. */
  lemma SubstringWord(rest: seq<Value>, s: string, i: nat, j: nat)
    requires i <= j <= |s| && ByteLen(s[..j]) <= I64_MAX
    ensures ByteLen(s[..i]) <= ByteLen(s[..j])
    ensures SubstringEffect(rest + [STR(s), Values.ValueData.Integer(ByteLen(s[..i])),
                                    Values.ValueData.Integer(ByteLen(s[..j]))])
      == Outcome(rest + [STR(s[i..j])], None)
  {
    SliceBytesSpec(s, i, j);
    var start: Int64, end: Int64 := ByteLen(s[..i]), ByteLen(s[..j]);
    PopThree(rest, s, start, end);
  }

  /** substring with a start past its end panics. */
  lemma SubstringPanics(rest: seq<Value>, s: string, start: Int64, end: Int64)
    requires 0 <= end < start
    ensures SubstringEffect(rest + [STR(s), Values.ValueData.Integer(start), Values.ValueData.Integer(end)])
      == Outcome(rest, Some(Panic))
  {
    PopThree(rest, s, start, end);
  }

  lemma PopThree(rest: seq<Value>, s: string, start: Int64, end: Int64)
    ensures SubstringEffect(rest + [STR(s), Values.ValueData.Integer(start), Values.ValueData.Integer(end)])
      == Pushed(rest, SliceBytes(s, AsUsize(start), AsUsize(end)))
  {
    var one := rest + [STR(s)];
    var two := one + [Values.ValueData.Integer(start)];
    assert rest + [STR(s), Values.ValueData.Integer(start), Values.ValueData.Integer(end)]
      == two + [Values.ValueData.Integer(end)];
    PopErrors(two, Values.ValueData.Integer(end), "substring end");
    PopErrors(one, Values.ValueData.Integer(start), "substring start");
    PopErrors(rest, STR(s), "substring str");
  }

  /** A string value */
  function STR(s: string): Value
  {
    Values.ValueData.String(s)
  }

  // ---------------------------------------------------------------------
  // The words on the machine's stack

  class StringVm {
    var stack: seq<Value>

    constructor New(initial: seq<Value>)
      ensures stack == initial
    {
      stack := initial;
    }

    /** `vm.pop()`: the top, or StackUnderflow with nothing changed */
    method Pop() returns (r: Result<Value, Error>)
      modifies this
      ensures stack == PopAny(old(stack)).rest && r == AsResult(PopAny(old(stack)))
    {
      if stack == [] {
        return Err(StackUnderflow);
      }
      r := Ok(stack[|stack| - 1]);
      stack := stack[..|stack| - 1];
    }

    /** Pops a value and takes its string, or reports `message` */
    method PopStr(message: string) returns (r: Result<string, Error>)
      modifies this
      ensures stack == PopString(old(stack), message).rest && r == AsResult(PopString(old(stack), message))
    {
      var v := Pop();
      if v.Err? {
        return Err(v.error);
      }
      if !v.value.String? {
        return Err(TypeMismatch(message));
      }
      r := Ok(v.value.s);
    }

    /** Pops a value and takes its integer, or reports `message` */
    method PopInt(message: string) returns (r: Result<Int64, Error>)
      modifies this
      ensures stack == PopInteger(old(stack), message).rest && r == AsResult(PopInteger(old(stack), message))
    {
      var v := Pop();
      if v.Err? {
        return Err(v.error);
      }
      if !v.value.Integer? {
        return Err(TypeMismatch(message));
      }
      r := Ok(v.value.i);
    }

    /** Pops `sub`, then `s` */
    method PopTwo(word: string, top: string, below: string) returns (r: Result<(string, string), Error>)
      modifies this
      ensures stack == PopPair(old(stack), word, top, below).rest
      ensures r == AsResult(PopPair(old(stack), word, top, below))
    {
      var sub := PopStr(word + " " + top);
      if sub.Err? {
        return Err(sub.error);
      }
      var s := PopStr(word + " " + below);
      if s.Err? {
        return Err(s.error);
      }
      r := Ok((s.value, sub.value));
    }

    method Nth() returns (error: Option<Error>)
      modifies this
      ensures Outcome(stack, error) == NthEffect(old(stack))
    {
      var i := PopInt("nth index should be integer");
      if i.Err? {
        return Some(i.error);
      }
      var s := PopStr("nth string");
      if s.Err? {
        return Some(s.error);
      }
      stack := stack + [CharAt(s.value, i.value)];
      error := None;
    }

    method IsEmpty() returns (error: Option<Error>)
      modifies this
      ensures Outcome(stack, error) == IsEmptyEffect(old(stack))
    {
      var s := PopStr("empty?");
      if s.Err? {
        return Some(s.error);
      }
      stack := stack + [Values.ValueData.Boolean(s.value == [])];
      error := None;
    }

    method IsIn() returns (error: Option<Error>)
      modifies this
      ensures Outcome(stack, error) == IsInEffect(old(stack))
    {
      var needle := Pop();
      if needle.Err? {
        return Some(needle.error);
      }
      var haystack := PopStr("in? haystack");
      if haystack.Err? {
        return Some(haystack.error);
      }
      var found;
      if needle.value.String? {
        found := Contains(haystack.value, needle.value.s);
      } else if needle.value.Char? {
        found := needle.value.c in haystack.value;
      } else {
        return Some(TypeMismatch("in? needle"));
      }
      stack := stack + [Values.ValueData.Boolean(found)];
      error := None;
    }

    method StartsWith() returns (error: Option<Error>)
      modifies this
      ensures Outcome(stack, error) == StartsWithEffect(old(stack))
    {
      var args := PopTwo("starts-with?", "sub", "str");
      if args.Err? {
        return Some(args.error);
      }
      var (s, sub) := args.value;
      stack := stack + [Values.ValueData.Boolean(IsPrefix(sub, s))];
      error := None;
    }

    method EndsWith() returns (error: Option<Error>)
      modifies this
      ensures Outcome(stack, error) == EndsWithEffect(old(stack))
    {
      var args := PopTwo("ends-with?", "sub", "str");
      if args.Err? {
        return Some(args.error);
      }
      var (s, sub) := args.value;
      stack := stack + [Values.ValueData.Boolean(IsSuffix(sub, s))];
      error := None;
    }

    method IndexOf() returns (error: Option<Error>)
      modifies this
      ensures Outcome(stack, error) == IndexOfEffect(old(stack))
    {
      var args := PopTwo("index-of?", "sub", "str");
      if args.Err? {
        return Some(args.error);
      }
      var (s, sub) := args.value;
      stack := stack + [IndexValue(s, sub)];
      error := None;
    }

    method Length() returns (error: Option<Error>)
      modifies this
      ensures Outcome(stack, error) == LengthEffect(old(stack))
    {
      var s := PopStr("length");
      if s.Err? {
        return Some(s.error);
      }
      stack := stack + [Values.ValueData.Integer(WrapI64(ByteLen(s.value)))];
      error := None;
    }

    method ReplaceAllWord() returns (error: Option<Error>)
      modifies this
      ensures Outcome(stack, error) == ReplaceAllEffect(old(stack))
    {
      var replace := PopStr("replace-all replace");
      if replace.Err? {
        return Some(replace.error);
      }
      var args := PopTwo("replace-all", "target", "str");
      if args.Err? {
        return Some(args.error);
      }
      var (s, target) := args.value;
      stack := stack + [Values.ValueData.String(ReplaceAll(s, target, replace.value))];
      error := None;
    }

    method Split() returns (error: Option<Error>)
      modifies this
      ensures Outcome(stack, error) == SplitEffect(old(stack))
    {
      var args := PopTwo("split", "sub", "str");
      if args.Err? {
        return Some(args.error);
      }
      var (s, sub) := args.value;
      var found := SplitOnce(s, sub);
      if found.Some? {
        stack := stack + [Values.ValueData.String(found.value.0), Values.ValueData.String(found.value.1)];
      } else {
        stack := stack + [Values.ValueData.String(s), Values.ValueData.Boolean(false)];
      }
      error := None;
    }

    method SplitAll() returns (error: Option<Error>)
      modifies this
      ensures Outcome(stack, error) == SplitAllEffect(old(stack))
    {
      var args := PopTwo("split-all", "sub", "str");
      if args.Err? {
        return Some(args.error);
      }
      var (s, sub) := args.value;
      stack := stack + [Values.ValueData.List(StringValues(SplitAllOf(s, sub)))];
      error := None;
    }

    method SplitAt() returns (error: Option<Error>)
      modifies this
      ensures Outcome(stack, error) == SplitAtEffect(old(stack))
    {
      var i := PopInt("split-at index");
      if i.Err? {
        return Some(i.error);
      }
      var s := PopStr("split-at str");
      if s.Err? {
        return Some(s.error);
      }
      var b := AsUsize(i.value);
      if b <= ByteLen(s.value) {
        var parts := SplitAtBytes(s.value, b);
        if parts.Err? {
          return Some(parts.error);
        }
        stack := stack + [Values.ValueData.String(parts.value.0), Values.ValueData.String(parts.value.1)];
      } else {
        stack := stack + [Values.ValueData.String(s.value), Values.ValueData.Boolean(false)];
      }
      error := None;
    }

    method StripStart() returns (error: Option<Error>)
      modifies this
      ensures Outcome(stack, error) == StripStartEffect(old(stack))
    {
      var args := PopTwo("strip-start", "prefix", "str");
      if args.Err? {
        return Some(args.error);
      }
      var (s, p) := args.value;
      stack := stack + [Values.ValueData.String(OrElse(StripPrefix(s, p), s))];
      error := None;
    }

    method StripEnd() returns (error: Option<Error>)
      modifies this
      ensures Outcome(stack, error) == StripEndEffect(old(stack))
    {
      var args := PopTwo("strip-end", "suffix", "str");
      if args.Err? {
        return Some(args.error);
      }
      var (s, p) := args.value;
      stack := stack + [Values.ValueData.String(OrElse(StripSuffix(s, p), s))];
      error := None;
    }

    method Substring() returns (error: Option<Error>)
      modifies this
      ensures Outcome(stack, error) == SubstringEffect(old(stack))
    {
      var end := PopInt("substring end");
      if end.Err? {
        return Some(end.error);
      }
      var start := PopInt("substring start");
      if start.Err? {
        return Some(start.error);
      }
      var s := PopStr("substring str");
      if s.Err? {
        return Some(s.error);
      }
      var piece := SliceBytes(s.value, AsUsize(start.value), AsUsize(end.value));
      if piece.Err? {
        return Some(piece.error);
      }
      stack := stack + [Values.ValueData.String(piece.value)];
      error := None;
    }
  }
}
