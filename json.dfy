/**
 * JSON values as Python's `json` module hands them over, and the few
 * Python built-ins the core applies to them: `dict.get`, `in`, subscripting,
 * iteration and truthiness.
 */
module Json {
  import opened Wrappers

  /**
   * A JSON value. An object keeps its members as an ordered sequence of
   * key/value pairs, so that the iteration order of a Python dict is kept.
   * A number is a Python `int` or a `float`; a float is given by the three
   * fields of its IEEE 754 double: the sign, the biased exponent and the fraction.
   */
  datatype Value =
    | Null
    | Bool(b: bool)
    | Int(i: int)
    | Float(negative: bool, exponent: nat, fraction: nat)
    | Str(s: string)
    | Arr(items: seq<Value>)
    | Obj(fields: seq<(string, Value)>)

  /** The Python exceptions the core can raise, and failures of remote calls. */
  datatype Error =
    | AttributeError
    | TypeError
    | KeyError
    | ValueError
    | Remote(reason: string)

  type Fields = seq<(string, Value)>

  /** The keys of an object, in order. */
  function Keys(fs: Fields): (ks: seq<string>)
    ensures |ks| == |fs|
    ensures forall i :: 0 <= i < |fs| ==> ks[i] == fs[i].0
  {
    if fs == [] then [] else [fs[0].0] + Keys(fs[1..])
  }

  /** The keys of joined members are the joined keys. */
  lemma KeysAppend(a: Fields, b: Fields)
    ensures Keys(a + b) == Keys(a) + Keys(b)
  {
    assert forall i :: 0 <= i < |a + b| ==> Keys(a + b)[i] == (Keys(a) + Keys(b))[i];
  }

  /** `key in d` for a dict `d`. */
  predicate Has(fs: Fields, key: string) {
    key in Keys(fs)
  }

  /** `d[key]` if present: the first member with that key. */
  function Get(fs: Fields, key: string): (r: Option<Value>)
    ensures r.Some? <==> Has(fs, key)
    ensures r.Some? ==> (key, r.value) in fs
  {
    if fs == [] then None
    else if fs[0].0 == key then Some(fs[0].1)
    else Get(fs[1..], key)
  }

  /** A lookup finds the first member under the key. */
  lemma {:induction false} GetIndex(fs: Fields, key: string, i: nat)
    requires i < |fs| && fs[i].0 == key
    requires forall j :: 0 <= j < i ==> fs[j].0 != key
    ensures Get(fs, key) == Some(fs[i].1)
  {
    if i > 0 {
      GetIndex(fs[1..], key, i - 1);
    }
  }

  /** `d.get(key, default)`. */
  function GetOr(fs: Fields, key: string, default: Value): Value {
    match Get(fs, key)
    case Some(v) => v
    case None => default
  }

  /** Looking a key up in a concatenation of members. */
  lemma {:induction false} GetAppend(a: Fields, b: Fields, key: string)
    ensures Get(a + b, key) == if Has(a, key) then Get(a, key) else Get(b, key)
  {
    if a == [] {
      assert a + b == b;
    } else {
      assert (a + b)[0] == a[0] && (a + b)[1..] == a[1..] + b;
      assert Keys(a) == [a[0].0] + Keys(a[1..]);
      if a[0].0 != key {
        GetAppend(a[1..], b, key);
      }
    }
  }

  /** Python truthiness: `None`, `False`, zero and empty containers are falsy. */
  predicate Truthy(v: Value) {
    match v
    case Null => false
    case Bool(b) => b
    case Int(i) => i != 0
    case Float(_, e, f) => e != 0 || f != 0
    case Str(s) => s != ""
    case Arr(items) => items != []
    case Obj(fields) => fields != []
  }

  /** The exponent and fraction fields of a double: 11 and 52 bits wide. */
  predicate IsDouble(exponent: nat, fraction: nat) {
    exponent < 0x800 && fraction < 0x10_0000_0000_0000
  }

  /** A NaN: all exponent bits set and a non-zero fraction. */
  predicate IsNaN(exponent: nat, fraction: nat) {
    exponent == 0x7FF && fraction != 0
  }

  /** No two members share a key. */
  predicate DistinctKeys(fs: Fields) {
    forall i, j :: 0 <= i < j < |fs| ==> fs[i].0 != fs[j].0
  }

  /**
   * A value that `json.dumps` followed by `json.loads` gives back unchanged:
   * no object repeats a key (a decoded object keeps only the last member
   * under a key) and no float is a NaN (a NaN is not equal to itself).
   */
  predicate Plain(v: Value)
    decreases v
  {
    match v
    case Float(_, e, f) => IsDouble(e, f) && !IsNaN(e, f)
    case Arr(items) => forall i :: 0 <= i < |items| ==> Plain(items[i])
    case Obj(fs) => DistinctKeys(fs) && forall i :: 0 <= i < |fs| ==> Plain(fs[i].1)
    case _ => true
  }

  /** A member of a plain object is plain. */
  lemma PlainMember(fs: Fields, key: string, default: Value)
    requires Plain(Obj(fs)) && Plain(default)
    ensures Plain(GetOr(fs, key, default))
  {
    if Get(fs, key).Some? {
      var i :| 0 <= i < |fs| && fs[i] == (key, Get(fs, key).value);
    }
  }

  /** Every member value is plain. */
  predicate PlainMembers(fs: Fields) {
    forall i :: 0 <= i < |fs| ==> Plain(fs[i].1)
  }

  /** Members whose keys lie in `ka` and members whose keys lie in the disjoint `kb`, joined. */
  lemma JoinPlain(a: Fields, b: Fields, ka: set<string>, kb: set<string>)
    requires DistinctKeys(a) && DistinctKeys(b) && PlainMembers(a) && PlainMembers(b) && ka !! kb
    requires forall i :: 0 <= i < |a| ==> a[i].0 in ka
    requires forall i :: 0 <= i < |b| ==> b[i].0 in kb
    ensures DistinctKeys(a + b) && PlainMembers(a + b)
    ensures forall i :: 0 <= i < |a + b| ==> (a + b)[i].0 in ka + kb
  {
    forall i, j | 0 <= i < j < |a + b|
      ensures (a + b)[i].0 != (a + b)[j].0
    {
      if j < |a| {
      } else if i >= |a| {
        assert (a + b)[i] == b[i - |a|] && (a + b)[j] == b[j - |a|];
      } else {
        assert (a + b)[i].0 in ka && (a + b)[j].0 in kb;
      }
    }
  }

  /** Whether `needle` occurs in `hay` as a contiguous piece. */
  predicate IsSubstring(needle: string, hay: string) {
    needle <= hay || (hay != [] && IsSubstring(needle, hay[1..]))
  }

  /** `key in container` for a string `key`: membership, element test or substring test; a TypeError otherwise. */
  function In(key: string, container: Value): Result<bool, Error> {
    match container
    case Obj(fs) => Ok(Has(fs, key))
    case Arr(items) => Ok(Str(key) in items)
    case Str(s) => Ok(IsSubstring(key, s))
    case _ => Err(TypeError)
  }

  /** `container[key]` for a string `key`. */
  function Subscript(container: Value, key: string): Result<Value, Error> {
    match container
    case Obj(fs) => if Has(fs, key) then Ok(GetOr(fs, key, Null)) else Err(KeyError)
    case _ => Err(TypeError)
  }

  /** The elements a `for` loop visits: list items, dict keys, or one-character strings. */
  function Iterate(v: Value): (r: Result<seq<Value>, Error>)
    ensures v.Arr? ==> r == Ok(v.items)
    ensures v.Obj? ==> r.Ok? && |r.value| == |v.fields| && forall i :: 0 <= i < |v.fields| ==> r.value[i] == Str(v.fields[i].0)
    ensures v.Str? ==> r.Ok? && |r.value| == |v.s| && forall i :: 0 <= i < |v.s| ==> r.value[i] == Str([v.s[i]])
    ensures !(v.Arr? || v.Obj? || v.Str?) ==> r == Err(TypeError)
  {
    match v
    case Arr(items) => Ok(items)
    case Obj(fs) => Ok(seq(|fs|, i requires 0 <= i < |fs| => Str(fs[i].0)))
    case Str(s) => Ok(seq(|s|, i requires 0 <= i < |s| => Str([s[i]])))
    case _ => Err(TypeError)
  }
}
