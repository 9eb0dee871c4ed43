/**
 * A codec that meets `RoundTrips`: every value is written as a prefix code
 * and read back by choosing the one value with that text. It shows that the
 * lemmas assuming a faithful codec do not assume something impossible.
 */
module CodecWitness {
  import opened Wrappers
  import opened Json
  import opened Models
  import opened Seqs

  /** `n` in unary, closed by a semicolon. */
  function Count(n: nat): string {
    if n == 0 then ";" else "1" + Count(n - 1)
  }

  /** A string preceded by its length. */
  function Text(s: string): string {
    Count(|s|) + s
  }

  /** The first character of a text says which kind of value follows. */
  function Tag(v: Value): char {
    match v
    case Null => 'n'
    case Bool(_) => 'b'
    case Int(i) => if i >= 0 then 'p' else 'm'
    case Float(_, _, _) => 'd'
    case Str(_) => 's'
    case Arr(_) => 'a'
    case Obj(_) => 'o'
  }

  function Encode(v: Value): string
    decreases v, 1
  {
    [Tag(v)] + Body(v)
  }

  function Body(v: Value): string
    decreases v, 0
  {
    match v
    case Null => ""
    case Bool(b) => if b then "t" else "f"
    case Int(i) => if i >= 0 then Count(i) else Count(-i)
    case Float(negative, e, f) => (if negative then "-" else "+") + Count(e) + Count(f)
    case Str(s) => Text(s)
    case Arr(items) => Count(|items|) + EncodeItems(items)
    case Obj(fs) => Count(|fs|) + EncodeMembers(fs)
  }

  function EncodeItems(items: seq<Value>): string
    decreases items
  {
    if items == [] then "" else Encode(items[0]) + EncodeItems(items[1..])
  }

  function EncodeMembers(fs: Fields): string
    decreases fs
  {
    if fs == [] then "" else EncodeMember(fs[0]) + EncodeMembers(fs[1..])
  }

  function EncodeMember(m: (string, Value)): string
    decreases m
  {
    Text(m.0) + Encode(m.1)
  }

  /** No count is a proper prefix of another. */
  lemma {:induction false} CountPrefix(n: nat, m: nat, x: string, y: string)
    requires Count(n) + x == Count(m) + y
    ensures n == m && x == y
  {
    assert (Count(n) + x)[0] == Count(n)[0] && (Count(m) + y)[0] == Count(m)[0];
    if n > 0 && m > 0 {
      Associative("1", Count(n - 1), x);
      Associative("1", Count(m - 1), y);
      assert Count(n - 1) + x == (Count(n) + x)[1..];
      assert Count(m - 1) + y == (Count(m) + y)[1..];
      CountPrefix(n - 1, m - 1, x, y);
    } else if n == 0 && m == 0 {
      assert x == (Count(n) + x)[1..];
      assert y == (Count(m) + y)[1..];
    }
  }

  lemma TextPrefix(s: string, t: string, x: string, y: string)
    requires Text(s) + x == Text(t) + y
    ensures s == t && x == y
  {
    Associative(Count(|s|), s, x);
    Associative(Count(|t|), t, y);
    CountPrefix(|s|, |t|, s + x, t + y);
    assert s == (s + x)[..|s|] && t == (t + y)[..|t|];
    assert x == (s + x)[|s|..] && y == (t + y)[|t|..];
  }

  /** The text of a value is not a proper prefix of the text of another. */
  lemma {:induction false} EncodePrefix(a: Value, b: Value, x: string, y: string)
    requires Encode(a) + x == Encode(b) + y
    ensures a == b && x == y
    decreases a, 1
  {
    Associative([Tag(a)], Body(a), x);
    Associative([Tag(b)], Body(b), y);
    assert Tag(a) == (Encode(a) + x)[0] == (Encode(b) + y)[0] == Tag(b);
    assert Body(a) + x == (Encode(a) + x)[1..] == (Encode(b) + y)[1..] == Body(b) + y;
    BodyPrefix(a, b, x, y);
  }

  lemma {:induction false} BodyPrefix(a: Value, b: Value, x: string, y: string)
    requires Tag(a) == Tag(b) && Body(a) + x == Body(b) + y
    ensures a == b && x == y
    decreases a, 0
  {
    match a
    case Null =>
      assert Body(a) + x == x && Body(b) + y == y;
    case Bool(_) =>
      BoolPrefix(a, b, x, y);
    case Int(i) =>
      if i >= 0 {
        CountPrefix(i, b.i, x, y);
      } else {
        CountPrefix(-i, -b.i, x, y);
      }
    case Float(_, _, _) =>
      FloatPrefix(a, b, x, y);
    case Str(s) =>
      TextPrefix(s, b.s, x, y);
    case Arr(items) =>
      ArrPrefix(items, b.items, x, y);
    case Obj(fs) =>
      ObjPrefix(fs, b.fields, x, y);
  }

  lemma BoolPrefix(a: Value, b: Value, x: string, y: string)
    requires a.Bool? && b.Bool? && Body(a) + x == Body(b) + y
    ensures a == b && x == y
  {
    assert (Body(a) + x)[0] == Body(a)[0] && (Body(b) + y)[0] == Body(b)[0];
    assert x == (Body(a) + x)[1..] && y == (Body(b) + y)[1..];
  }

  lemma FloatPrefix(a: Value, b: Value, x: string, y: string)
    requires a.Float? && b.Float? && Body(a) + x == Body(b) + y
    ensures a == b && x == y
  {
    var sa, sb := if a.negative then "-" else "+", if b.negative then "-" else "+";
    var ra, rb := Count(a.fraction) + x, Count(b.fraction) + y;
    Associative(sa + Count(a.exponent), Count(a.fraction), x);
    Associative(sb + Count(b.exponent), Count(b.fraction), y);
    Associative(sa, Count(a.exponent), ra);
    Associative(sb, Count(b.exponent), rb);
    assert (sa + (Count(a.exponent) + ra))[0] == sa[0] && (sb + (Count(b.exponent) + rb))[0] == sb[0];
    assert Count(a.exponent) + ra == (sa + (Count(a.exponent) + ra))[1..];
    assert Count(b.exponent) + rb == (sb + (Count(b.exponent) + rb))[1..];
    CountPrefix(a.exponent, b.exponent, ra, rb);
    CountPrefix(a.fraction, b.fraction, x, y);
  }

  lemma {:induction false} ArrPrefix(p: seq<Value>, q: seq<Value>, x: string, y: string)
    requires Count(|p|) + EncodeItems(p) + x == Count(|q|) + EncodeItems(q) + y
    ensures p == q && x == y
    decreases p, 1
  {
    Associative(Count(|p|), EncodeItems(p), x);
    Associative(Count(|q|), EncodeItems(q), y);
    CountPrefix(|p|, |q|, EncodeItems(p) + x, EncodeItems(q) + y);
    ItemsPrefix(p, q, x, y);
  }

  lemma {:induction false} ObjPrefix(p: Fields, q: Fields, x: string, y: string)
    requires Count(|p|) + EncodeMembers(p) + x == Count(|q|) + EncodeMembers(q) + y
    ensures p == q && x == y
    decreases p, 1
  {
    Associative(Count(|p|), EncodeMembers(p), x);
    Associative(Count(|q|), EncodeMembers(q), y);
    CountPrefix(|p|, |q|, EncodeMembers(p) + x, EncodeMembers(q) + y);
    MembersPrefix(p, q, x, y);
  }

  lemma {:induction false} ItemsPrefix(p: seq<Value>, q: seq<Value>, x: string, y: string)
    requires |p| == |q| && EncodeItems(p) + x == EncodeItems(q) + y
    ensures p == q && x == y
    decreases p, 0
  {
    if p != [] {
      var rp, rq := EncodeItems(p[1..]) + x, EncodeItems(q[1..]) + y;
      Associative(Encode(p[0]), EncodeItems(p[1..]), x);
      Associative(Encode(q[0]), EncodeItems(q[1..]), y);
      assert Encode(p[0]) + rp == Encode(q[0]) + rq;
      EncodePrefix(p[0], q[0], rp, rq);
      ItemsPrefix(p[1..], q[1..], x, y);
      assert p == [p[0]] + p[1..] == [q[0]] + q[1..] == q;
    } else {
      assert EncodeItems(p) + x == x && EncodeItems(q) + y == y;
    }
  }

  lemma {:induction false} MembersPrefix(p: Fields, q: Fields, x: string, y: string)
    requires |p| == |q| && EncodeMembers(p) + x == EncodeMembers(q) + y
    ensures p == q && x == y
    decreases p, 0
  {
    if p != [] {
      var rp, rq := EncodeMembers(p[1..]) + x, EncodeMembers(q[1..]) + y;
      Associative(EncodeMember(p[0]), EncodeMembers(p[1..]), x);
      Associative(EncodeMember(q[0]), EncodeMembers(q[1..]), y);
      assert EncodeMember(p[0]) + rp == EncodeMember(q[0]) + rq;
      MemberPrefix(p[0], q[0], rp, rq);
      MembersPrefix(p[1..], q[1..], x, y);
      assert p == [p[0]] + p[1..] == [q[0]] + q[1..] == q;
    } else {
      assert EncodeMembers(p) + x == x && EncodeMembers(q) + y == y;
    }
  }

  lemma {:induction false} MemberPrefix(m: (string, Value), n: (string, Value), x: string, y: string)
    requires EncodeMember(m) + x == EncodeMember(n) + y
    ensures m == n && x == y
    decreases m
  {
    Associative(Text(m.0), Encode(m.1), x);
    Associative(Text(n.0), Encode(n.1), y);
    TextPrefix(m.0, n.0, Encode(m.1) + x, Encode(n.1) + y);
    EncodePrefix(m.1, n.1, x, y);
  }

  /** The value whose text is `s`, if there is one. */
  ghost function Decode(s: string): Result<Value, Error> {
    if exists v :: Encode(v) == s then Ok(var v :| Encode(v) == s; v) else Err(ValueError)
  }

  ghost function Witness(): Codec {
    Codec(Encode, s => Decode(s))
  }

  /** The witness codec decodes every encoded value, plain or not. */
  lemma WitnessRoundTrips()
    ensures RoundTrips(Witness())
  {
    forall v: Value
      ensures Decode(Encode(v)) == Ok(v)
    {
      var w := Decode(Encode(v)).value;
      assert Encode(w) + "" == Encode(v) + "";
      EncodePrefix(w, v, "", "");
    }
  }
}
