/** Ordered string-keyed dictionaries, as JavaScript objects behave when their
    keys are enumerated with `for ... in`: keys come out in insertion order, and
    assigning to a key that is already present changes its value but not its
    place. */
module Dicts {

  /** No key is listed twice. */
  predicate Distinct(s: seq<string>)
  {
    forall i, j :: 0 <= i < j < |s| ==> s[i] != s[j]
  }

  /** `keys` is the enumeration order, `m` the key/value association. */
  datatype RawDict<V> = RawDict(keys: seq<string>, m: map<string, V>)

  predicate Valid<V>(d: RawDict<V>)
  {
    && Distinct(d.keys)
    && (forall k :: k in d.m ==> k in d.keys)
    && (forall k :: k in d.keys ==> k in d.m)
  }

  type Dict<V> = d: RawDict<V> | Valid(d) witness RawDict([], map[])

  function Empty<V>(): (r: Dict<V>)
    ensures r.keys == [] && r.m == map[]
  {
    RawDict([], map[])
  }

  lemma DistinctSnoc(s: seq<string>, k: string)
    requires Distinct(s) && k !in s
    ensures Distinct(s + [k])
  {
  }

  /** `d[k] = v`: a new key goes last, an existing key keeps its place. */
  function Put<V>(d: Dict<V>, k: string, v: V): (r: Dict<V>)
    ensures r.m == d.m[k := v]
    ensures k in d.m ==> r.keys == d.keys
    ensures k !in d.m ==> r.keys == d.keys + [k]
  {
    if k in d.m then RawDict(d.keys, d.m[k := v])
    else
      DistinctSnoc(d.keys, k);
      RawDict(d.keys + [k], d.m[k := v])
  }

  /** Every value replaced by its image under `f`, keys and their order kept. */
  function MapValues(d: Dict<string>, f: string -> string): (r: Dict<string>)
    ensures r.keys == d.keys
    ensures forall k :: k in r.m <==> k in d.m
    ensures forall k :: k in d.m ==> r.m[k] == f(d.m[k])
  {
    RawDict(d.keys, map k | k in d.m :: f(d.m[k]))
  }

  /** The keys of `ks` that are not in `present`, each once, in the order
      of their first occurrence in `ks`. */
  function Without(ks: seq<string>, present: set<string>): seq<string>
  {
    if ks == [] then []
    else if ks[0] in present then Without(ks[1..], present)
    else [ks[0]] + Without(ks[1..], present + {ks[0]})
  }

  /** `d[ks[0]] = src[ks[0]]; d[ks[1]] = src[ks[1]]; ...` in that order. */
  function PutKeys<V>(d: Dict<V>, ks: seq<string>, src: map<string, V>): Dict<V>
    requires forall k :: k in ks ==> k in src
    decreases |ks|
  {
    if ks == [] then d else PutKeys(Put(d, ks[0], src[ks[0]]), ks[1..], src)
  }

  /** `Object.assign({}, d, e)`: the union of `d` and `e`, values of `e`
      winning, with the keys of `d` first and then the new keys of `e`. */
  function Assign<V>(d: Dict<V>, e: Dict<V>): Dict<V>
  {
    PutKeys(d, e.keys, e.m)
  }

  lemma {:induction false} PutKeysMap<V>(d: Dict<V>, ks: seq<string>, src: map<string, V>)
    requires forall k :: k in ks ==> k in src
    ensures forall k :: k in PutKeys(d, ks, src).m <==> k in d.m || k in ks
    ensures forall k :: k in ks ==> PutKeys(d, ks, src).m[k] == src[k]
    ensures forall k :: k in d.m && k !in ks ==> PutKeys(d, ks, src).m[k] == d.m[k]
    decreases |ks|
  {
    if ks != [] {
      PutKeysMap(Put(d, ks[0], src[ks[0]]), ks[1..], src);
    }
  }

  lemma {:induction false} PutKeysOrder<V>(d: Dict<V>, ks: seq<string>, src: map<string, V>)
    requires forall k :: k in ks ==> k in src
    ensures PutKeys(d, ks, src).keys == d.keys + Without(ks, d.m.Keys)
    decreases |ks|
  {
    if ks != [] {
      PutKeysOrder(Put(d, ks[0], src[ks[0]]), ks[1..], src);
      PutOrder(d, ks[0], src[ks[0]], ks[1..]);
      assert ks == [ks[0]] + ks[1..];
    }
  }

  /** A key put before the rest: the keys the rest adds come after it, in
      the order `Without` gives. */
  lemma PutOrder<V>(d: Dict<V>, k: string, v: V, rest: seq<string>)
    ensures var d' := Put(d, k, v);
      d'.keys + Without(rest, d'.m.Keys) == d.keys + Without([k] + rest, d.m.Keys)
  {
    var d' := Put(d, k, v);
    var ks := [k] + rest;
    assert ks[0] == k && ks[1..] == rest;
    if k in d.m {
      assert d'.m.Keys == d.m.Keys;
    } else {
      assert d'.m.Keys == d.m.Keys + {k};
    }
  }

  /** The merge rule of `Object.assign({}, d, e)`: every key of either side is
      present, a key of `e` takes `e`'s value, any other key keeps `d`'s, and
      the enumeration order is `d`'s keys followed by the keys only `e` has. */
  lemma AssignSpec<V>(d: Dict<V>, e: Dict<V>)
    ensures forall k :: k in Assign(d, e).m <==> k in d.m || k in e.m
    ensures forall k :: k in e.m ==> Assign(d, e).m[k] == e.m[k]
    ensures forall k :: k in d.m && k !in e.m ==> Assign(d, e).m[k] == d.m[k]
    ensures Assign(d, e).keys == d.keys + Without(e.keys, d.m.Keys)
  {
    PutKeysMap(d, e.keys, e.m);
    PutKeysOrder(d, e.keys, e.m);
  }
}

/** Sequence helpers: occurrence counts and repetition, used to state how many
    reverse edges an execution records. */
module Seqs {

  function Count<T(==)>(s: seq<T>, x: T): (n: nat)
    ensures n <= |s|
    ensures n == 0 <==> x !in s
  {
    if s == [] then 0 else (if s[0] == x then 1 else 0) + Count(s[1..], x)
  }

  function Repeat<T>(x: T, n: nat): (r: seq<T>)
    ensures |r| == n
    ensures forall i :: 0 <= i < n ==> r[i] == x
  {
    if n == 0 then [] else [x] + Repeat(x, n - 1)
  }

  lemma CountSnoc<T>(s: seq<T>, y: T, x: T)
    ensures Count(s + [y], x) == Count(s, x) + (if y == x then 1 else 0)
  {
    if s != [] {
      assert (s + [y])[1..] == s[1..] + [y];
      CountSnoc(s[1..], y, x);
    }
  }

  lemma {:induction false} CountAppend<T>(a: seq<T>, b: seq<T>, x: T)
    ensures Count(a + b, x) == Count(a, x) + Count(b, x)
  {
    if a != [] {
      assert (a + b)[1..] == a[1..] + b;
      CountAppend(a[1..], b, x);
    } else {
      assert a + b == b;
    }
  }

  lemma {:induction false} CountRepeat<T>(y: T, n: nat, x: T)
    ensures Count(Repeat(y, n), x) == if y == x then n else 0
  {
    if n > 0 {
      assert Repeat(y, n)[1..] == Repeat(y, n - 1);
      CountRepeat(y, n - 1, x);
    }
  }

  /** Two different places holding `x` make it occur at least twice. */
  lemma {:induction false} CountTwo<T>(s: seq<T>, i: nat, j: nat, x: T)
    requires i < j < |s| && s[i] == x && s[j] == x
    ensures Count(s, x) >= 2
  {
    if i > 0 {
      CountTwo(s[1..], i - 1, j - 1, x);
    } else {
      assert s[1..][j - 1] == x;
    }
  }

  /** No element occurs twice. */
  predicate NoDuplicates<T(==)>(s: seq<T>)
  {
    forall i, j :: 0 <= i < j < |s| ==> s[i] != s[j]
  }

  lemma NoDuplicatesSnoc<T>(s: seq<T>, x: T)
    requires NoDuplicates(s) && x !in s
    ensures NoDuplicates(s + [x])
  {
  }

  /** Without duplicates, an element that occurs occurs once. */
  lemma {:induction false} CountUnique<T>(s: seq<T>, x: T)
    requires NoDuplicates(s) && x in s
    ensures Count(s, x) == 1
  {
    if s[0] == x {
      assert x !in s[1..] by {
        forall j | 0 <= j < |s[1..]| ensures s[1..][j] != x {
          assert s[1..][j] == s[j + 1];
        }
      }
    } else {
      CountUnique(s[1..], x);
    }
  }
}
