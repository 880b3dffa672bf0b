/**
 * Summation of the int64 values of a Go map (generics/main.go).
 *
 * `SumInts`, and `SumNums` / `SumNumbers` instantiated at V = int64, declare an
 * accumulator at the zero value and add every value of the map to it while
 * ranging over the map. Go's `+=` on int64 wraps around modulo 2^64, and Go
 * leaves the order in which `range` visits the keys unspecified.
 *
 * The model states the result as the wrapped value of the mathematical sum of
 * the multiset of map values, `Wrap(Total(m))`, and proves that no visiting
 * order can change it.
 */
module Generics {

  /* ---------------- Go's int64 and its wrapping addition ---------------- */

  const Modulus: int := 0x1_0000_0000_0000_0000
  const MinInt64: int := -0x8000_0000_0000_0000
  const MaxInt64: int := 0x7FFF_FFFF_FFFF_FFFF

  newtype int64 = x: int | -0x8000_0000_0000_0000 <= x < 0x8000_0000_0000_0000

  /** The two's-complement int64 that is congruent to x modulo 2^64 (see WrapCongruent). */
  function Wrap(x: int): (r: int64)
    ensures MinInt64 <= x <= MaxInt64 ==> r as int == x
  {
    var low := x % Modulus;
    if low <= MaxInt64 then low as int64 else (low - Modulus) as int64
  }

  /** Wrap only moves its argument by a multiple of 2^64. */
  lemma WrapCongruent(x: int)
    ensures (x - Wrap(x) as int) % Modulus == 0
  {
  }

  /** Go's `a + b` on int64 operands: the true sum when it fits, wrapped otherwise. */
  function AddWrap(a: int64, b: int64): (r: int64)
    ensures MinInt64 <= a as int + b as int <= MaxInt64 ==> r as int == a as int + b as int
  {
    Wrap(a as int + b as int)
  }

  /** Adding a multiple of 2^64 does not change the wrapped value. */
  lemma WrapShift(x: int, q: int)
    ensures Wrap(x + q * Modulus) == Wrap(x)
  {
    assert (x + q * Modulus) % Modulus == x % Modulus;
  }

  /** Wrapping an intermediate sum does not change the final wrapped sum. */
  lemma WrapAddWrap(a: int, b: int)
    ensures Wrap(Wrap(a) as int + b) == Wrap(a + b)
  {
    WrapCongruent(a);
    var q := (a - Wrap(a) as int) / Modulus;
    assert a - Wrap(a) as int == q * Modulus;
    WrapShift(Wrap(a) as int + b, q);
    assert Wrap(a) as int + b + q * Modulus == a + b;
  }

  /* ---------------- The specification: the sum of the value multiset ---------------- */

  /** The mathematical (unbounded) sum of a multiset of int64 values. */
  ghost function BagSum(b: multiset<int64>): int
    decreases |b|
  {
    if b == multiset{} then 0
    else
      var x :| x in b;
      x as int + BagSum(b - multiset{x})
  }

  /** The multiset of the values of m: each key contributes its value once. */
  ghost function ValueBag<K>(m: map<K, int64>): multiset<int64>
    decreases |m|
  {
    if m == map[] then multiset{}
    else
      var k :| k in m;
      assert |m - {k}| < |m| by { assert (m - {k}).Keys == m.Keys - {k}; }
      ValueBag(m - {k}) + multiset{m[k]}
  }

  /** The unbounded sum of all values of m. */
  ghost function Total<K>(m: map<K, int64>): int
  {
    BagSum(ValueBag(m))
  }

  /** Unfolds BagSum on a non-empty multiset, naming the element it took out. */
  lemma BagSumUnfold(b: multiset<int64>) returns (x: int64)
    requires b != multiset{}
    ensures x in b && BagSum(b) == x as int + BagSum(b - multiset{x})
  {
    x :| x in b && BagSum(b) == x as int + BagSum(b - multiset{x});
  }

  /** BagSum may take out any element first: it does not depend on the order of summation. */
  lemma {:induction false} BagSumRemove(b: multiset<int64>, x: int64)
    requires x in b
    ensures BagSum(b) == x as int + BagSum(b - multiset{x})
    decreases |b|
  {
    var y := BagSumUnfold(b);
    if y != x {
      assert x in b - multiset{y};
      BagSumRemove(b - multiset{y}, x);
      assert y in b - multiset{x};
      BagSumRemove(b - multiset{x}, y);
      assert b - multiset{y} - multiset{x} == b - multiset{x} - multiset{y};
    }
  }

  /** BagSum distributes over multiset union. */
  lemma {:induction false} BagSumUnion(a: multiset<int64>, b: multiset<int64>)
    ensures BagSum(a + b) == BagSum(a) + BagSum(b)
    decreases |a|
  {
    if a != multiset{} {
      var x := BagSumUnfold(a);
      BagSumRemove(a + b, x);
      assert a + b - multiset{x} == (a - multiset{x}) + b;
      BagSumUnion(a - multiset{x}, b);
    } else {
      assert a + b == b;
    }
  }

  /** Unfolds ValueBag on a non-empty map, naming the key it took out. */
  lemma ValueBagUnfold<K>(m: map<K, int64>) returns (j: K)
    requires m != map[]
    ensures j in m && ValueBag(m) == ValueBag(m - {j}) + multiset{m[j]}
  {
    j :| j in m && ValueBag(m) == ValueBag(m - {j}) + multiset{m[j]};
  }

  /** Removing a present key leaves one key fewer, and the other entries as they were. */
  lemma RemoveKey<K>(m: map<K, int64>, k: K)
    requires k in m
    ensures (m - {k}).Keys == m.Keys - {k}
    ensures |m - {k}| == |m| - 1
  {
  }

  /** Removing two distinct keys in either order gives the same map. */
  lemma RemoveTwo<K>(m: map<K, int64>, j: K, k: K)
    requires j in m && k in m && j != k
    ensures (m - {j}) - {k} == (m - {k}) - {j}
    ensures k in m - {j} && (m - {j})[k] == m[k]
    ensures j in m - {k} && (m - {k})[j] == m[j]
    ensures |m - {j}| < |m| && |m - {k}| < |m|
  {
    RemoveKey(m, j);
    RemoveKey(m, k);
  }

  /** ValueBag may take out any key first. */
  lemma {:induction false} ValueBagRemove<K>(m: map<K, int64>, k: K)
    requires k in m
    ensures ValueBag(m) == ValueBag(m - {k}) + multiset{m[k]}
    decreases |m|
  {
    var j := ValueBagUnfold(m);
    if j != k {
      RemoveTwo(m, j, k);
      ValueBagRemove(m - {j}, k);
      ValueBagRemove(m - {k}, j);
    }
  }

  /** The keys of m that map to v. */
  ghost function KeysWith<K>(m: map<K, int64>, v: int64): set<K>
  {
    set k | k in m && m[k] == v
  }

  /** Taking key k out of m takes it out of the keys holding m[k], and nothing else. */
  lemma KeysWithRemove<K>(m: map<K, int64>, k: K, v: int64)
    requires k in m
    ensures k !in KeysWith(m - {k}, v)
    ensures KeysWith(m, v) == KeysWith(m - {k}, v) + (if m[k] == v then {k} else {})
  {
  }

  /** Every value is counted exactly as often as there are keys holding it. */
  lemma {:induction false} ValueBagCount<K>(m: map<K, int64>, v: int64)
    ensures ValueBag(m)[v] == |KeysWith(m, v)|
    decreases |m|
  {
    if m == map[] {
      assert KeysWith(m, v) == {};
    } else {
      var k := ValueBagUnfold(m);
      RemoveKey(m, k);
      ValueBagCount(m - {k}, v);
      KeysWithRemove(m, k, v);
    }
  }

  /** The sum of an empty map is 0, the zero value of the accumulator. */
  lemma TotalEmpty<K>(m: map<K, int64>)
    requires m == map[]
    ensures Total(m) == 0
  {
  }

  /** Taking any one key out of the sum lowers it by exactly that key's value. */
  lemma TotalRemove<K>(m: map<K, int64>, k: K)
    requires k in m
    ensures Total(m) == m[k] as int + Total(m - {k})
  {
    ValueBagRemove(m, k);
    BagSumUnion(ValueBag(m - {k}), multiset{m[k]});
    BagSumRemove(multiset{m[k]}, m[k]);
  }

  /** Adding a fresh key k with value v raises the sum by exactly v (and the int64 sum by v, wrapped). */
  lemma TotalAddFresh<K>(m: map<K, int64>, k: K, v: int64)
    requires k !in m
    ensures Total(m[k := v]) == Total(m) + v as int
    ensures Wrap(Total(m[k := v])) == AddWrap(Wrap(Total(m)), v)
  {
    TotalRemove(m[k := v], k);
    assert m[k := v] - {k} == m;
    WrapAddWrap(Total(m), v as int);
  }

  /** The worked example of the source: {"first": 34, "second": 12} sums to 46. */
  lemma ExampleTotal()
    ensures Total(map["first" := 34, "second" := 12]) == 46
    ensures Wrap(Total(map["first" := 34, "second" := 12])) == 46
  {
    var m: map<string, int64> := map["first" := 34, "second" := 12];
    var m1: map<string, int64> := map["second" := 12];
    assert m - {"first"} == m1;
    TotalRemove(m, "first");
    assert m1 - {"second"} == map[];
    TotalRemove(m1, "second");
  }

  /* ---------------- Any visiting order gives the same sum ---------------- */

  /** The keys of m listed once each, in some order: one possible order of `range m`. */
  ghost predicate IsEnumeration<K>(m: map<K, int64>, ks: seq<K>)
  {
    && (forall i, j :: 0 <= i < j < |ks| ==> ks[i] != ks[j])
    && (forall i :: 0 <= i < |ks| ==> ks[i] in m)
    && |ks| == |m|
  }

  /** The values of m in the order the keys of ks visit them. */
  ghost function ValuesInOrder<K>(m: map<K, int64>, ks: seq<K>): seq<int64>
    requires forall i :: 0 <= i < |ks| ==> ks[i] in m
  {
    if ks == [] then [] else [m[ks[0]]] + ValuesInOrder(m, ks[1..])
  }

  /** The unbounded sum of a sequence of values, left to right. */
  ghost function SeqSum(vs: seq<int64>): int
  {
    if vs == [] then 0 else vs[0] as int + SeqSum(vs[1..])
  }

  /**
   * Go's loop `for _, v := range vs { s += v }` over values already listed in
   * visiting order, starting from acc: it ends at the wrapped unbounded sum.
   */
  function FoldAdd(acc: int64, vs: seq<int64>): (s: int64)
    ensures s == Wrap(acc as int + SeqSum(vs))
    decreases |vs|
  {
    if vs == [] then
      assert Wrap(acc as int) == acc;
      acc
    else
      AddThenWrap(acc, vs[0], SeqSum(vs[1..]));
      FoldAdd(AddWrap(acc, vs[0]), vs[1..])
  }

  /** Summing a sequence left to right gives the sum of its multiset. */
  lemma {:induction false} SeqSumIsBagSum(vs: seq<int64>)
    ensures SeqSum(vs) == BagSum(multiset(vs))
  {
    if vs != [] {
      SeqSumIsBagSum(vs[1..]);
      assert multiset(vs) == multiset(vs[1..]) + multiset{vs[0]} by { assert vs == [vs[0]] + vs[1..]; }
      BagSumRemove(multiset(vs), vs[0]);
      assert multiset(vs) - multiset{vs[0]} == multiset(vs[1..]);
    }
  }

  /** One more step of the loop: adding x with wrap-around, then the rest, is adding x + rest. */
  lemma AddThenWrap(acc: int64, x: int64, rest: int)
    ensures Wrap(AddWrap(acc, x) as int + rest) == Wrap(acc as int + (x as int + rest))
  {
    WrapAddWrap(acc as int + x as int, rest);
  }

  /** Any enumeration of the keys lists exactly the multiset of values. */
  lemma {:induction false} EnumerationValues<K>(m: map<K, int64>, ks: seq<K>)
    requires IsEnumeration(m, ks)
    ensures multiset(ValuesInOrder(m, ks)) == ValueBag(m)
    decreases |ks|
  {
    if ks == [] {
    } else {
      var k, rest := ks[0], m - {ks[0]};
      assert rest.Keys == m.Keys - {k};
      assert IsEnumeration(rest, ks[1..]);
      EnumerationValues(rest, ks[1..]);
      ValuesFrame(m, rest, ks[1..]);
      ValueBagRemove(m, k);
    }
  }

  /** The values along ks depend only on the entries of the keys in ks. */
  lemma {:induction false} ValuesFrame<K>(m: map<K, int64>, n: map<K, int64>, ks: seq<K>)
    requires forall i :: 0 <= i < |ks| ==> ks[i] in m && ks[i] in n && m[ks[i]] == n[ks[i]]
    ensures ValuesInOrder(m, ks) == ValuesInOrder(n, ks)
  {
    if ks != [] {
      ValuesFrame(m, n, ks[1..]);
    }
  }

  /** Whatever order `range` visits the keys in, the loop ends with the same int64 sum. */
  lemma OrderIndependent<K>(m: map<K, int64>, ks: seq<K>)
    requires IsEnumeration(m, ks)
    ensures FoldAdd(0, ValuesInOrder(m, ks)) == Wrap(Total(m))
  {
    SeqSumIsBagSum(ValuesInOrder(m, ks));
    EnumerationValues(m, ks);
  }

  /* ---------------- The three summation functions ---------------- */

  /**
   * SumNums[K, int64]: the accumulator starts at 0 and `range` hands over the
   * values one key at a time, in an order the loop does not control.
   */
  method SumNums<K(==)>(m: map<K, int64>) returns (s: int64)
    ensures s == Wrap(Total(m))
    ensures MinInt64 <= Total(m) <= MaxInt64 ==> s as int == Total(m)
  {
    s := 0;
    var rest := m;
    ghost var added := 0;
    while rest != map[]
      invariant s == Wrap(added)
      invariant added + Total(rest) == Total(m)
      decreases |rest|
    {
      var k :| k in rest;
      TotalRemove(rest, k);
      WrapAddWrap(added, rest[k] as int);
      s := AddWrap(s, rest[k]);
      added := added + rest[k] as int;
      RemoveKey(rest, k);
      rest := rest - {k};
    }
  }

  /** SumInts: the same loop as SumNums, written for string keys; the loop is modelled once, in SumNums. */
  method SumInts(m: map<string, int64>) returns (s: int64)
    ensures s == Wrap(Total(m))
    ensures MinInt64 <= Total(m) <= MaxInt64 ==> s as int == Total(m)
  {
    s := SumNums(m);
  }

  /** SumNumbers[K, int64]: SumNums under the Number constraint, with the same loop. */
  method SumNumbers<K(==)>(m: map<K, int64>) returns (s: int64)
    ensures s == Wrap(Total(m))
    ensures MinInt64 <= Total(m) <= MaxInt64 ==> s as int == Total(m)
  {
    s := SumNums(m);
  }

  /** The int64 instantiations of the generic functions agree with SumInts on every map. */
  method SumsAgree(m: map<string, int64>) returns (viaInts: int64, viaNums: int64, viaNumbers: int64)
    ensures viaInts == viaNums == viaNumbers
    ensures m == map["first" := 34, "second" := 12] ==> viaInts == 46
  {
    viaInts := SumInts(m);
    viaNums := SumNums(m);
    viaNumbers := SumNumbers(m);
    if m == map["first" := 34, "second" := 12] {
      ExampleTotal();
    }
  }
}
