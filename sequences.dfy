/** Sequence helpers shared by the store and the queries: order-preserving
    filtering (a DELETE's WHERE and a SELECT's WHERE), SQL's SUM with its
    NULL-on-no-rows rule, and GROUP BY's distinct keys. */
module Sequences {
  import opened Wrappers

  /** The elements of `s` that satisfy `p`, in their original order. */
  function Keep<T(==,!new)>(s: seq<T>, p: T -> bool): (r: seq<T>)
    ensures |r| <= |s|
    ensures forall x :: x in r <==> x in s && p(x)
  {
    if s == [] then []
    else if p(s[0]) then [s[0]] + Keep(s[1..], p)
    else Keep(s[1..], p)
  }

  /** Filtering by a predicate that holds of every element changes nothing. */
  lemma {:induction false} KeepAll<T(!new)>(s: seq<T>, p: T -> bool)
    requires forall x :: x in s ==> p(x)
    ensures Keep(s, p) == s
  {
    if s != [] {
      KeepAll(s[1..], p);
    }
  }

  /** Filtering twice is filtering once by the conjunction. */
  lemma {:induction false} KeepKeep<T(!new)>(s: seq<T>, p: T -> bool, q: T -> bool, both: T -> bool)
    requires forall x :: x in s ==> both(x) == (p(x) && q(x))
    ensures Keep(Keep(s, p), q) == Keep(s, both)
  {
    if s != [] {
      KeepKeep(s[1..], p, q, both);
    }
  }

  /** Filtering by a predicate that holds of no element leaves nothing. */
  lemma {:induction false} KeepNone<T(!new)>(s: seq<T>, p: T -> bool)
    requires forall x :: x in s ==> !p(x)
    ensures Keep(s, p) == []
  {
    if s != [] {
      KeepNone(s[1..], p);
    }
  }

  /** A relation that holds between every earlier and later element still
      holds after filtering: filtering keeps order. */
  lemma {:induction false} KeepPairwise<T(!new)>(s: seq<T>, p: T -> bool, rel: (T, T) -> bool)
    requires forall i, j :: 0 <= i < j < |s| ==> rel(s[i], s[j])
    ensures forall i, j :: 0 <= i < j < |Keep(s, p)| ==> rel(Keep(s, p)[i], Keep(s, p)[j])
  {
    if s != [] {
      KeepPairwise(s[1..], p, rel);
      var rest := Keep(s[1..], p);
      if p(s[0]) {
        var r := [s[0]] + rest;
        forall i, j | 0 <= i < j < |r| ensures rel(r[i], r[j]) {
          if i == 0 {
            var k :| 0 <= k < |s[1..]| && s[1..][k] == r[j] by {
              assert r[j] == rest[j - 1];
              assert rest[j - 1] in rest;
            }
            assert rel(s[0], s[k + 1]);
          } else {
            assert r[i] == rest[i - 1] && r[j] == rest[j - 1];
          }
        }
      }
    }
  }

  /** Arithmetic sum; zero for the empty sequence. */
  function Total(xs: seq<real>): real
  {
    if xs == [] then 0.0 else xs[0] + Total(xs[1..])
  }

  /** SQL's SUM over a group: NULL when there is no non-NULL input. */
  function SqlSum(xs: seq<real>): Option<real>
  {
    if xs == [] then None else Some(Total(xs))
  }

  /** `CASE WHEN x IS NULL THEN 0 ELSE x END`. */
  function ZeroIfNull(x: Option<real>): real
  {
    x.GetOr(0.0)
  }

  /** The second components of a sequence of pairs. */
  function Amounts<K>(pairs: seq<(K, real)>): (r: seq<real>)
    ensures |r| == |pairs|
    ensures forall i :: 0 <= i < |pairs| ==> r[i] == pairs[i].1
  {
    if pairs == [] then [] else [pairs[0].1] + Amounts(pairs[1..])
  }

  /** The sum of the amounts paired with key `k`. */
  function SumFor<K(==)>(pairs: seq<(K, real)>, k: K): real
  {
    if pairs == [] then 0.0
    else (if pairs[0].0 == k then pairs[0].1 else 0.0) + SumFor(pairs[1..], k)
  }

  /** The sum, over a sequence of keys, of the per-key sums. */
  function SumOverKeys<K(==)>(keys: seq<K>, pairs: seq<(K, real)>): real
  {
    if keys == [] then 0.0 else SumFor(pairs, keys[0]) + SumOverKeys(keys[1..], pairs)
  }

  predicate NoDuplicates<T(==)>(s: seq<T>)
  {
    forall i, j :: 0 <= i < j < |s| ==> s[i] != s[j]
  }

  /** The distinct elements of `s`, in order of first appearance. */
  function Distinct<T(==,!new)>(s: seq<T>): (r: seq<T>)
    ensures NoDuplicates(r)
    ensures forall x :: x in r <==> x in s
  {
    if s == [] then []
    else
      var d := Distinct(s[..|s| - 1]);
      assert s == s[..|s| - 1] + [s[|s| - 1]];
      if s[|s| - 1] in d then d else d + [s[|s| - 1]]
  }

  /** A key that is not in `keys` contributes nothing to SumOverKeys. */
  lemma {:induction false} SumOverSingleAbsent<K>(keys: seq<K>, x: (K, real))
    requires x.0 !in keys
    ensures SumOverKeys(keys, [x]) == 0.0
  {
    if keys != [] {
      assert SumFor([x], keys[0]) == 0.0;
      SumOverSingleAbsent(keys[1..], x);
    }
  }

  /** A key that occurs exactly once in `keys` contributes its amount once. */
  lemma {:induction false} SumOverSingle<K>(keys: seq<K>, x: (K, real))
    requires NoDuplicates(keys) && x.0 in keys
    ensures SumOverKeys(keys, [x]) == x.1
  {
    assert [x][1..] == [];
    if keys[0] == x.0 {
      assert x.0 !in keys[1..] by {
        forall j | 0 <= j < |keys[1..]| ensures keys[1..][j] != x.0 {
          assert keys[1..][j] == keys[j + 1];
        }
      }
      SumOverSingleAbsent(keys[1..], x);
      assert SumFor([x], keys[0]) == x.1 + SumFor([], keys[0]);
    } else {
      assert NoDuplicates(keys[1..]) by {
        forall i, j | 0 <= i < j < |keys[1..]| ensures keys[1..][i] != keys[1..][j] {
          assert keys[1..][i] == keys[i + 1] && keys[1..][j] == keys[j + 1];
        }
      }
      assert SumFor([x], keys[0]) == 0.0 + SumFor([], keys[0]);
      SumOverSingle(keys[1..], x);
    }
  }

  /** SumOverKeys is additive in the first pair. */
  lemma {:induction false} SumOverCons<K>(keys: seq<K>, x: (K, real), rest: seq<(K, real)>)
    ensures SumOverKeys(keys, [x] + rest) == SumOverKeys(keys, [x]) + SumOverKeys(keys, rest)
  {
    if keys != [] {
      assert ([x] + rest)[1..] == rest;
      assert [x][1..] == [];
      assert SumFor([x] + rest, keys[0]) == SumFor([x], keys[0]) + SumFor(rest, keys[0]);
      SumOverCons(keys[1..], x, rest);
    }
  }

  lemma {:induction false} SumOverEmpty<K>(keys: seq<K>)
    ensures SumOverKeys(keys, []) == 0.0
  {
    if keys != [] {
      SumOverEmpty(keys[1..]);
    }
  }

  /** Grouping by key partitions the total: when every pair's key occurs
      exactly once in `keys`, the per-key sums add up to the grand total. */
  lemma {:induction false} GroupSumsPartitionTotal<K>(keys: seq<K>, pairs: seq<(K, real)>)
    requires NoDuplicates(keys)
    requires forall x :: x in pairs ==> x.0 in keys
    ensures SumOverKeys(keys, pairs) == Total(Amounts(pairs))
  {
    if pairs == [] {
      SumOverEmpty(keys);
    } else {
      var x, rest := pairs[0], pairs[1..];
      assert pairs == [x] + rest;
      SumOverCons(keys, x, rest);
      SumOverSingle(keys, x);
      GroupSumsPartitionTotal(keys, rest);
      assert Amounts(pairs) == [x.1] + Amounts(rest);
    }
  }

  /** The first components of a sequence of pairs. */
  function Firsts<K>(pairs: seq<(K, real)>): (r: seq<K>)
    ensures |r| == |pairs|
    ensures forall i :: 0 <= i < |pairs| ==> r[i] == pairs[i].0
  {
    if pairs == [] then [] else [pairs[0].0] + Firsts(pairs[1..])
  }

  /** `SUM(amount)` over the pairs of group `k`, NULL read as 0 (the
      `CASE WHEN SUM(..) IS NULL THEN 0 ELSE SUM(..) END` of the queries). */
  function GroupSum<K(==,!new)>(pairs: seq<(K, real)>, k: K): real
  {
    ZeroIfNull(SqlSum(Amounts(Keep(pairs, (x: (K, real)) => x.0 == k))))
  }

  lemma {:induction false} TotalKeepIsSumFor<K(!new)>(pairs: seq<(K, real)>, k: K)
    ensures Total(Amounts(Keep(pairs, (x: (K, real)) => x.0 == k))) == SumFor(pairs, k)
  {
    if pairs != [] {
      var p := (x: (K, real)) => x.0 == k;
      var rest := Keep(pairs[1..], p);
      TotalKeepIsSumFor(pairs[1..], k);
      if pairs[0].0 == k {
        assert Keep(pairs, p) == [pairs[0]] + rest;
        assert Amounts([pairs[0]] + rest) == [pairs[0].1] + Amounts(rest);
      } else {
        assert Keep(pairs, p) == rest;
      }
    }
  }

  /** The NULL-to-zero group sum is the plain per-key sum: 0 for a key with
      no pairs, otherwise the sum of its amounts. */
  lemma GroupSumIsSumFor<K(!new)>(pairs: seq<(K, real)>, k: K)
    ensures GroupSum(pairs, k) == SumFor(pairs, k)
  {
    TotalKeepIsSumFor(pairs, k);
  }

}
