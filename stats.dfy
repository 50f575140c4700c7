/** The statistics table of the collector: a map from metric name to an
    accumulated value. A file's operator results are added in with
    `add_or_insert`, and the table of a subdirectory or a dependency is
    added into its parent's with `+=`. */
module Stats {

  type Stats = map<string, real>

  /** The value recorded for a metric, 0 when there is none. */
  function Get(s: Stats, k: string): real
  {
    if k in s then s[k] else 0.0
  }

  /** `add_or_insert`: adds `v` to the value of `name`, creating the key
      with value `v` when it is absent. */
  function AddOrInsert(s: Stats, name: string, v: real): (r: Stats)
    ensures r.Keys == s.Keys + {name}
    ensures r[name] == Get(s, name) + v
    ensures forall k :: k in s && k != name ==> r[k] == s[k]
  {
    if name in s then s[name := s[name] + v] else s[name := v]
  }

  /** `+=`: the key-wise sum of two tables. */
  function Combine(a: Stats, b: Stats): (r: Stats)
    ensures r.Keys == a.Keys + b.Keys
    ensures forall k :: Get(r, k) == Get(a, k) + Get(b, k)
  {
    map k | k in a.Keys + b.Keys :: Get(a, k) + Get(b, k)
  }

  /** Two tables are equal when they have the same keys and values. */
  lemma StatsEq(a: Stats, b: Stats)
    requires a.Keys == b.Keys
    requires forall k :: Get(a, k) == Get(b, k)
    ensures a == b
  {
    forall k | k in a.Keys
      ensures a[k] == b[k]
    {
      assert Get(a, k) == Get(b, k);
    }
  }

  lemma CombineCommutative(a: Stats, b: Stats)
    ensures Combine(a, b) == Combine(b, a)
  {
    StatsEq(Combine(a, b), Combine(b, a));
  }

  lemma CombineAssociative(a: Stats, b: Stats, c: Stats)
    ensures Combine(Combine(a, b), c) == Combine(a, Combine(b, c))
  {
    StatsEq(Combine(Combine(a, b), c), Combine(a, Combine(b, c)));
  }

  /** The empty table is the identity of `+=`. */
  lemma CombineIdentity(a: Stats)
    ensures Combine(a, map[]) == a && Combine(map[], a) == a
  {
    StatsEq(Combine(a, map[]), a);
    StatsEq(Combine(map[], a), a);
  }

  /** `add_or_insert` is `+=` with a table of one entry. */
  lemma AddOrInsertIsCombine(s: Stats, name: string, v: real)
    ensures AddOrInsert(s, name, v) == Combine(s, map[name := v])
  {
    StatsEq(AddOrInsert(s, name, v), Combine(s, map[name := v]));
  }
}
