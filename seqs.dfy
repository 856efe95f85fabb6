/**
 * Facts about the key order a Python dict keeps: keys in the order they were
 * inserted, the values listed in that order, and a key removed by `pop`.
 */
module Seqs {

  /** Strictly ascending, hence free of duplicates. */
  ghost predicate Increasing(s: seq<int>)
  {
    forall i, j :: 0 <= i < j < |s| ==> s[i] < s[j]
  }

  /** The integers `lo, lo + 1, ..., hi - 1`. */
  function Range(lo: int, hi: int): (r: seq<int>)
    ensures |r| == if lo <= hi then hi - lo else 0
    ensures forall i :: 0 <= i < |r| ==> r[i] == lo + i
    decreases hi - lo
  {
    if lo >= hi then [] else [lo] + Range(lo + 1, hi)
  }

  /** A sequence that counts up by one from `lo` is a range. */
  lemma CountingIsRange(s: seq<int>, lo: int)
    requires forall i :: 0 <= i < |s| ==> s[i] == lo + i
    ensures s == Range(lo, lo + |s|)
  {
  }

  lemma ConsIndex<T>(x: T, rest: seq<T>, i: int)
    requires 1 <= i <= |rest|
    ensures ([x] + rest)[i] == rest[i - 1]
  {
  }

  /**
   * `s` with `x` taken out and the rest in the same order: what `pop` does to
   * the key order of a dict.
   */
  function Without(s: seq<int>, x: int): (r: seq<int>)
    ensures forall y :: y in r <==> y in s && y != x
    ensures x !in s ==> r == s
    ensures Increasing(s) ==> Increasing(r)
    ensures Increasing(s) && x in s ==> |r| == |s| - 1
  {
    if s == [] then []
    else if s[0] == x then
      assert Increasing(s) ==> x !in s[1..];
      Without(s[1..], x)
    else
      var rest := Without(s[1..], x);
      assert Increasing(s) ==> forall j :: 0 <= j < |rest| ==> s[0] < rest[j] by {
        if Increasing(s) {
          forall j | 0 <= j < |rest| ensures s[0] < rest[j] {
            assert rest[j] in s[1..];
          }
        }
      }
      [s[0]] + rest
  }

  /** The values stored under `keys`, in the order of `keys`: `list(d.values())`. */
  function ValuesAt<V>(m: map<int, V>, keys: seq<int>): (r: seq<V>)
    requires forall i :: 0 <= i < |keys| ==> keys[i] in m
    ensures |r| == |keys|
    ensures forall i :: 0 <= i < |keys| ==> r[i] == m[keys[i]]
  {
    if keys == [] then [] else [m[keys[0]]] + ValuesAt(m, keys[1..])
  }

  /** A duplicate-free sequence has as many distinct elements as positions. */
  lemma {:induction false} IncreasingCard(s: seq<int>)
    requires Increasing(s)
    ensures |set y | y in s| == |s|
  {
    if s != [] {
      IncreasingCard(s[1..]);
      assert (set y | y in s) == {s[0]} + (set y | y in s[1..]);
      assert s[0] !in s[1..];
    }
  }

  /** Appending a value above every element keeps a sequence ascending. */
  lemma AppendIncreasing(s: seq<int>, x: int)
    requires Increasing(s)
    requires forall y :: y in s ==> y < x
    ensures Increasing(s + [x])
  {
    forall i, j | 0 <= i < j < |s| + 1 ensures (s + [x])[i] < (s + [x])[j] {
      if j == |s| {
        assert s[i] in s;
      }
    }
  }
}
