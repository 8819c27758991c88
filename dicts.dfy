/**
 * Python's insertion-ordered dict, the sums the aggregations take over dict values,
 * and the stable descending sort the source applies with `sorted(..., reverse=True)`.
 */
module OrderedDicts {

  ghost predicate Distinct<K(!new)>(s: seq<K>) {
    forall i, j :: 0 <= i < j < |s| ==> s[i] != s[j]
  }

  /** A dict: its entries and the order in which their keys were first inserted. */
  datatype Dict<K(!new), V> = Dict(keys: seq<K>, at: map<K, V>) {

    ghost predicate Valid() {
      Distinct(keys) && forall k :: k in at <==> k in keys
    }

    /** `d[k] = v`: a new key goes to the end of the order, an existing key keeps its place. */
    function Put(k: K, v: V): (d: Dict<K, V>)
      ensures Valid() ==> d.Valid()
      ensures d.at == at[k := v]
      ensures d.keys == if k in at then keys else keys + [k]
    {
      if k in at then Dict(keys, at[k := v]) else Dict(keys + [k], at[k := v])
    }
  }

  function EmptyDict<K(!new), V>(): (d: Dict<K, V>)
    ensures d.Valid() && d.keys == [] && d.at == map[]
  {
    Dict([], map[])
  }

  // ---------------------------------------------------------------------------
  // Sums

  /** Every key of `s` has an entry in `m`. */
  ghost predicate AllIn<K(!new)>(s: seq<K>, m: map<K, real>) {
    forall k :: k in s ==> k in m
  }

  /** The sum of `m[k]` for the keys `ks`, in that order. */
  function SumOf<K(!new)>(ks: seq<K>, m: map<K, real>): real
    requires AllIn(ks, m)
  {
    if ks == [] then 0.0 else SumOf(ks[..|ks| - 1], m) + m[ks[|ks| - 1]]
  }

  /** `sum(d.values())`. */
  function Total<K(!new)>(d: Dict<K, real>): real
    requires d.Valid()
  {
    SumOf(d.keys, d.at)
  }

  lemma {:induction false} SumOfAppend<K(!new)>(a: seq<K>, b: seq<K>, m: map<K, real>)
    requires AllIn(a, m)
    requires AllIn(b, m)
    ensures SumOf(a + b, m) == SumOf(a, m) + SumOf(b, m)
    decreases |b|
  {
    if b != [] {
      assert (a + b)[..|a + b| - 1] == a + b[..|b| - 1];
      SumOfAppend(a, b[..|b| - 1], m);
    } else {
      assert a + b == a;
    }
  }

  /** Taking out the element at position `p` takes its value out of the sum. */
  lemma {:induction false} SumOfRemove<K(!new)>(b: seq<K>, p: nat, m: map<K, real>)
    requires p < |b|
    requires AllIn(b, m)
    ensures SumOf(b, m) == SumOf(b[..p] + b[p + 1..], m) + m[b[p]]
  {
    SumOfAppend(b[..p], b[p + 1..], m);
    assert b == b[..p] + [b[p]] + b[p + 1..];
    SumOfAppend(b[..p] + [b[p]], b[p + 1..], m);
    assert (b[..p] + [b[p]])[..p] == b[..p];
  }

  /** The order of the keys does not change a sum: two listings of one key set have the same sum. */
  lemma {:induction false} SumOfPermutation<K(!new)>(a: seq<K>, b: seq<K>, m: map<K, real>)
    requires Distinct(a) && Distinct(b)
    requires forall k :: k in a <==> k in b
    requires AllIn(a, m)
    ensures SumOf(a, m) == SumOf(b, m)
    decreases |a|
  {
    if a != [] {
      var x := a[|a| - 1];
      assert x in b;
      var p :| 0 <= p < |b| && b[p] == x;
      var b' := b[..p] + b[p + 1..];
      var a' := a[..|a| - 1];
      forall k ensures k in a' <==> k in b' {
        if k in a' {
          var i :| 0 <= i < |a'| && a'[i] == k;
          assert a[i] == k;
          assert k != x;
          assert k in b;
          var j :| 0 <= j < |b| && b[j] == k;
          assert j != p;
          if j < p { assert b'[j] == k; } else { assert b'[j - 1] == k; }
        }
        if k in b' {
          var j :| 0 <= j < |b'| && b'[j] == k;
          var jb := if j < p then j else j + 1;
          assert b[jb] == k;
          assert k != x;
          assert k in a;
          var i :| 0 <= i < |a| && a[i] == k;
          assert i != |a| - 1;
          assert a'[i] == k;
        }
      }
      assert Distinct(b') by {
        forall i, j | 0 <= i < j < |b'| ensures b'[i] != b'[j] {
          var bi := if i < p then i else i + 1;
          var bj := if j < p then j else j + 1;
          assert b'[i] == b[bi] && b'[j] == b[bj];
        }
      }
      SumOfPermutation(a', b', m);
      SumOfRemove(b, p, m);
    } else {
      HeadIsMember(b);
    }
  }

  lemma HeadIsMember<K>(s: seq<K>)
    ensures s != [] ==> s[0] in s
  {
  }

  /** Sums of two maps agree when the maps agree on the keys summed. */
  lemma {:induction false} SumOfPointwise<K(!new)>(ks: seq<K>, m1: map<K, real>, m2: map<K, real>)
    requires forall i :: 0 <= i < |ks| ==> ks[i] in m1 && ks[i] in m2 && m1[ks[i]] == m2[ks[i]]
    ensures SumOf(ks, m1) == SumOf(ks, m2)
  {
    if ks != [] {
      SumOfPointwise(ks[..|ks| - 1], m1, m2);
    }
  }

  /** Entry-wise differences of two maps sum to the difference of their sums. */
  lemma {:induction false} SumOfDifference<K(!new)>(ks: seq<K>, a: map<K, real>, b: map<K, real>, c: map<K, real>)
    requires AllIn(ks, a) && AllIn(ks, b) && AllIn(ks, c)
    requires forall k :: k in ks ==> c[k] == a[k] - b[k]
    ensures SumOf(ks, c) == SumOf(ks, a) - SumOf(ks, b)
  {
    if ks != [] {
      SumOfDifference(ks[..|ks| - 1], a, b, c);
    }
  }

  /** A sum of |ks| values each between `lo` and `hi` lies between |ks| * lo and |ks| * hi. */
  lemma {:induction false} SumOfBounds<K(!new)>(ks: seq<K>, m: map<K, real>, lo: real, hi: real)
    requires AllIn(ks, m)
    requires forall k :: k in ks ==> lo <= m[k] <= hi
    ensures |ks| as real * lo <= SumOf(ks, m) <= |ks| as real * hi
  {
    if ks != [] {
      SumOfBounds(ks[..|ks| - 1], m, lo, hi);
    }
  }

  // ---------------------------------------------------------------------------
  // Stable ranking by descending score

  /** Every key of `s` has a score. */
  ghost predicate Scored<K(!new)>(s: seq<K>, score: map<K, real>) {
    forall k :: k in s ==> k in score
  }

  /**
   * `sorted(ks, key=score, reverse=True)`: Python's sort is stable also in reverse, so
   * keys of equal score keep their input order. Written as an insertion sort.
   */
  function Rank<K(!new)>(ks: seq<K>, score: map<K, real>): (r: seq<K>)
    requires AllIn(ks, score)
    ensures multiset(r) == multiset(ks)
    ensures forall k :: k in r <==> k in ks
  {
    if ks == [] then []
    else
      assert ks == ks[..|ks| - 1] + [ks[|ks| - 1]];
      InsertByScore(Rank(ks[..|ks| - 1], score), ks[|ks| - 1], score)
  }

  /** Places `x` after every element of `s` whose score is at least its own. */
  function InsertByScore<K(!new)>(s: seq<K>, x: K, score: map<K, real>): (r: seq<K>)
    requires x in score && AllIn(s, score)
    ensures multiset(r) == multiset(s) + multiset{x}
    ensures forall k :: k in r <==> k in s || k == x
  {
    if s == [] then [x]
    else if score[s[|s| - 1]] >= score[x] then s + [x]
    else
      assert s == s[..|s| - 1] + [s[|s| - 1]];
      InsertByScore(s[..|s| - 1], x, score) + [s[|s| - 1]]
  }

  ghost predicate NonIncreasing<K(!new)>(s: seq<K>, score: map<K, real>)
    requires AllIn(s, score)
  {
    forall i, j :: 0 <= i < j < |s| ==> score[s[i]] >= score[s[j]]
  }

  /** The keys of `s` whose score is `v`, in their order in `s`. */
  function WithScore<K(!new)>(s: seq<K>, score: map<K, real>, v: real): seq<K>
    requires AllIn(s, score)
  {
    if s == [] then []
    else WithScore(s[..|s| - 1], score, v) + (if score[s[|s| - 1]] == v then [s[|s| - 1]] else [])
  }

  lemma {:induction false} InsertKeepsOrder<K(!new)>(s: seq<K>, x: K, score: map<K, real>)
    requires x in score && AllIn(s, score)
    requires NonIncreasing(s, score)
    ensures NonIncreasing(InsertByScore(s, x, score), score)
  {
    if s != [] && score[s[|s| - 1]] < score[x] {
      var s' := s[..|s| - 1];
      var y := s[|s| - 1];
      InsertKeepsOrder(s', x, score);
      var r' := InsertByScore(s', x, score);
      var r := r' + [y];
      forall i, j | 0 <= i < j < |r| ensures score[r[i]] >= score[r[j]] {
        if j == |r| - 1 {
          var z := r[i];
          assert z in r';
          if z != x {
            var k :| 0 <= k < |s'| && s'[k] == z;
            assert s[k] == z;
          }
        }
      }
    }
  }

  /** Appending one key adds it to the keys of score `v` exactly when its score is `v`. */
  lemma WithScoreSnoc<K(!new)>(s: seq<K>, y: K, score: map<K, real>, v: real)
    requires y in score && AllIn(s, score)
    ensures WithScore(s + [y], score, v) == WithScore(s, score, v) + (if score[y] == v then [y] else [])
  {
    assert (s + [y])[..|s|] == s;
  }

  lemma {:induction false} InsertKeepsTies<K(!new)>(s: seq<K>, x: K, score: map<K, real>, v: real)
    requires x in score && AllIn(s, score)
    ensures WithScore(InsertByScore(s, x, score), score, v)
         == WithScore(s, score, v) + (if score[x] == v then [x] else [])
  {
    if s == [] {
      WithScoreSnoc([], x, score, v);
    } else if score[s[|s| - 1]] >= score[x] {
      WithScoreSnoc(s, x, score, v);
    } else {
      var s' := s[..|s| - 1];
      var y := s[|s| - 1];
      assert s == s' + [y];
      InsertKeepsTies(s', x, score, v);
      var r' := InsertByScore(s', x, score);
      assert InsertByScore(s, x, score) == r' + [y];
      WithScoreSnoc(r', y, score, v);
      WithScoreSnoc(s', y, score, v);
      var tieX: seq<K> := if score[x] == v then [x] else [];
      var tieY: seq<K> := if score[y] == v then [y] else [];
      assert tieX == [] || tieY == [];
    }
  }

  /** The ranking lists the keys from the highest score to the lowest. */
  lemma {:induction false} RankNonIncreasing<K(!new)>(ks: seq<K>, score: map<K, real>)
    requires AllIn(ks, score)
    ensures NonIncreasing(Rank(ks, score), score)
  {
    if ks != [] {
      RankNonIncreasing(ks[..|ks| - 1], score);
      InsertKeepsOrder(Rank(ks[..|ks| - 1], score), ks[|ks| - 1], score);
    }
  }

  /** The ranking is stable: for every score, the keys with that score keep their input order. */
  lemma {:induction false} RankStable<K(!new)>(ks: seq<K>, score: map<K, real>, v: real)
    requires AllIn(ks, score)
    ensures WithScore(Rank(ks, score), score, v) == WithScore(ks, score, v)
  {
    if ks != [] {
      var init := ks[..|ks| - 1];
      RankStable(init, score, v);
      InsertKeepsTies(Rank(init, score), ks[|ks| - 1], score, v);
    }
  }

  /** A ranking of distinct keys lists each of them exactly once. */
  lemma RankPermutes<K(!new)>(ks: seq<K>, score: map<K, real>)
    requires AllIn(ks, score)
    requires Distinct(ks)
    ensures |Rank(ks, score)| == |ks|
    ensures Distinct(Rank(ks, score))
  {
    var r := Rank(ks, score);
    assert |r| == |multiset(r)| == |multiset(ks)| == |ks|;
    DistinctByMultiset(ks, r);
  }

  lemma {:induction false} DistinctCount<K(!new)>(s: seq<K>, k: K)
    requires Distinct(s)
    ensures multiset(s)[k] <= 1
  {
    if s != [] {
      var s' := s[..|s| - 1];
      assert s == s' + [s[|s| - 1]];
      DistinctCount(s', k);
      if s[|s| - 1] == k {
        assert k !in s';
      }
    }
  }

  lemma DistinctByMultiset<K(!new)>(a: seq<K>, b: seq<K>)
    requires Distinct(a) && multiset(a) == multiset(b)
    ensures Distinct(b)
  {
    forall i, j | 0 <= i < j < |b| ensures b[i] != b[j] {
      DistinctCount(a, b[i]);
      assert b == b[..i] + [b[i]] + b[i + 1..j] + [b[j]] + b[j + 1..];
    }
  }
}
