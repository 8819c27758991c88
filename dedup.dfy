/**
 * `remove_duplicated_transactions` of interactive_expenses_report.py: drop every
 * transaction whose key was already seen, keeping the first one and the order.
 */
module Dedup {
  import opened Transactions

  /**
   * The key the source builds: date, description, value and the description a second
   * time. The category is not part of it.
   */
  datatype DuplicateKey = DuplicateKey(date: Date, description: string, value: real, repeatedDescription: string)

  function KeyOf(t: Transaction): DuplicateKey {
    DuplicateKey(t.date, t.description, t.value, t.description)
  }

  function KeySet(ts: seq<Transaction>): set<DuplicateKey> {
    set t | t in ts :: KeyOf(t)
  }

  /** No two transactions of `ts` share a key. */
  ghost predicate DistinctKeys(ts: seq<Transaction>) {
    forall i, j :: 0 <= i < j < |ts| ==> KeyOf(ts[i]) != KeyOf(ts[j])
  }

  /** The list the loop has built after reading `ts` from left to right. */
  function Unique(ts: seq<Transaction>): seq<Transaction> {
    if ts == [] then []
    else
      var prev := Unique(ts[..|ts| - 1]);
      var t := ts[|ts| - 1];
      if KeyOf(t) in KeySet(prev) then prev else prev + [t]
  }

  method RemoveDuplicatedTransactions(ts: seq<Transaction>) returns (unique: seq<Transaction>)
    ensures unique == Unique(ts)
    ensures DistinctKeys(unique)
    ensures KeySet(unique) == KeySet(ts)
    ensures IsSubsequence(unique, ts)
  {
    var seen: set<DuplicateKey> := {};
    unique := [];
    var i := 0;
    while i < |ts|
      invariant 0 <= i <= |ts|
      invariant unique == Unique(ts[..i])
      invariant seen == KeySet(unique)
    {
      assert ts[..i + 1][..i] == ts[..i];
      var key := KeyOf(ts[i]);
      if key !in seen {
        unique := unique + [ts[i]];
        seen := seen + {key};
      }
      i := i + 1;
    }
    assert ts[..i] == ts;
    UniqueDistinct(ts);
    UniqueKeySet(ts);
    UniqueIsSubsequence(ts);
  }

  // ---------------------------------------------------------------------------
  // An independent description: the transactions whose key does not occur earlier

  /** No transaction before position `i` has the key of `ts[i]`. */
  ghost predicate IsFirstOccurrence(ts: seq<Transaction>, i: int)
    requires 0 <= i < |ts|
  {
    forall j :: 0 <= j < i ==> KeyOf(ts[j]) != KeyOf(ts[i])
  }

  /** The first occurrences among the first `n` transactions, in their original order. */
  ghost function FirstOccurrences(ts: seq<Transaction>, n: nat): seq<Transaction>
    requires n <= |ts|
  {
    if n == 0 then []
    else FirstOccurrences(ts, n - 1) + (if IsFirstOccurrence(ts, n - 1) then [ts[n - 1]] else [])
  }

  /** `a` is `b` with some elements deleted. */
  ghost predicate IsSubsequence(a: seq<Transaction>, b: seq<Transaction>)
    decreases |b|
  {
    if a == [] then true
    else if b == [] then false
    else if a[|a| - 1] == b[|b| - 1] then IsSubsequence(a[..|a| - 1], b[..|b| - 1])
    else IsSubsequence(a, b[..|b| - 1])
  }

  lemma {:induction false} UniqueKeySet(ts: seq<Transaction>)
    ensures KeySet(Unique(ts)) == KeySet(ts)
  {
    if ts != [] {
      var init := ts[..|ts| - 1];
      UniqueKeySet(init);
      assert ts == init + [ts[|ts| - 1]];
      assert KeySet(ts) == KeySet(init) + {KeyOf(ts[|ts| - 1])};
    }
  }

  lemma {:induction false} UniqueDistinct(ts: seq<Transaction>)
    ensures DistinctKeys(Unique(ts))
  {
    if ts != [] {
      UniqueDistinct(ts[..|ts| - 1]);
      var prev := Unique(ts[..|ts| - 1]);
      var t := ts[|ts| - 1];
      if KeyOf(t) !in KeySet(prev) {
        var u := prev + [t];
        forall i, j | 0 <= i < j < |u| ensures KeyOf(u[i]) != KeyOf(u[j]) {
          if j == |prev| {
            assert u[i] in prev;
          }
        }
      }
    }
  }

  /** The key of `ts[i]` occurs before position `i` exactly when it is not a first occurrence. */
  lemma KeySeenBefore(ts: seq<Transaction>, i: nat)
    requires i < |ts|
    ensures KeyOf(ts[i]) in KeySet(ts[..i]) <==> !IsFirstOccurrence(ts, i)
  {
    if !IsFirstOccurrence(ts, i) {
      var j :| 0 <= j < i && KeyOf(ts[j]) == KeyOf(ts[i]);
      assert ts[..i][j] == ts[j];
    } else {
      forall t | t in ts[..i] ensures KeyOf(t) != KeyOf(ts[i]) {
        var j :| 0 <= j < i && ts[..i][j] == t;
      }
    }
  }

  /** The loop keeps exactly the first occurrence of each key, in input order. */
  lemma {:induction false} UniqueIsFirstOccurrences(ts: seq<Transaction>, n: nat)
    requires n <= |ts|
    ensures Unique(ts[..n]) == FirstOccurrences(ts, n)
  {
    if n > 0 {
      UniqueIsFirstOccurrences(ts, n - 1);
      var init := ts[..n - 1];
      assert ts[..n][..n - 1] == init;
      assert ts[..n][n - 1] == ts[n - 1];
      UniqueKeySet(init);
      KeySeenBefore(ts, n - 1);
      var prev := Unique(init);
      assert Unique(ts[..n]) == if KeyOf(ts[n - 1]) in KeySet(prev) then prev else prev + [ts[n - 1]];
    }
  }

  lemma {:induction false} UniqueIsSubsequence(ts: seq<Transaction>)
    ensures IsSubsequence(Unique(ts), ts)
  {
    if ts != [] {
      var init := ts[..|ts| - 1];
      UniqueIsSubsequence(init);
      var prev := Unique(init);
      if KeyOf(ts[|ts| - 1]) in KeySet(prev) {
        SubsequenceExtend(prev, init, ts[|ts| - 1]);
      } else {
        assert (prev + [ts[|ts| - 1]])[..|prev|] == prev;
      }
    }
  }

  lemma {:induction false} SubsequenceExtend(a: seq<Transaction>, b: seq<Transaction>, x: Transaction)
    requires IsSubsequence(a, b)
    ensures IsSubsequence(a, b + [x])
    decreases |b|, 1
  {
    var b' := b + [x];
    assert b'[..|b'| - 1] == b;
    if a != [] && a[|a| - 1] == x {
      SubsequenceWeaken(a, b);
    }
  }

  /** Dropping the last element of `a` keeps it a subsequence. */
  lemma {:induction false} SubsequenceWeaken(a: seq<Transaction>, b: seq<Transaction>)
    requires a != [] && IsSubsequence(a, b)
    ensures IsSubsequence(a[..|a| - 1], b)
    decreases |b|, 0
  {
    var a' := a[..|a| - 1];
    if a' != [] {
      if a[|a| - 1] == b[|b| - 1] {
        SubsequenceExtend(a', b[..|b| - 1], b[|b| - 1]);
        assert b[..|b| - 1] + [b[|b| - 1]] == b;
      } else {
        SubsequenceWeaken(a, b[..|b| - 1]);
        SubsequenceExtend(a', b[..|b| - 1], b[|b| - 1]);
        assert b[..|b| - 1] + [b[|b| - 1]] == b;
      }
    }
  }

  lemma {:induction false} SubsequenceLength(a: seq<Transaction>, b: seq<Transaction>)
    requires IsSubsequence(a, b)
    ensures |a| <= |b|
    decreases |b|
  {
    if a != [] {
      if a[|a| - 1] == b[|b| - 1] {
        SubsequenceLength(a[..|a| - 1], b[..|b| - 1]);
      } else {
        SubsequenceLength(a, b[..|b| - 1]);
      }
    }
  }

  /** Removing duplicates never lengthens the list. */
  lemma UniqueNoLonger(ts: seq<Transaction>)
    ensures |Unique(ts)| <= |ts|
  {
    UniqueIsSubsequence(ts);
    SubsequenceLength(Unique(ts), ts);
  }

  /** A list without repeated keys is left as it is. */
  lemma {:induction false} UniqueOfDistinct(ts: seq<Transaction>)
    requires DistinctKeys(ts)
    ensures Unique(ts) == ts
  {
    if ts != [] {
      var init := ts[..|ts| - 1];
      UniqueOfDistinct(init);
      UniqueKeySet(init);
      assert KeyOf(ts[|ts| - 1]) !in KeySet(init) by {
        forall t | t in init ensures KeyOf(t) != KeyOf(ts[|ts| - 1]) {
          var j :| 0 <= j < |init| && init[j] == t;
          assert ts[j] == t;
        }
      }
      assert init + [ts[|ts| - 1]] == ts;
    }
  }

  /** Removing duplicates twice is the same as removing them once. */
  lemma UniqueIdempotent(ts: seq<Transaction>)
    ensures Unique(Unique(ts)) == Unique(ts)
  {
    UniqueDistinct(ts);
    UniqueOfDistinct(Unique(ts));
  }

  /** Two transactions that differ only in their category count as duplicates. */
  lemma CategoryIgnored(t: Transaction, category: string)
    ensures Unique([t, t.(category := category)]) == [t]
  {
    var ts := [t, t.(category := category)];
    assert ts[..1] == [t];
    assert [t][..0] == [];
    assert Unique([t]) == [t];
    assert KeySet([t]) == {KeyOf(t)};
    assert KeyOf(ts[1]) == KeyOf(t);
  }
}
