/** Queries with a row limit: which rows they may return, and what is left when a sweep has dealt with them. */
module Batches {
  /** What a query for `matching` rows with a row limit may return. */
  ghost predicate IsBatch<T>(batch: seq<T>, matching: set<T>, limit: nat) {
    && (forall i :: 0 <= i < |batch| ==> batch[i] in matching)
    && (forall i, j :: 0 <= i < j < |batch| ==> batch[i] != batch[j])
    && |batch| == if |matching| <= limit then |matching| else limit
  }

  /** Some of the matching rows, at most `limit`, in whatever order the database has them. */
  method Select<T(==)>(matching: set<T>, limit: nat) returns (batch: seq<T>)
    ensures IsBatch(batch, matching, limit)
  {
    batch := [];
    var rest := matching;
    while rest != {} && |batch| < limit
      invariant rest <= matching && |batch| + |rest| == |matching| && |batch| <= limit
      invariant forall i :: 0 <= i < |batch| ==> batch[i] in matching && batch[i] !in rest
      invariant forall i, j :: 0 <= i < j < |batch| ==> batch[i] != batch[j]
      decreases rest
    {
      var id :| id in rest;
      batch := batch + [id];
      rest := rest - {id};
    }
  }

  function Members<T(==)>(batch: seq<T>): set<T> { set x | x in batch }

  lemma {:induction false} BatchSize<T>(batch: seq<T>)
    requires forall i, j :: 0 <= i < j < |batch| ==> batch[i] != batch[j]
    ensures |Members(batch)| == |batch|
  {
    if batch != [] {
      var front, last := batch[..|batch|-1], batch[|batch|-1];
      BatchSize(front);
      assert batch == front + [last];
      assert last !in front;
      assert Members(batch) == Members(front) + {last};
    }
  }

  /** Dealing with a batch leaves max(0, n - limit) of n matching rows. */
  lemma WhatIsLeft<T>(batch: seq<T>, matching: set<T>, limit: nat)
    requires IsBatch(batch, matching, limit)
    ensures |matching - Members(batch)| == if |matching| <= limit then 0 else |matching| - limit
  {
    BatchSize(batch);
    assert Members(batch) <= matching;
  }
}
