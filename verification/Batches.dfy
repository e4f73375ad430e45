/** Bounded queries: the first `limit` rows that are due, in the order of a sort column. */
module Batches {

  /** `due` maps the key of every due row to its sort column. */
  ghost predicate IsBatch(due: map<string, int>, limit: nat, batch: seq<string>) {
    && |batch| <= limit
    && (forall i, j :: 0 <= i < j < |batch| ==> batch[i] != batch[j])
    && (forall k :: k in batch ==> k in due)
    && (forall i, j :: 0 <= i < j < |batch| ==> due[batch[i]] <= due[batch[j]])
    && (forall k :: k in due && k !in batch ==> |batch| == limit && forall b :: b in batch ==> due[b] <= due[k])
  }

  function Elements(batch: seq<string>): set<string> {
    set k | k in batch
  }

  lemma {:induction false} ElementsSize(batch: seq<string>)
    requires forall i, j :: 0 <= i < j < |batch| ==> batch[i] != batch[j]
    ensures |Elements(batch)| == |batch|
  {
    if batch != [] {
      var n := |batch| - 1;
      ElementsSize(batch[..n]);
      assert batch == batch[..n] + [batch[n]];
      assert Elements(batch) == Elements(batch[..n]) + {batch[n]};
      assert batch[n] !in Elements(batch[..n]);
    }
  }

  function Minus(n: nat, m: nat): nat {
    if n < m then 0 else n - m
  }

  /** A batch takes `limit` rows out of the due ones, or all of them. */
  lemma BatchShrinks(due: map<string, int>, limit: nat, batch: seq<string>)
    requires IsBatch(due, limit, batch)
    ensures |due.Keys - Elements(batch)| == Minus(|due|, limit)
  {
    ElementsSize(batch);
    assert Elements(batch) <= due.Keys;
    assert due.Keys == (due.Keys - Elements(batch)) + Elements(batch);
    if |batch| < limit {
      assert due.Keys - Elements(batch) == {};
    }
  }

  lemma {:induction false} LeastExists(due: map<string, int>, keys: set<string>, x: string) returns (m: string)
    requires x in keys && keys <= due.Keys
    ensures m in keys && forall k :: k in keys ==> due[m] <= due[k]
    decreases keys
  {
    if y :| y in keys && due[y] < due[x] {
      m := LeastExists(due, keys - {x}, y);
      forall k | k in keys ensures due[m] <= due[k] {
        if k != x { assert k in keys - {x}; }
      }
    } else {
      m := x;
    }
  }

  /** The query has an answer whatever is due. */
  lemma {:induction false} BatchExists(due: map<string, int>, limit: nat) returns (batch: seq<string>)
    ensures IsBatch(due, limit, batch)
    decreases limit
  {
    if x :| limit > 0 && x in due {
      var m := LeastExists(due, due.Keys, x);
      var rest := BatchExists(due - {m}, limit - 1);
      batch := [m] + rest;
      TakesLeast(due, limit, m, rest);
    } else {
      batch := [];
    }
  }

  lemma TakesLeast(due: map<string, int>, limit: nat, m: string, rest: seq<string>)
    requires limit > 0 && m in due && (forall k :: k in due ==> due[m] <= due[k]) && IsBatch(due - {m}, limit - 1, rest)
    ensures IsBatch(due, limit, [m] + rest)
  {
    var batch, others := [m] + rest, due - {m};
    forall i | 0 <= i < |rest| ensures rest[i] in due && rest[i] != m && due[rest[i]] == others[rest[i]] {
      assert rest[i] in others;
    }
    forall i, j | 0 <= i < j < |batch| ensures batch[i] != batch[j] && due[batch[i]] <= due[batch[j]] {
      LeastComesFirst(due, m, rest, i, j);
    }
    forall k | k in due && k !in batch ensures |batch| == limit && forall b :: b in batch ==> due[b] <= due[k] {
      LeftOutIsLater(due, limit, m, rest, k);
    }
  }

  lemma LeastComesFirst(due: map<string, int>, m: string, rest: seq<string>, i: nat, j: nat)
    requires m in due && forall k :: k in due ==> due[m] <= due[k]
    requires forall a :: 0 <= a < |rest| ==> rest[a] in due && rest[a] != m
    requires forall a, b :: 0 <= a < b < |rest| ==> rest[a] != rest[b] && due[rest[a]] <= due[rest[b]]
    requires i < j <= |rest|
    ensures ([m] + rest)[i] != ([m] + rest)[j] && due[([m] + rest)[i]] <= due[([m] + rest)[j]]
  {
    assert ([m] + rest)[j] == rest[j - 1];
    if i > 0 { assert ([m] + rest)[i] == rest[i - 1]; }
  }

  lemma LeftOutIsLater(due: map<string, int>, limit: nat, m: string, rest: seq<string>, k: string)
    requires limit > 0 && m in due && k in due && due[m] <= due[k]
    requires IsBatch(due - {m}, limit - 1, rest) && k != m && k !in rest
    ensures |rest| == limit - 1 && forall b :: b in [m] + rest ==> b in due && due[b] <= due[k]
  {
    assert k in due - {m};
    forall b | b in [m] + rest ensures b in due && due[b] <= due[k] {
      if b != m { assert b in rest && b in due - {m} && (due - {m})[b] == due[b]; }
    }
  }
}
