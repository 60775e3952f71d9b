// The batch upsert statement: keep the last row per key, then insert or update.
module Upserts {
  import opened Wrappers

  datatype Entry<K, R> = Entry(key: K, row: R)

  // One-at-a-time upserts, left to right: the reference meaning.
  ghost function Fold<K, R>(table: map<K, R>, batch: seq<Entry<K, R>>): map<K, R> {
    if batch == [] then table
    else
      var last := batch[|batch| - 1];
      Fold(table, batch[..|batch| - 1])[last.key := last.row]
  }

  ghost predicate Mentions<K, R>(batch: seq<Entry<K, R>>, k: K) {
    exists i :: 0 <= i < |batch| && batch[i].key == k
  }

  // The row a batch leaves at a key is the one of the key's last occurrence.
  lemma {:induction false} FoldAt<K, R>(table: map<K, R>, batch: seq<Entry<K, R>>, k: K)
    ensures !Mentions(batch, k) ==> (k in Fold(table, batch) <==> k in table)
    ensures !Mentions(batch, k) && k in table ==> Fold(table, batch)[k] == table[k]
    ensures forall i :: 0 <= i < |batch| && batch[i].key == k && (forall j :: i < j < |batch| ==> batch[j].key != k)
              ==> k in Fold(table, batch) && Fold(table, batch)[k] == batch[i].row
    ensures Mentions(batch, k) ==> k in Fold(table, batch)
  {
    if batch != [] {
      var n := |batch| - 1;
      FoldAt(table, batch[..n], k);
      assert Mentions(batch[..n], k) ==> Mentions(batch, k) by {
        if i :| 0 <= i < n && batch[..n][i].key == k { assert batch[i].key == k; }
      }
      if batch[n].key != k && Mentions(batch, k) {
        var i :| 0 <= i < |batch| && batch[i].key == k;
        assert batch[..n][i].key == k;
      }
    }
  }

  ghost predicate AgreeAt<K, R>(a: map<K, R>, b: map<K, R>, k: K) {
    (k in a <==> k in b) && (k in a && k in b ==> a[k] == b[k])
  }

  lemma SameTable<K, R>(a: map<K, R>, b: map<K, R>)
    requires forall k :: AgreeAt(a, b, k)
    ensures a == b
  {
    assert a.Keys == b.Keys by {
      forall k ensures k in a <==> k in b { assert AgreeAt(a, b, k); }
    }
    forall k | k in a ensures a[k] == b[k] { assert AgreeAt(a, b, k); }
  }

  lemma {:induction false} FoldConcat<K, R>(table: map<K, R>, a: seq<Entry<K, R>>, b: seq<Entry<K, R>>)
    ensures Fold(table, a + b) == Fold(Fold(table, a), b)
    decreases |b|
  {
    if b == [] {
      assert a + b == a;
    } else {
      var n := |b| - 1;
      FoldConcat(table, a, b[..n]);
      assert (a + b)[..|a + b| - 1] == a + b[..n];
    }
  }

  // DISTINCT ON (key) ... ORDER BY key, ord DESC: the last occurrence per key survives.
  ghost function KeepLast<K, R>(batch: seq<Entry<K, R>>): seq<Entry<K, R>> {
    if batch == [] then []
    else if Mentions(batch[1..], batch[0].key) then KeepLast(batch[1..])
    else [batch[0]] + KeepLast(batch[1..])
  }

  ghost predicate DistinctKeys<K, R>(rows: seq<Entry<K, R>>) {
    forall i, j :: 0 <= i < j < |rows| ==> rows[i].key != rows[j].key
  }

  // INSERT ... ON CONFLICT DO UPDATE: refused when it would touch one row twice.
  ghost function InsertOnConflict<K, R>(table: map<K, R>, rows: seq<Entry<K, R>>): Result<map<K, R>, ()> {
    if DistinctKeys(rows) then Success(Fold(table, rows)) else Failure(())
  }

  ghost function Statement<K, R>(table: map<K, R>, batch: seq<Entry<K, R>>): Result<map<K, R>, ()> {
    InsertOnConflict(table, KeepLast(batch))
  }

  lemma {:induction false} KeepLastSound<K, R>(batch: seq<Entry<K, R>>)
    ensures DistinctKeys(KeepLast(batch))
    ensures forall k :: Mentions(KeepLast(batch), k) <==> Mentions(batch, k)
    ensures forall i :: 0 <= i < |KeepLast(batch)| ==> KeepLast(batch)[i] in batch
    ensures forall i :: 0 <= i < |batch| && !Mentions(batch[i + 1..], batch[i].key) ==> batch[i] in KeepLast(batch)
  {
    if batch != [] {
      var rest := batch[1..];
      KeepLastSound(rest);
      forall k
        ensures Mentions(KeepLast(batch), k) <==> Mentions(batch, k)
      {
        MentionsCons(batch[0], rest, k);
        MentionsCons(batch[0], KeepLast(rest), k);
        assert batch == [batch[0]] + rest;
      }
      if !Mentions(rest, batch[0].key) {
        var kept := KeepLast(rest);
        forall j | 0 <= j < |kept|
          ensures kept[j].key != batch[0].key
        {
          if kept[j].key == batch[0].key { assert Mentions(kept, batch[0].key); }
        }
      }
      forall i | 0 <= i < |batch| && !Mentions(batch[i + 1..], batch[i].key)
        ensures batch[i] in KeepLast(batch)
      {
        if i > 0 {
          assert rest[i - 1 + 1..] == batch[i + 1..];
          assert rest[i - 1] == batch[i];
        }
      }
    }
  }

  lemma MentionsCons<K, R>(e: Entry<K, R>, rest: seq<Entry<K, R>>, k: K)
    ensures Mentions([e] + rest, k) <==> e.key == k || Mentions(rest, k)
  {
    var all := [e] + rest;
    if Mentions(rest, k) {
      var i :| 0 <= i < |rest| && rest[i].key == k;
      assert all[i + 1].key == k;
    }
    if e.key == k { assert all[0].key == k; }
    if Mentions(all, k) {
      var i :| 0 <= i < |all| && all[i].key == k;
      if i > 0 { assert rest[i - 1].key == k; }
    }
  }

  // The last occurrence of a mentioned key.
  lemma {:induction false} LastOccurrence<K, R>(batch: seq<Entry<K, R>>, k: K) returns (i: nat)
    requires Mentions(batch, k)
    ensures i < |batch| && batch[i].key == k
    ensures forall j :: i < j < |batch| ==> batch[j].key != k
  {
    i := |batch| - 1;
    while batch[i].key != k
      invariant 0 <= i < |batch|
      invariant forall j :: i < j < |batch| ==> batch[j].key != k
      decreases i
    {
      var w :| 0 <= w < |batch| && batch[w].key == k;
      i := i - 1;
    }
  }

  lemma BatchAgreesAt<K, R>(table: map<K, R>, batch: seq<Entry<K, R>>, k: K)
    ensures AgreeAt(Fold(table, batch), Fold(table, KeepLast(batch)), k)
  {
    var kept := KeepLast(batch);
    KeepLastSound(batch);
    FoldAt(table, batch, k);
    FoldAt(table, kept, k);
    if Mentions(batch, k) {
      var i := LastOccurrence(batch, k);
      assert !Mentions(batch[i + 1..], k);
      var m :| 0 <= m < |kept| && kept[m] == batch[i];
    }
  }

  // The statement is never refused, and it means the same as applying the rows one by one.
  lemma BatchIsFold<K, R>(table: map<K, R>, batch: seq<Entry<K, R>>)
    ensures Statement(table, batch) == Success(Fold(table, batch))
  {
    KeepLastSound(batch);
    forall k ensures AgreeAt(Fold(table, batch), Fold(table, KeepLast(batch)), k) {
      BatchAgreesAt(table, batch, k);
    }
    SameTable(Fold(table, batch), Fold(table, KeepLast(batch)));
  }

  ghost function Flatten<T>(parts: seq<seq<T>>): seq<T> {
    if parts == [] then [] else Flatten(parts[..|parts| - 1]) + parts[|parts| - 1]
  }

  // The table after one statement per batch, in order.
  ghost function RunBatches<K, R>(table: map<K, R>, batches: seq<seq<Entry<K, R>>>): Result<map<K, R>, ()> {
    if batches == [] then Success(table)
    else
      match RunBatches(table, batches[..|batches| - 1])
      case Failure(e) => Failure(e)
      case Success(t) => Statement(t, batches[|batches| - 1])
  }

  // However a stream is cut into batches, the table is the fold of the stream.
  lemma {:induction false} BatchingIsFree<K, R>(table: map<K, R>, batches: seq<seq<Entry<K, R>>>)
    ensures RunBatches(table, batches) == Success(Fold(table, Flatten(batches)))
  {
    if batches != [] {
      var n := |batches| - 1;
      BatchingIsFree(table, batches[..n]);
      BatchIsFold(Fold(table, Flatten(batches[..n])), batches[n]);
      FoldConcat(table, Flatten(batches[..n]), batches[n]);
    }
  }

  // Delivering a batch again, right away or after a restart that replays a longer stretch, changes nothing.
  lemma ReapplyIsNoOp<K, R>(table: map<K, R>, a: seq<Entry<K, R>>, b: seq<Entry<K, R>>)
    ensures Fold(Fold(table, a + b), a + b) == Fold(table, a + b)
    ensures Fold(Fold(table, a + b), b) == Fold(table, a + b)
  {
    var done := Fold(table, a + b);
    AbsorbSuffix(table, a + b, []);
    AbsorbSuffix(table, b, a);
    assert (a + b) + [] == a + b && [] + (a + b) == a + b;
    FoldConcat(table, a, b);
  }

  lemma AbsorbSuffix<K, R>(table: map<K, R>, tail: seq<Entry<K, R>>, head: seq<Entry<K, R>>)
    ensures Fold(Fold(table, head + tail), tail) == Fold(table, head + tail)
  {
    var t := Fold(table, head + tail);
    FoldConcat(table, head, tail);
    forall k
      ensures AgreeAt(Fold(t, tail), t, k)
    {
      FoldAt(t, tail, k);
      FoldAt(Fold(table, head), tail, k);
      if Mentions(tail, k) {
        var i := LastOccurrence(tail, k);
      }
    }
    SameTable(Fold(t, tail), t);
  }

  // The rows of a stream that bear one key, in order.
  ghost function OfKey<K, R>(batch: seq<Entry<K, R>>, k: K): seq<R> {
    if batch == [] then []
    else
      var rest := OfKey(batch[..|batch| - 1], k);
      var last := batch[|batch| - 1];
      if last.key == k then rest + [last.row] else rest
  }

  lemma {:induction false} FoldByKey<K, R>(table: map<K, R>, batch: seq<Entry<K, R>>, k: K)
    ensures OfKey(batch, k) == [] ==> (k in Fold(table, batch) <==> k in table)
    ensures OfKey(batch, k) == [] && k in table ==> Fold(table, batch)[k] == table[k]
    ensures OfKey(batch, k) != [] ==>
              k in Fold(table, batch) && Fold(table, batch)[k] == OfKey(batch, k)[|OfKey(batch, k)| - 1]
  {
    if batch != [] {
      FoldByKey(table, batch[..|batch| - 1], k);
    }
  }

  // Streams that agree on the order within every key leave the same table.
  lemma KeyOrderSuffices<K, R>(table: map<K, R>, a: seq<Entry<K, R>>, b: seq<Entry<K, R>>)
    requires forall k :: OfKey(a, k) == OfKey(b, k)
    ensures Fold(table, a) == Fold(table, b)
  {
    hide Fold, OfKey;
    forall k
      ensures AgreeAt(Fold(table, a), Fold(table, b), k)
    {
      FoldByKey(table, a, k);
      FoldByKey(table, b, k);
    }
    SameTable(Fold(table, a), Fold(table, b));
  }

  // The part of a stream that one partition carries.
  ghost function OnPartition<K, R>(batch: seq<Entry<K, R>>, route: K -> nat, p: nat): seq<Entry<K, R>> {
    if batch == [] then []
    else
      var rest := OnPartition(batch[..|batch| - 1], route, p);
      var last := batch[|batch| - 1];
      if route(last.key) == p then rest + [last] else rest
  }

  lemma {:induction false} PartitionCarriesKey<K, R>(batch: seq<Entry<K, R>>, route: K -> nat, k: K)
    ensures OfKey(OnPartition(batch, route, route(k)), k) == OfKey(batch, k)
  {
    if batch != [] {
      var n := |batch| - 1;
      PartitionCarriesKey(batch[..n], route, k);
      var rest := OnPartition(batch[..n], route, route(k));
      if route(batch[n].key) == route(k) {
        assert (rest + [batch[n]])[..|rest|] == rest;
      }
    }
  }

  // Consumers may interleave partitions as they like: if routing is a function of the key and
  // each partition is consumed in publish order, the table is the fold in publish order.
  lemma PartitionInterleavingIsHarmless<K, R>(
      table: map<K, R>, published: seq<Entry<K, R>>, consumed: seq<Entry<K, R>>, route: K -> nat)
    requires forall p :: OnPartition(consumed, route, p) == OnPartition(published, route, p)
    ensures Fold(table, consumed) == Fold(table, published)
  {
    forall k
      ensures OfKey(consumed, k) == OfKey(published, k)
    {
      PartitionCarriesKey(consumed, route, k);
      PartitionCarriesKey(published, route, k);
    }
    KeyOrderSuffices(table, consumed, published);
  }
}
