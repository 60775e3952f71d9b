// The batch upsert statement as the database runs it: refuse parameters that are not text at all, drop
// all but the last row of each key, refuse a row a column cannot take, insert or update.
module Statements {
  import opened Wrappers
  import opened Upserts

  // The arrays are bound whole, before any row is dropped.
  predicate Binds<K, R>(batch: seq<Entry<K, R>>, text: R -> bool) {
    forall i :: 0 <= i < |batch| ==> text(batch[i].row)
  }

  ghost predicate Takes<K, R>(batch: seq<Entry<K, R>>, column: R -> bool) {
    forall e :: e in KeepLast(batch) ==> column(e.row)
  }

  ghost function Outcome<K, R>(table: map<K, R>, batch: seq<Entry<K, R>>, text: R -> bool, column: R -> bool)
      : Result<map<K, R>, ()>
  {
    if Binds(batch, text) && Takes(batch, column) then Statement(table, batch) else Failure(())
  }

  ghost predicate IsLast<K, R>(batch: seq<Entry<K, R>>, i: nat) {
    i < |batch| && forall j :: i < j < |batch| ==> batch[j].key != batch[i].key
  }

  lemma LastIsUnmentioned<K, R>(batch: seq<Entry<K, R>>, i: nat)
    requires i < |batch|
    ensures IsLast(batch, i) <==> !Mentions(batch[i + 1..], batch[i].key)
  {
    if !Mentions(batch[i + 1..], batch[i].key) {
      forall j | i < j < |batch| ensures batch[j].key != batch[i].key {
        assert batch[i + 1..][j - i - 1] == batch[j];
      }
    }
  }

  lemma {:induction false} KeptIsLast<K, R>(batch: seq<Entry<K, R>>, e: Entry<K, R>)
    requires e in KeepLast(batch)
    ensures exists i: nat :: IsLast(batch, i) && batch[i] == e
  {
    if Mentions(batch[1..], batch[0].key) || e != batch[0] {
      KeptIsLast(batch[1..], e);
      var i: nat :| IsLast(batch[1..], i) && batch[1..][i] == e;
      assert IsLast(batch, i + 1);
    } else {
      LastIsUnmentioned(batch, 0);
    }
  }

  // One statement succeeds exactly when every row can be bound and every key's last row can be stored.
  // A row no column takes does no harm when it is superseded within the batch; a row that cannot be
  // bound always fails the rows beside it.
  lemma SucceedsExactly<K, R>(table: map<K, R>, batch: seq<Entry<K, R>>, text: R -> bool, column: R -> bool)
    ensures var r := Outcome(table, batch, text, column);
            && (r.Success? <==>
                  && (forall i :: 0 <= i < |batch| ==> text(batch[i].row))
                  && (forall i: nat :: IsLast(batch, i) ==> column(batch[i].row)))
            && (r.Success? <==> Binds(batch, text) && Takes(batch, column))
            && (r.Success? ==> r.value == Fold(table, batch))
  {
    BatchIsFold(table, batch);
    KeepLastSound(batch);
    if Takes(batch, column) {
      forall i: nat | IsLast(batch, i) ensures column(batch[i].row) {
        LastIsUnmentioned(batch, i);
        assert batch[i] in KeepLast(batch);
      }
    }
    if forall i: nat :: IsLast(batch, i) ==> column(batch[i].row) {
      forall e | e in KeepLast(batch) ensures column(e.row) {
        KeptIsLast(batch, e);
      }
    }
  }

  // SELECT DISTINCT ON (key) ... ORDER BY key, ord DESC.
  method DistinctOn<K(==), R>(batch: seq<Entry<K, R>>) returns (kept: seq<Entry<K, R>>)
    ensures kept == KeepLast(batch)
  {
    kept := [];
    var seen: set<K> := {};
    var i := |batch|;
    while i > 0
      invariant 0 <= i <= |batch|
      invariant kept == KeepLast(batch[i..])
      invariant forall k :: k in seen <==> Mentions(batch[i..], k)
    {
      i := i - 1;
      assert batch[i..][1..] == batch[i + 1..] && batch[i..] == [batch[i]] + batch[i + 1..];
      forall k ensures Mentions(batch[i..], k) <==> batch[i].key == k || Mentions(batch[i + 1..], k) {
        MentionsCons(batch[i], batch[i + 1..], k);
      }
      if batch[i].key !in seen {
        kept := [batch[i]] + kept;
        seen := seen + {batch[i].key};
      }
    }
    assert batch[0..] == batch;
  }

  // INSERT ... ON CONFLICT (key) DO UPDATE, all or nothing.
  method Insert<K(==), R>(table: map<K, R>, rows: seq<Entry<K, R>>) returns (r: Result<map<K, R>, ()>)
    ensures r == InsertOnConflict(table, rows)
  {
    var after := table;
    var touched: set<K> := {};
    for i := 0 to |rows|
      invariant after == Fold(table, rows[..i])
      invariant DistinctKeys(rows[..i])
      invariant forall k :: k in touched <==> Mentions(rows[..i], k)
    {
      if rows[i].key in touched {
        var j :| 0 <= j < i && rows[..i][j].key == rows[i].key;
        assert rows[j].key == rows[i].key;
        return Failure(());
      }
      forall j | 0 <= j < i ensures rows[j].key != rows[i].key {
        assert rows[..i][j] == rows[j];
      }
      after := after[rows[i].key := rows[i].row];
      touched := touched + {rows[i].key};
      assert rows[..i + 1][..i] == rows[..i];
      MentionsSnoc(rows, i);
    }
    assert rows[..|rows|] == rows;
    return Success(after);
  }

  lemma MentionsSnoc<K, R>(rows: seq<Entry<K, R>>, i: nat)
    requires i < |rows|
    ensures forall k :: Mentions(rows[..i + 1], k) <==> rows[i].key == k || Mentions(rows[..i], k)
  {
    forall k
      ensures Mentions(rows[..i + 1], k) <==> rows[i].key == k || Mentions(rows[..i], k)
    {
      if Mentions(rows[..i], k) {
        var j :| 0 <= j < i && rows[..i][j].key == k;
        assert rows[..i + 1][j].key == k;
      }
      if rows[i].key == k { assert rows[..i + 1][i].key == k; }
      if Mentions(rows[..i + 1], k) {
        var j :| 0 <= j <= i && rows[..i + 1][j].key == k;
        if j < i { assert rows[..i][j].key == k; }
      }
    }
  }

  method Execute<K(==), R>(table: map<K, R>, batch: seq<Entry<K, R>>, text: R -> bool, column: R -> bool)
      returns (r: Result<map<K, R>, ()>)
    ensures r == Outcome(table, batch, text, column)
  {
    for i := 0 to |batch|
      invariant forall j :: 0 <= j < i ==> text(batch[j].row)
    {
      if !text(batch[i].row) { return Failure(()); }
    }
    var kept := DistinctOn(batch);
    for i := 0 to |kept|
      invariant forall j :: 0 <= j < i ==> column(kept[j].row)
    {
      if !column(kept[i].row) { return Failure(()); }
    }
    r := Insert(table, kept);
  }
}
