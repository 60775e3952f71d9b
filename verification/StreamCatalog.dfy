// Effectively-once materialization: at-least-once delivery, crashes between any two effects and
// replays still leave the catalog equal to the sequential fold of the log.
module StreamCatalog {
  import opened Events
  import opened Products
  import opened Upserts
  import opened Ledger
  import opened Stream

  // ---------------------------------------------------------------- the reference meaning

  // The valid records among `ids`, in publish order.
  ghost function ValidBelow(log: seq<Record>, n: nat, ids: set<nat>): (order: seq<nat>)
    requires n <= |log|
    ensures forall a :: 0 <= a < |order| ==> order[a] < n && order[a] in ids && KindOf(log[order[a]]).Valid?
    ensures forall a, b :: 0 <= a < b < |order| ==> order[a] < order[b]
    ensures forall i: nat :: i < n && i in ids && KindOf(log[i]).Valid? ==> i in order
  {
    if n == 0 then []
    else if n - 1 in ids && KindOf(log[n - 1]).Valid? then ValidBelow(log, n - 1, ids) + [n - 1]
    else ValidBelow(log, n - 1, ids)
  }

  // The catalog that applying those records one by one, in publish order, would build.
  ghost function CatalogOf(log: seq<Record>, ids: set<nat>): map<Key, Product> {
    Fold(map[], Rows(log, ValidBelow(log, |log|, ids)))
  }

  ghost predicate Newest(log: seq<Record>, ids: set<nat>, k: Key, i: nat) {
    && i in ids && i < |log| && HasKey(log[i], k)
    && forall i2: nat :: i2 in ids && i2 < |log| && HasKey(log[i2], k) ==> i2 <= i
  }

  ghost predicate LastOf(log: seq<Record>, order: seq<nat>, k: Key, n: nat)
    requires Within(log, order)
  {
    n < |order| && HasKey(log[order[n]], k) && forall m :: n < m < |order| ==> !HasKey(log[order[m]], k)
  }

  ghost predicate NoneOf(log: seq<Record>, order: seq<nat>, k: Key)
    requires Within(log, order)
  {
    forall n :: 0 <= n < |order| ==> !HasKey(log[order[n]], k)
  }

  lemma LastIsNewest(log: seq<Record>, ids: set<nat>, k: Key, n: nat)
    requires LastOf(log, ValidBelow(log, |log|, ids), k, n)
    ensures Newest(log, ids, k, ValidBelow(log, |log|, ids)[n])
  {
    var order := ValidBelow(log, |log|, ids);
    forall i: nat | i in ids && i < |log| && HasKey(log[i], k)
      ensures i <= order[n]
    {
      assert i in order;
      var a :| 0 <= a < |order| && order[a] == i;
    }
  }

  // The fold holds, for each key, the newest record's product, and nothing for other keys.
  lemma CatalogOfAt(log: seq<Record>, ids: set<nat>, k: Key)
    ensures k in CatalogOf(log, ids) ==>
              exists i: nat :: Newest(log, ids, k, i) && CatalogOf(log, ids)[k] == RowOf(log[i]).row
    ensures k !in CatalogOf(log, ids) ==> forall i: nat :: i in ids && i < |log| ==> !HasKey(log[i], k)
  {
    var order := ValidBelow(log, |log|, ids);
    FoldRowsAt(log, order, map[], k);
    if k in CatalogOf(log, ids) {
      var n: nat :| LastOf(log, order, k, n) && CatalogOf(log, ids)[k] == RowOf(log[order[n]]).row;
      LastIsNewest(log, ids, k, n);
    } else {
      assert NoneOf(log, order, k);
      forall i: nat | i in ids && i < |log|
        ensures !HasKey(log[i], k)
      {
        if KindOf(log[i]).Valid? {
          var a :| 0 <= a < |order| && order[a] == i;
        }
      }
    }
  }

  // Folding a run of valid records: at each key of the run, the last one wins.
  lemma FoldRowsAt(log: seq<Record>, valid: seq<nat>, table: map<Key, Product>, k: Key)
    requires Within(log, valid)
    requires forall n :: 0 <= n < |valid| ==> KindOf(log[valid[n]]).Valid?
    ensures var after := Fold(table, Rows(log, valid));
            || (NoneOf(log, valid, k) && AgreeAt(after, table, k))
            || exists n: nat :: LastOf(log, valid, k, n) && k in after && after[k] == RowOf(log[valid[n]]).row
  {
    var rows := Rows(log, valid);
    FoldAt(table, rows, k);
    if Mentions(rows, k) {
      var n := LastOccurrence(rows, k);
      assert HasKey(log[valid[n]], k);
      forall m | n < m < |valid| ensures !HasKey(log[valid[m]], k) { assert rows[m].key != k; }
      assert LastOf(log, valid, k, n);
    } else {
      forall n | 0 <= n < |valid| ensures !HasKey(log[valid[n]], k) { assert rows[n].key != k; }
    }
  }

  // ---------------------------------------------------------------- the invariant

  // Records the table is known to be up to date with: committed, or written by a live poll.
  ghost predicate Settled(s: State, i: nat) {
    i in s.committed || exists w :: w in s.workers && s.workers[w].Wrote() && i in s.workers[w].recs
  }

  ghost predicate Backed(s: State, k: Key, i: nat) {
    && i in s.far && i !in s.dropped && i < |s.log| && HasKey(s.log[i], k)
    && k in s.table && s.table[k] == RowOf(s.log[i]).row
    && forall i2: nat :: Settled(s, i2) && i2 !in s.dropped && i2 < |s.log| && HasKey(s.log[i2], k) ==> i2 <= i
  }

  // Every row comes from a record that was written, and from none older than the settled ones.
  ghost predicate TableInv(s: State) {
    && (forall k :: k in s.table ==> exists i: nat :: Backed(s, k, i))
    && (forall i, k :: i in s.far && i !in s.dropped && i < |s.log| && HasKey(s.log[i], k) ==> k in s.table)
  }

  ghost predicate Quarantined(s: State, ids: seq<nat>, upTo: nat)
    requires upTo <= |ids|
  {
    forall n :: 0 <= n < upTo ==> ids[n] in s.dlq
  }

  ghost predicate PhaseInv(s: State, wk: Worker)
    requires Within(s.log, wk.recs)
  {
    var poison, invalid := Select(s.log, wk.recs, Poison), Select(s.log, wk.recs, Invalid);
    match wk.phase
    case Poisoned(next, _) => next <= |poison| && Quarantined(s, poison, next)
    case Rejecting(next) => next <= |invalid| && Quarantined(s, poison, |poison|) && Quarantined(s, invalid, next)
    case _ =>
      && Quarantined(s, poison, |poison|) && Quarantined(s, invalid, |invalid|)
      && (wk.Wrote() ==> forall n :: 0 <= n < |wk.recs| ==> wk.recs[n] in s.far && wk.recs[n] !in s.dropped)
  }

  ghost predicate WorkerInv(s: State, w: WorkerId)
    requires w in s.workers
  {
    s.workers[w].Active() ==> PollOk(s, w, s.workers[w].recs) && PhaseInv(s, s.workers[w])
  }

  ghost predicate SetsInv(s: State) {
    && WellRouted(s.log)
    && s.committed <= s.far && s.dropped <= s.far
    && (forall i :: i in s.far ==> i < |s.log|)
    && DownClosed(s.log, s.committed) && DownClosed(s.log, s.far)
  }

  ghost predicate DlqInv(s: State) {
    && (forall i :: i in s.committed && i < |s.log| && !KindOf(s.log[i]).Valid? ==> i in s.dlq)
    && (forall i :: i in s.dlq ==> i < |s.log| && !KindOf(s.log[i]).Valid?)
  }

  ghost predicate Inv(s: State) {
    && SetsInv(s)
    && DlqInv(s)
    && (forall w :: w in s.workers ==> WorkerInv(s, w))
    && TableInv(s)
  }

  // ---------------------------------------------------------------- preservation

  // The table's invariant survives any step that leaves the table alone and settles nothing new.
  lemma TableFrame(s: State, t: State)
    requires TableInv(s) && s.log <= t.log && SetsInv(s)
    requires t.table == s.table && t.far == s.far && t.dropped == s.dropped
    requires forall i: nat :: Settled(t, i) && i < |t.log| ==> Settled(s, i) && i < |s.log|
    ensures TableInv(t)
  {
    hide HasKey, RowOf, WellRouted, DownClosed;
    forall k | k in t.table
      ensures exists i: nat :: Backed(t, k, i)
    {
      var i: nat :| Backed(s, k, i);
      assert Backed(t, k, i);
    }
  }

  // A worker's invariant survives what the others do.
  lemma WorkerFrame(s: State, t: State, w: WorkerId)
    requires w in s.workers && w in t.workers && t.workers[w] == s.workers[w]
    requires WorkerInv(s, w)
    requires t.maxPoll == s.maxPoll && s.log <= t.log
    requires s.committed <= t.committed && s.dlq <= t.dlq && s.far <= t.far && t.dropped <= s.dropped
    requires s.workers[w].Active() ==>
               forall n :: 0 <= n < |s.workers[w].recs| ==>
                 && s.workers[w].recs[n] !in t.committed
                 && s.log[s.workers[w].recs[n]].partition in t.owner
                 && t.owner[s.log[s.workers[w].recs[n]].partition] == w
    ensures WorkerInv(t, w)
  {
    if s.workers[w].Active() {
      SelectFrame(s.log, t.log, s.workers[w].recs, Poison);
      SelectFrame(s.log, t.log, s.workers[w].recs, Invalid);
    }
  }

  lemma {:induction false} SelectFrame(log: seq<Record>, longer: seq<Record>, recs: seq<nat>, kind: Kind)
    requires log <= longer && Within(log, recs)
    ensures Select(longer, recs, kind) == Select(log, recs, kind)
  {
    if recs != [] {
      SelectFrame(log, longer, recs[..|recs| - 1], kind);
    }
  }

  // Two active workers never hold records of one partition.
  lemma BatchesApart(s: State, w: WorkerId, v: WorkerId, i: nat, j: nat)
    requires Inv(s) && w in s.workers && v in s.workers && w != v
    requires s.workers[w].Active() && s.workers[v].Active()
    requires i in s.workers[w].recs && j in s.workers[v].recs
    ensures i < |s.log| && j < |s.log| && s.log[i].partition != s.log[j].partition
  {
    assert WorkerInv(s, w) && WorkerInv(s, v);
    var a :| 0 <= a < |s.workers[w].recs| && s.workers[w].recs[a] == i;
    var b :| 0 <= b < |s.workers[v].recs| && s.workers[v].recs[b] == j;
  }

  lemma OthersKeep(s: State, t: State, w: WorkerId)
    requires Inv(s) && w in s.workers && t.workers.Keys == s.workers.Keys
    requires forall v :: v in s.workers && v != w ==> t.workers[v] == s.workers[v]
    requires t.maxPoll == s.maxPoll && t.log == s.log && t.owner == s.owner
    requires s.dlq <= t.dlq && s.far <= t.far && t.dropped <= s.dropped
    requires s.committed <= t.committed
    requires t.committed == s.committed ||
             (s.workers[w].Active() && t.committed <= s.committed + Ids(s.workers[w].recs))
    ensures forall v :: v in t.workers && v != w ==> WorkerInv(t, v)
  {
    hide TableInv, DownClosed, WellRouted, PhaseInv;
    forall v | v in t.workers && v != w
      ensures WorkerInv(t, v)
    {
      if s.workers[v].Active() {
        forall n | 0 <= n < |s.workers[v].recs|
          ensures s.workers[v].recs[n] !in t.committed
        {
          assert WorkerInv(s, v);
          var i := s.workers[v].recs[n];
          if i in t.committed {
            BatchesApart(s, w, v, i, i);
          }
        }
      }
      assert WorkerInv(s, v);
      WorkerFrame(s, t, v);
    }
  }

  lemma StepAppend(s: State, rec: Record)
    requires Inv(s) && Enabled(s, Append(rec))
    ensures Inv(Apply(s, Append(rec)))
  {
    var t := Apply(s, Append(rec));
    forall w | w in t.workers ensures WorkerInv(t, w) {
      assert WorkerInv(s, w);
      WorkerFrame(s, t, w);
    }
    forall i: nat | Settled(t, i) && i < |t.log| ensures Settled(s, i) && i < |s.log| {
      if i !in s.committed {
        var w :| w in t.workers && t.workers[w].Wrote() && i in t.workers[w].recs;
        assert WorkerInv(s, w);
      }
    }
    TableFrame(s, t);
  }

  // Steps that touch one worker's phase (and perhaps the dead letter topic) only.
  lemma StepPhase(s: State, t: State, w: WorkerId)
    requires Inv(s) && w in s.workers && t.workers.Keys == s.workers.Keys
    requires forall v :: v in s.workers && v != w ==> t.workers[v] == s.workers[v]
    requires t.maxPoll == s.maxPoll && t.log == s.log && t.owner == s.owner && t.committed == s.committed
    requires t.table == s.table && t.far == s.far && t.dropped == s.dropped
    requires s.dlq <= t.dlq && DlqInv(t)
    requires t.workers[w].Wrote() ==> s.workers[w].Wrote() && t.workers[w].recs == s.workers[w].recs
    requires WorkerInv(t, w)
    ensures Inv(t)
  {
    hide PollOk, PhaseInv, DownClosed, WellRouted, HasKey, RowOf;
    OthersKeep(s, t, w);
    forall i: nat | Settled(t, i) ensures Settled(s, i) {
      if i !in t.committed {
        var v :| v in t.workers && t.workers[v].Wrote() && i in t.workers[v].recs;
        assert s.workers[v].Wrote() && i in s.workers[v].recs;
      }
    }
    assert forall i: nat :: Settled(t, i) && i < |t.log| ==> Settled(s, i) && i < |s.log|;
    TableFrame(s, t);
  }

  // A newer record of the same key, in the same partition, is never below the offsets that a poll started from.
  lemma SettledNotNewer(s: State, w: WorkerId, i: nat, m: nat, k: Key)
    requires Inv(s) && w in s.workers && s.workers[w].Active()
    requires i < |s.log| && m in s.workers[w].recs && HasKey(s.log[i], k)
    requires m < |s.log| && HasKey(s.log[m], k)
    requires Settled(s, i) && i !in s.workers[w].recs
    ensures i <= m
  {
    assert WorkerInv(s, w);
    SameProductSameRoute(s.log[i], s.log[m], k);
    assert s.log[i].partition == s.log[m].partition;
    var n :| 0 <= n < |s.workers[w].recs| && s.workers[w].recs[n] == m;
    if i in s.committed {
      assert m !in s.committed;
    } else {
      NotInOthersBatch(s, w, i, m);
    }
  }

  lemma NotInOthersBatch(s: State, w: WorkerId, i: nat, m: nat)
    requires Inv(s) && w in s.workers && s.workers[w].Active() && m in s.workers[w].recs && i !in s.workers[w].recs
    requires i < |s.log| && m < |s.log| && s.log[i].partition == s.log[m].partition
    ensures forall v :: v in s.workers && s.workers[v].Active() ==> i !in s.workers[v].recs
  {
    hide TableInv, DlqInv, SetsInv;
    forall v | v in s.workers && s.workers[v].Active()
      ensures i !in s.workers[v].recs
    {
      if v != w && i in s.workers[v].recs { BatchesApart(s, w, v, m, i); }
    }
  }

  // After the statement, what is settled was settled before or is part of the batch.
  lemma SettledAfterUpsert(s: State, w: WorkerId, acked: bool, i: nat)
    requires Inv(s) && Enabled(s, Upsert(w, acked))
    requires Settled(Apply(s, Upsert(w, acked)), i)
    ensures Settled(s, i) || i in s.workers[w].recs
  {
    var t := Apply(s, Upsert(w, acked));
    if i !in s.committed {
      var v :| v in t.workers && t.workers[v].Wrote() && i in t.workers[v].recs;
      if v != w { assert s.workers[v] == t.workers[v]; }
    }
  }

  // The batch's last record of a key is its newest.
  lemma LastInBatchIsNewest(s: State, w: WorkerId, k: Key, n: nat, i: nat)
    requires Inv(s) && w in s.workers && s.workers[w].Active() && Within(s.log, s.workers[w].recs)
    requires var valid := Select(s.log, s.workers[w].recs, Valid); Within(s.log, valid) && LastOf(s.log, valid, k, n)
    requires i in s.workers[w].recs && i < |s.log| && HasKey(s.log[i], k)
    ensures i <= Select(s.log, s.workers[w].recs, Valid)[n]
  {
    var recs := s.workers[w].recs;
    assert WorkerInv(s, w);
    SelectMembers(s.log, recs, Valid);
    SelectInOrder(s.log, recs, Valid);
    var valid := Select(s.log, recs, Valid);
    assert i in valid;
    var a :| 0 <= a < |valid| && valid[a] == i;
    SameProductSameRoute(s.log[i], s.log[valid[n]], k);
  }

  lemma UpsertBacksHit(s: State, w: WorkerId, acked: bool, k: Key, n: nat)
    requires Inv(s) && Enabled(s, Upsert(w, acked))
    requires var valid := Select(s.log, s.workers[w].recs, Valid);
             && Within(s.log, valid) && LastOf(s.log, valid, k, n)
             && k in Apply(s, Upsert(w, acked)).table
             && Apply(s, Upsert(w, acked)).table[k] == RowOf(s.log[valid[n]]).row
    ensures Backed(Apply(s, Upsert(w, acked)), k, Select(s.log, s.workers[w].recs, Valid)[n])
  {
    var t := Apply(s, Upsert(w, acked));
    var recs := s.workers[w].recs;
    assert WorkerInv(s, w);
    SelectMembers(s.log, recs, Valid);
    var m := Select(s.log, recs, Valid)[n];
    assert m in Select(s.log, recs, Valid);
    forall i: nat | Settled(t, i) && i < |t.log| && HasKey(t.log[i], k)
      ensures i <= m
    {
      SettledAfterUpsert(s, w, acked, i);
      if i in recs {
        LastInBatchIsNewest(s, w, k, n, i);
      } else {
        SettledNotNewer(s, w, i, m, k);
      }
    }
  }

  lemma UpsertBacksMiss(s: State, w: WorkerId, acked: bool, k: Key, i: nat)
    requires Inv(s) && Enabled(s, Upsert(w, acked)) && Backed(s, k, i)
    requires var valid := Select(s.log, s.workers[w].recs, Valid);
             Within(s.log, valid) && NoneOf(s.log, valid, k)
    requires AgreeAt(Apply(s, Upsert(w, acked)).table, s.table, k)
    ensures Backed(Apply(s, Upsert(w, acked)), k, i)
  {
    hide SetsInv, DlqInv, WorkerInv, TableInv, RowOf;
    var t := Apply(s, Upsert(w, acked));
    var recs := s.workers[w].recs;
    SelectMembers(s.log, recs, Valid);
    forall i2: nat | Settled(t, i2) && i2 !in t.dropped && i2 < |t.log| && HasKey(t.log[i2], k)
      ensures i2 <= i
    {
      SettledAfterUpsert(s, w, acked, i2);
    }
  }

  lemma UpsertBacks(s: State, w: WorkerId, acked: bool, k: Key)
    requires Inv(s) && Enabled(s, Upsert(w, acked))
    requires k in Apply(s, Upsert(w, acked)).table
    ensures exists i: nat :: Backed(Apply(s, Upsert(w, acked)), k, i)
  {
    hide SetsInv, DlqInv, WorkerInv, NoneOf, Backed, RowOf, Select;
    SelectSound(s.log, s.workers[w].recs, Valid);
    var valid := Select(s.log, s.workers[w].recs, Valid);
    var after := Apply(s, Upsert(w, acked)).table;
    FoldRowsAt(s.log, valid, s.table, k);
    if n: nat :| LastOf(s.log, valid, k, n) && after[k] == RowOf(s.log[valid[n]]).row {
      UpsertBacksHit(s, w, acked, k, n);
    } else {
      var i: nat :| Backed(s, k, i);
      UpsertBacksMiss(s, w, acked, k, i);
    }
  }

  lemma FarStaysClosed(s: State, w: WorkerId)
    requires Inv(s) && w in s.workers && s.workers[w].Active()
    ensures DownClosed(s.log, s.far + Ids(s.workers[w].recs))
    ensures DownClosed(s.log, s.committed + Ids(s.workers[w].recs))
  {
    assert WorkerInv(s, w);
    forall i: nat, j: nat | i in Ids(s.workers[w].recs) && i < |s.log| && j < i &&
        s.log[j].partition == s.log[i].partition
      ensures j in s.committed || j in Ids(s.workers[w].recs)
    {
      var n :| 0 <= n < |s.workers[w].recs| && s.workers[w].recs[n] == i;
    }
  }

  lemma UpsertKeepsKeys(s: State, w: WorkerId, acked: bool, i: nat, k: Key)
    requires Inv(s) && Enabled(s, Upsert(w, acked))
    requires var t := Apply(s, Upsert(w, acked)); i in t.far && i !in t.dropped && i < |t.log| && HasKey(t.log[i], k)
    ensures k in Apply(s, Upsert(w, acked)).table
  {
    hide SetsInv, DlqInv, WorkerInv, LastOf, RowOf, Select;
    var recs := s.workers[w].recs;
    SelectMembers(s.log, recs, Valid);
    SelectSound(s.log, recs, Valid);
    var valid := Select(s.log, recs, Valid);
    FoldRowsAt(s.log, valid, s.table, k);
    if i in recs {
      assert KindOf(s.log[i]).Valid?;
      assert i in valid;
      var a :| 0 <= a < |valid| && valid[a] == i;
    }
  }

  lemma UpsertKeepsSets(s: State, w: WorkerId, acked: bool)
    requires Inv(s) && Enabled(s, Upsert(w, acked))
    ensures SetsInv(Apply(s, Upsert(w, acked))) && DlqInv(Apply(s, Upsert(w, acked)))
    ensures WorkerInv(Apply(s, Upsert(w, acked)), w)
  {
    hide TableInv, Select, WellRouted, KindOf;
    var t := Apply(s, Upsert(w, acked));
    assert WorkerInv(s, w);
    FarStaysClosed(s, w);
    PollStays(s, t, w, s.workers[w].recs);
  }

  lemma StepUpsert(s: State, w: WorkerId, acked: bool)
    requires Inv(s) && Enabled(s, Upsert(w, acked))
    ensures Inv(Apply(s, Upsert(w, acked)))
  {
    hide SetsInv, DlqInv, WorkerInv, Backed;
    var t := Apply(s, Upsert(w, acked));
    UpsertKeepsSets(s, w, acked);
    OthersKeep(s, t, w);
    forall k | k in t.table ensures exists i: nat :: Backed(t, k, i) {
      UpsertBacks(s, w, acked, k);
    }
    forall i, k | i in t.far && i !in t.dropped && i < |t.log| && HasKey(t.log[i], k)
      ensures k in t.table
    {
      UpsertKeepsKeys(s, w, acked, i, k);
    }
  }

  lemma CommitQuarantines(s: State, w: WorkerId, refused: set<nat>, acked: bool)
    requires Inv(s) && Enabled(s, CommitOffsets(w, refused, acked))
    ensures DlqInv(Apply(s, CommitOffsets(w, refused, acked)))
  {
    hide TableInv, SetsInv, KindOf;
    var t, recs := Apply(s, CommitOffsets(w, refused, acked)), s.workers[w].recs;
    assert WorkerInv(s, w);
    forall i | i in Ids(recs) && i < |t.log| && !KindOf(t.log[i]).Valid? ensures i in t.dlq {
      SelectMembers(s.log, recs, Poison);
      SelectMembers(s.log, recs, Invalid);
      assert i in Select(s.log, recs, KindOf(t.log[i]));
    }
  }

  lemma CommitSettles(s: State, w: WorkerId, refused: set<nat>, acked: bool, i: nat)
    requires Enabled(s, CommitOffsets(w, refused, acked)) && Settled(Apply(s, CommitOffsets(w, refused, acked)), i)
    ensures Settled(s, i)
  {
    var t := Apply(s, CommitOffsets(w, refused, acked));
    if i !in t.committed {
      var v :| v in t.workers && t.workers[v].Wrote() && i in t.workers[v].recs;
      assert s.workers[v] == t.workers[v];
    } else if i !in s.committed {
      assert s.workers[w].Wrote() && i in s.workers[w].recs;
    }
  }

  lemma CommitSets(s: State, w: WorkerId, refused: set<nat>, acked: bool)
    requires Inv(s) && Enabled(s, CommitOffsets(w, refused, acked))
    ensures SetsInv(Apply(s, CommitOffsets(w, refused, acked)))
  {
    hide TableInv, DlqInv;
    assert WorkerInv(s, w);
    KeptStaysClosed(s, w, refused);
  }

  lemma KeptStaysClosed(s: State, w: WorkerId, refused: set<nat>)
    requires Inv(s) && w in s.workers && s.workers[w].Active()
    ensures DownClosed(s.log, s.committed + Kept(s.log, s.workers[w].recs, refused))
  {
    assert WorkerInv(s, w);
    var recs := s.workers[w].recs;
    forall i: nat, j: nat | i in Kept(s.log, recs, refused) && j < i && s.log[j].partition == s.log[i].partition
      ensures j in s.committed || j in Kept(s.log, recs, refused)
    {
      var n :| 0 <= n < |recs| && recs[n] == i;
    }
  }

  lemma StepCommit(s: State, w: WorkerId, refused: set<nat>, acked: bool)
    requires Inv(s) && Enabled(s, CommitOffsets(w, refused, acked))
    ensures Inv(Apply(s, CommitOffsets(w, refused, acked)))
  {
    hide TableInv, DlqInv, Settled;
    var t := Apply(s, CommitOffsets(w, refused, acked));
    assert WorkerInv(s, w);
    OthersKeep(s, t, w);
    CommitSets(s, w, refused, acked);
    CommitQuarantines(s, w, refused, acked);
    forall i: nat | Settled(t, i) && i < |t.log| ensures Settled(s, i) {
      CommitSettles(s, w, refused, acked, i);
    }
    TableFrame(s, t);
  }

  lemma StepReset(s: State, truncate: bool, refused: set<nat>)
    requires Inv(s) && Enabled(s, Reset(truncate, refused))
    ensures Inv(Apply(s, Reset(truncate, refused)))
  {
    hide HasKey, RowOf, PollOk, PhaseInv, WellRouted;
    var t := Apply(s, Reset(truncate, refused));
    forall w | w in t.workers ensures WorkerInv(t, w) { assert s.workers[w].phase.Dead?; }
    assert t.committed <= s.committed;
    if truncate {
      TruncatedTable(s, refused);
    } else {
      TableFrame(s, t);
    }
  }

  // A truncated table holds nothing, and drops everything that was written.
  lemma TruncatedTable(s: State, refused: set<nat>)
    requires Enabled(s, Reset(true, refused))
    ensures TableInv(Apply(s, Reset(true, refused)))
  {
    hide HasKey, RowOf;
  }

  lemma WorkersKept(s: State, step: Step)
    requires Inv(s) && Enabled(s, step) && (step.Spawn? || step.Assign? || step.Deliver?)
    ensures forall v :: v in Apply(s, step).workers ==> WorkerInv(Apply(s, step), v)
  {
    hide TableInv, DlqInv, SetsInv, PhaseInv;
    var t := Apply(s, step);
    forall v | v in t.workers ensures WorkerInv(t, v) {
      if v in s.workers {
        assert WorkerInv(s, v);
        WorkerFrame(s, t, v);
      }
    }
  }

  lemma NothingSettled(s: State, step: Step, i: nat)
    requires Enabled(s, step) && (step.Spawn? || step.Assign? || step.Deliver?) && Settled(Apply(s, step), i)
    ensures Settled(s, i)
  {
    var t := Apply(s, step);
    if i !in t.committed {
      var v :| v in t.workers && t.workers[v].Wrote() && i in t.workers[v].recs;
      assert v in s.workers && s.workers[v] == t.workers[v];
    }
  }

  lemma StepWorkerSet(s: State, step: Step)
    requires Inv(s) && Enabled(s, step)
    requires step.Spawn? || step.Assign? || step.Deliver?
    ensures Inv(Apply(s, step))
  {
    hide TableInv, DlqInv, WorkerInv, Settled;
    var t := Apply(s, step);
    WorkersKept(s, step);
    forall i: nat | Settled(t, i) ensures Settled(s, i) {
      NothingSettled(s, step, i);
    }
    TableFrame(s, t);
    assert DlqInv(t) by { SameDlq(s, t); }
  }

  lemma SameDlq(s: State, t: State)
    requires DlqInv(s) && t.log == s.log && t.dlq == s.dlq && t.committed == s.committed
    ensures DlqInv(t)
  {
  }

  lemma PollStays(s: State, t: State, w: WorkerId, recs: seq<nat>)
    requires PollOk(s, w, recs)
    requires t.maxPoll == s.maxPoll && t.log == s.log && t.committed == s.committed && t.owner == s.owner
    ensures PollOk(t, w, recs) && Within(s.log, recs)
  {
  }

  // The worker that takes a step keeps its own invariant, and the dead letter topic stays sound.
  lemma OwnKeeps(s: State, step: Step)
    requires Enabled(s, step)
    requires step.CountPoison? || step.PoisonDone? || step.InvalidDone? || step.CountBatch? || step.FlushOk?
    requires WorkerInv(s, step.w)
    ensures step.w in Apply(s, step).workers && WorkerInv(Apply(s, step), step.w)
    ensures Apply(s, step).dlq == s.dlq
  {
    hide Select, CountAll, CountOne, PollOk, PhaseInv;
    var t, wk := Apply(s, step), s.workers[step.w];
    PollStays(s, t, step.w, wk.recs);
    PhaseAdvances(s, t, wk, t.workers[step.w]);
  }

  // Moving on needs what the earlier phases left in the dead letter topic and the table.
  lemma PhaseAdvances(s: State, t: State, wk: Worker, after: Worker)
    requires Within(s.log, wk.recs) && PhaseInv(s, wk) && after.recs == wk.recs
    requires t.log == s.log && t.dlq == s.dlq && t.far == s.far && t.dropped == s.dropped
    requires match after.phase
             case Poisoned(next, _) => wk.phase.Poisoned? && next == wk.phase.next
             case Rejecting(next) => next == 0 && wk.phase == Poisoned(|Select(s.log, wk.recs, Poison)|, false)
             case Writing => wk.phase == Rejecting(|Select(s.log, wk.recs, Invalid)|)
             case _ => wk.Wrote() && after.Wrote()
    ensures PhaseInv(t, after)
  {
    hide Select;
  }

  lemma DeadLetterPoisonOwn(s: State, w: WorkerId, acked: bool)
    requires Enabled(s, DeadLetterPoison(w, acked)) && WorkerInv(s, w)
    ensures WorkerInv(Apply(s, DeadLetterPoison(w, acked)), w)
  {
    hide Select;
    PollStays(s, Apply(s, DeadLetterPoison(w, acked)), w, s.workers[w].recs);
  }

  lemma DeadLetterPoisonDlq(s: State, w: WorkerId, acked: bool)
    requires Enabled(s, DeadLetterPoison(w, acked)) && DlqInv(s)
    ensures DlqInv(Apply(s, DeadLetterPoison(w, acked)))
  {
    var ids := Select(s.log, s.workers[w].recs, Poison);
    SelectSound(s.log, s.workers[w].recs, Poison);
    assert KindOf(s.log[ids[s.workers[w].phase.next]]) == Poison;
  }

  lemma StepDeadLetterPoison(s: State, w: WorkerId, acked: bool)
    requires Inv(s) && Enabled(s, DeadLetterPoison(w, acked))
    ensures Inv(Apply(s, DeadLetterPoison(w, acked)))
  {
    hide TableInv, SetsInv, WorkerInv, DlqInv;
    DeadLetterPoisonOwn(s, w, acked);
    DeadLetterPoisonDlq(s, w, acked);
    StepPhase(s, Apply(s, DeadLetterPoison(w, acked)), w);
  }

  lemma DeadLetterInvalidOwn(s: State, w: WorkerId, acked: bool)
    requires Enabled(s, DeadLetterInvalid(w, acked)) && WorkerInv(s, w)
    ensures WorkerInv(Apply(s, DeadLetterInvalid(w, acked)), w)
  {
    hide Select;
    PollStays(s, Apply(s, DeadLetterInvalid(w, acked)), w, s.workers[w].recs);
  }

  lemma DeadLetterInvalidDlq(s: State, w: WorkerId, acked: bool)
    requires Enabled(s, DeadLetterInvalid(w, acked)) && DlqInv(s)
    ensures DlqInv(Apply(s, DeadLetterInvalid(w, acked)))
  {
    var ids := Select(s.log, s.workers[w].recs, Invalid);
    SelectSound(s.log, s.workers[w].recs, Invalid);
    assert KindOf(s.log[ids[s.workers[w].phase.next]]) == Invalid;
  }

  lemma StepDeadLetterInvalid(s: State, w: WorkerId, acked: bool)
    requires Inv(s) && Enabled(s, DeadLetterInvalid(w, acked))
    ensures Inv(Apply(s, DeadLetterInvalid(w, acked)))
  {
    hide TableInv, SetsInv, WorkerInv, DlqInv;
    DeadLetterInvalidOwn(s, w, acked);
    DeadLetterInvalidDlq(s, w, acked);
    StepPhase(s, Apply(s, DeadLetterInvalid(w, acked)), w);
  }

  lemma StepPoll(s: State, w: WorkerId, recs: seq<nat>)
    requires Inv(s) && Enabled(s, Poll(w, recs))
    ensures Inv(Apply(s, Poll(w, recs)))
  {
    hide TableInv, SetsInv;
    var t := Apply(s, Poll(w, recs));
    assert PollOk(t, w, recs);
    assert WorkerInv(t, w);
    StepPhase(s, t, w);
  }

  lemma StepOwnPhase(s: State, step: Step)
    requires Inv(s) && Enabled(s, step)
    requires step.CountPoison? || step.PoisonDone? || step.InvalidDone? || step.CountBatch? || step.FlushOk?
    ensures Inv(Apply(s, step))
  {
    hide TableInv, SetsInv, WorkerInv;
    assert WorkerInv(s, step.w);
    OwnKeeps(s, step);
    StepPhase(s, Apply(s, step), step.w);
  }

  lemma StepStop(s: State, step: Step)
    requires Inv(s) && Enabled(s, step)
    requires step.Fail? || step.Crash?
    ensures Inv(Apply(s, step))
  {
    hide TableInv, PollOk, PhaseInv;
    StepPhase(s, Apply(s, step), step.w);
  }

  lemma StepKeepsInv(s: State, step: Step)
    requires Inv(s) && Enabled(s, step)
    ensures Inv(Apply(s, step))
  {
    hide Inv, Enabled, Apply;
    match step
    case Append(rec) => StepAppend(s, rec);
    case Upsert(w, acked) => StepUpsert(s, w, acked);
    case CommitOffsets(w, refused, acked) => StepCommit(s, w, refused, acked);
    case Reset(truncate, refused) => StepReset(s, truncate, refused);
    case DeadLetterPoison(w, acked) => StepDeadLetterPoison(s, w, acked);
    case DeadLetterInvalid(w, acked) => StepDeadLetterInvalid(s, w, acked);
    case Poll(w, recs) => StepPoll(s, w, recs);
    case Fail(_) => StepStop(s, step);
    case Crash(_) => StepStop(s, step);
    case Spawn(_) => StepWorkerSet(s, step);
    case Assign(_, _) => StepWorkerSet(s, step);
    case Deliver(_) => StepWorkerSet(s, step);
    case _ => StepOwnPhase(s, step);
  }

  lemma {:induction false} RunKeepsInv(s: State, steps: seq<Step>, t: State)
    requires Inv(s) && Reaches(s, steps, t)
    ensures Inv(t)
    decreases |steps|
  {
    if steps != [] {
      StepKeepsInv(s, steps[0]);
      RunKeepsInv(Apply(s, steps[0]), steps[1..], t);
    }
  }

  lemma StartInv(maxPoll: nat)
    ensures Inv(Init(maxPoll))
  {
  }

  // ---------------------------------------------------------------- theorems

  // The group has read through everything that was ever written.
  ghost predicate CaughtUp(s: State) {
    forall i :: i in s.far ==> Settled(s, i)
  }

  lemma TableAt(s: State, k: Key)
    requires Inv(s) && CaughtUp(s)
    ensures AgreeAt(s.table, CatalogOf(s.log, s.far - s.dropped), k)
  {
    hide SetsInv, DlqInv, WorkerInv, CatalogOf;
    var ids := s.far - s.dropped;
    CatalogOfAt(s.log, ids, k);
    if k in s.table {
      var i: nat :| Backed(s, k, i);
      assert i in ids && k in CatalogOf(s.log, ids);
      var m: nat :| Newest(s.log, ids, k, m) && CatalogOf(s.log, ids)[k] == RowOf(s.log[m]).row;
      assert i <= m && m <= i;
    }
  }

  lemma CaughtUpIsFold(s: State)
    requires Inv(s) && CaughtUp(s)
    ensures s.table == CatalogOf(s.log, s.far - s.dropped)
  {
    hide Inv, CaughtUp, CatalogOf;
    forall k ensures AgreeAt(s.table, CatalogOf(s.log, s.far - s.dropped), k) {
      TableAt(s, k);
    }
    SameTable(s.table, CatalogOf(s.log, s.far - s.dropped));
  }

  ghost predicate NoReset(steps: seq<Step>) {
    forall n :: 0 <= n < |steps| ==> !steps[n].Reset?
  }

  lemma {:induction false} NothingDropped(s: State, steps: seq<Step>, t: State)
    requires Reaches(s, steps, t) && s.dropped == {}
    requires forall n :: 0 <= n < |steps| && steps[n].Reset? ==> !steps[n].truncate || steps[n].refused == {}
    ensures t.dropped == {}
    decreases |steps|
  {
    if steps != [] {
      NothingDropped(Apply(s, steps[0]), steps[1..], t);
    }
  }

  // What a group that has caught up left, in the events' own fields: at every identity the newest
  // admissible event of it among those read, and nothing at an identity that has none.
  lemma CaughtUpHolds(maxPoll: nat, steps: seq<Step>, s: State, k: Key)
    requires Reaches(Init(maxPoll), steps, s) && NoReset(steps) && CaughtUp(s)
    ensures if k in s.table then exists i: nat :: Holds(s.log, s.far, s.table[k], k, i)
            else forall i: nat :: i in s.far && i < |s.log| ==> !Admissible(s.log[i], k)
  {
    hide Reaches, NoReset, CaughtUp, CatalogOf, Admissible, HoldsEvent;
    EffectivelyOnce(maxPoll, steps, s);
    CatalogOfAt(s.log, s.far, k);
    forall i: nat | i < |s.log| ensures HasKey(s.log[i], k) <==> Admissible(s.log[i], k) {
      KeyExactly(s.log[i], k);
    }
    if k in s.table {
      var i: nat :| Newest(s.log, s.far, k, i) && s.table[k] == RowOf(s.log[i]).row;
      KeyExactly(s.log[i], k);
      assert Holds(s.log, s.far, s.table[k], k, i);
    }
  }

  ghost predicate Holds(log: seq<Record>, ids: set<nat>, row: Product, k: Key, i: nat) {
    && i in ids && i < |log| && Admissible(log[i], k) && HoldsEvent(row, log[i].body.evt)
    && forall n: nat :: n in ids && n < |log| && Admissible(log[n], k) ==> n <= i
  }

  // Effectively once: for any log, any grouping of partitions over workers and any crash, retry and
  // rebalance schedule, a group that has caught up left exactly the sequential fold of the records
  // it read; every committed record is in that fold if valid and on the dead letter topic if not;
  // nothing valid is ever dead-lettered.
  lemma EffectivelyOnce(maxPoll: nat, steps: seq<Step>, s: State)
    requires Reaches(Init(maxPoll), steps, s) && NoReset(steps)
    ensures CaughtUp(s) ==> s.table == CatalogOf(s.log, s.far)
    ensures DownClosed(s.log, s.far)
    ensures forall i :: i in s.committed ==>
              i < |s.log| && if KindOf(s.log[i]).Valid? then i in s.far else i in s.dlq
    ensures forall i :: i in s.dlq ==> i < |s.log| && !KindOf(s.log[i]).Valid?
  {
    StartInv(maxPoll);
    RunKeepsInv(Init(maxPoll), steps, s);
    NothingDropped(Init(maxPoll), steps, s);
    if CaughtUp(s) {
      CaughtUpIsFold(s);
      assert s.far - s.dropped == s.far;
    }
  }

  ghost function Below(n: nat): (ids: set<nat>)
    ensures forall i: nat :: i in ids <==> i < n
  {
    if n == 0 then {} else Below(n - 1) + {n - 1}
  }

  ghost function AllIds(log: seq<Record>): set<nat> {
    Below(|log|)
  }

  ghost predicate Drained(s: State) {
    s.committed == AllIds(s.log)
  }

  // Once the log is drained the catalog is the fold of the whole log in publish order, although the
  // partitions were consumed by different workers in any interleaving.
  lemma DrainedIsFoldOfLog(s: State)
    requires Inv(s) && Drained(s)
    ensures s.table == CatalogOf(s.log, AllIds(s.log) - s.dropped)
  {
    assert s.far == AllIds(s.log);
    forall i | i in s.far ensures Settled(s, i) { assert i in s.committed; }
    CaughtUpIsFold(s);
  }

  // Replay with every offset deleted rebuilds the catalog exactly, whether or not the table was
  // truncated first and however the second drain batches the log, crashes or retries.
  lemma ReplayRebuildsExactly(
      maxPoll: nat, before: seq<Step>, s: State, truncate: bool, steps: seq<Step>, t: State)
    requires Reaches(Init(maxPoll), before, s) && Drained(s) && s.dropped == {}
    requires Enabled(s, Reset(truncate, {})) && NoReset(steps)
    requires Reaches(Apply(s, Reset(truncate, {})), steps, t)
    requires t.log == s.log && Drained(t)
    ensures t.table == s.table
  {
    StartInv(maxPoll);
    RunKeepsInv(Init(maxPoll), before, s);
    DrainedIsFoldOfLog(s);
    StepReset(s, truncate, {});
    RunKeepsInv(Apply(s, Reset(truncate, {})), steps, t);
    NothingDropped(Apply(s, Reset(truncate, {})), steps, t);
    DrainedIsFoldOfLog(t);
  }

  // ---------------------------------------------------------------- replay with refused deletions

  // A dropped record stays below its committed offset, so no later poll reads it again.
  ghost predicate DroppedStays(s: State, d: set<nat>) {
    d <= s.committed && s.dropped == d
  }

  lemma StepDrops(s: State, step: Step, d: set<nat>)
    requires Inv(s) && DroppedStays(s, d) && !step.Reset? && Enabled(s, step)
    ensures DroppedStays(Apply(s, step), d)
  {
    hide TableInv, DlqInv, SetsInv, PhaseInv, Select, Rows;
    if step.Upsert? {
      assert WorkerInv(s, step.w);
      assert d !! Ids(s.workers[step.w].recs) by {
        forall i | i in Ids(s.workers[step.w].recs) ensures i !in s.committed {
          var n :| 0 <= n < |s.workers[step.w].recs| && s.workers[step.w].recs[n] == i;
        }
      }
      assert d - Ids(s.workers[step.w].recs) == d;
    }
  }

  lemma {:induction false} DroppedForGood(s: State, steps: seq<Step>, t: State, d: set<nat>)
    requires Inv(s) && DroppedStays(s, d) && NoReset(steps) && Reaches(s, steps, t)
    ensures DroppedStays(t, d) && Inv(t)
    decreases |steps|
  {
    hide Inv, Enabled, Apply;
    if steps != [] {
      StepKeepsInv(s, steps[0]);
      StepDrops(s, steps[0], d);
      DroppedForGood(Apply(s, steps[0]), steps[1..], t, d);
    }
  }

  // The tool truncates first and then only logs a partition whose offsets were not deleted. The
  // replay then restores the catalog if and only if no such partition holds a valid record.
  lemma TruncatedReplayExactly(
      maxPoll: nat, before: seq<Step>, s: State, refused: set<nat>, steps: seq<Step>, t: State)
    requires Reaches(Init(maxPoll), before, s) && Drained(s) && s.dropped == {}
    requires Enabled(s, Reset(true, refused)) && NoReset(steps)
    requires Reaches(Apply(s, Reset(true, refused)), steps, t)
    requires t.log == s.log && Drained(t)
    ensures t.table == s.table <==>
            forall i: nat :: i < |s.log| && s.log[i].partition in refused ==> !KindOf(s.log[i]).Valid?
  {
    hide *;
    StartInv(maxPoll);
    RunKeepsInv(Init(maxPoll), before, s);
    TruncatedReplayFrom(s, refused, steps, t);
  }

  lemma TruncatedReplayFrom(s: State, refused: set<nat>, steps: seq<Step>, t: State)
    requires Inv(s) && Drained(s) && s.dropped == {}
    requires Enabled(s, Reset(true, refused)) && NoReset(steps)
    requires Reaches(Apply(s, Reset(true, refused)), steps, t)
    requires t.log == s.log && Drained(t)
    ensures t.table == s.table <==>
            forall i: nat :: i < |s.log| && s.log[i].partition in refused ==> !KindOf(s.log[i]).Valid?
  {
    hide Inv, CatalogOf, KindOf;
    var r := Apply(s, Reset(true, refused));
    var all := AllIds(s.log);
    assert all - {} == all;
    DrainedIsFoldOfLog(s);
    StepReset(s, true, refused);
    DroppedForGood(r, steps, t, r.dropped);
    DrainedIsFoldOfLog(t);
    DroppedByReset(s, refused);
    LogRouted(s);
    RefusedExactly(s.log, refused, r.dropped);
  }

  lemma LogRouted(s: State)
    requires Inv(s)
    ensures WellRouted(s.log)
  {
  }

  lemma DroppedByReset(s: State, refused: set<nat>)
    requires Enabled(s, Reset(true, refused)) && Drained(s)
    ensures forall i: nat :: i < |s.log| ==>
            (i in Apply(s, Reset(true, refused)).dropped <==> s.log[i].partition in refused)
  {
  }

  lemma RefusedExactly(log: seq<Record>, refused: set<nat>, d: set<nat>)
    requires WellRouted(log) && forall i: nat :: i < |log| ==> (i in d <==> log[i].partition in refused)
    ensures CatalogOf(log, AllIds(log) - d) == CatalogOf(log, AllIds(log)) <==>
            forall i: nat :: i < |log| && log[i].partition in refused ==> !KindOf(log[i]).Valid?
  {
    hide CatalogOf, KindOf;
    var all := AllIds(log);
    if i: nat :| i < |log| && log[i].partition in refused && KindOf(log[i]).Valid? {
      LostRow(log, all, d, i);
    } else {
      forall k ensures AgreeAt(CatalogOf(log, all), CatalogOf(log, all - d), k) {
        DropInvalidAt(log, all, d, k);
      }
      SameTable(CatalogOf(log, all), CatalogOf(log, all - d));
    }
  }

  // Dropping a whole partition with a valid record in it loses that record's product.
  lemma LostRow(log: seq<Record>, ids: set<nat>, d: set<nat>, i: nat)
    requires WellRouted(log) && i in ids && i < |log| && KindOf(log[i]).Valid?
    requires forall m: nat :: m in ids - d && m < |log| ==> log[m].partition != log[i].partition
    ensures CatalogOf(log, ids) != CatalogOf(log, ids - d)
  {
    var k := RowOf(log[i]).key;
    assert HasKey(log[i], k);
    CatalogOfAt(log, ids, k);
    forall m: nat | m in ids - d && m < |log|
      ensures !HasKey(log[m], k)
    {
      assert log[m].partition != log[i].partition;
      if HasKey(log[m], k) { SameProductSameRoute(log[i], log[m], k); }
    }
    NothingOfKey(log, ids - d, k);
  }

  lemma DropInvalidAt(log: seq<Record>, ids: set<nat>, d: set<nat>, k: Key)
    requires forall i :: i in d && i < |log| ==> !KindOf(log[i]).Valid?
    ensures AgreeAt(CatalogOf(log, ids), CatalogOf(log, ids - d), k)
  {
    CatalogOfAt(log, ids, k);
    CatalogOfAt(log, ids - d, k);
    if k in CatalogOf(log, ids) {
      var m: nat :| Newest(log, ids, k, m) && CatalogOf(log, ids)[k] == RowOf(log[m]).row;
      assert m in ids - d && k in CatalogOf(log, ids - d);
      var n: nat :| Newest(log, ids - d, k, n) && CatalogOf(log, ids - d)[k] == RowOf(log[n]).row;
      assert m <= n && n <= m;
    } else {
      NothingOfKey(log, ids - d, k);
    }
  }

  lemma NothingOfKey(log: seq<Record>, ids: set<nat>, k: Key)
    requires forall i: nat :: i in ids && i < |log| ==> !HasKey(log[i], k)
    ensures k !in CatalogOf(log, ids)
  {
    FoldRowsAt(log, ValidBelow(log, |log|, ids), map[], k);
  }
}
