// The importer's read model: a second, independent consumer of the product log.
module Projection {
  import opened Wrappers
  import opened Events
  import opened Products
  import opened Upserts
  import opened Ledger
  import Stream
  import opened Writers

  const PROJECTION_WRITE_ATTEMPTS := 3

  // The projector's filter: weaker than the catalog's validation.
  predicate Accepts(rec: Record) {
    rec.body.Decoded? && IsUuid(rec.body.evt.jobId) && rec.body.evt.product.merchantId != "" &&
        rec.body.evt.product.productId != ""
  }

  predicate AcceptsKey(rec: Record, k: Key) {
    Accepts(rec) && Carried(rec.body.evt).NaturalKey() == k
  }

  function Accepted(recs: seq<Record>): (evts: seq<ProductImported>) {
    if recs == [] then []
    else
      var rest := Accepted(recs[..|recs| - 1]);
      var last := recs[|recs| - 1];
      if Accepts(last) then rest + [last.body.evt] else rest
  }

  function RowsAccepted(recs: seq<Record>): seq<Entry<Key, Product>> {
    EntriesOf(CarriedBy(Accepted(recs)))
  }

  // ---------------------------------------------------------------- the loop

  ghost function RowsOfPolls(log: seq<Record>, polls: seq<seq<nat>>): seq<Entry<Key, Product>>
    requires forall i :: 0 <= i < |polls| ==> Within(log, polls[i])
  {
    if polls == [] then []
    else RowsOfPolls(log, polls[..|polls| - 1]) + RowsAccepted(At(log, polls[|polls| - 1]))
  }

  lemma OnePollMore(table: map<Key, Product>, log: seq<Record>, polls: seq<seq<nat>>, i: nat)
    requires i < |polls| && forall n :: 0 <= n < |polls| ==> Within(log, polls[n])
    ensures Fold(table, RowsOfPolls(log, polls[..i + 1])) ==
              Fold(Fold(table, RowsOfPolls(log, polls[..i])), RowsAccepted(At(log, polls[i])))
    ensures IdsOfPolls(polls[..i + 1]) == IdsOfPolls(polls[..i]) + Ids(polls[i])
    ensures polls[i] == [] ==> RowsAccepted(At(log, polls[i])) == [] && Ids(polls[i]) == {}
  {
    assert polls[..i + 1][..i] == polls[..i];
    FoldConcat(table, RowsOfPolls(log, polls[..i]), RowsAccepted(At(log, polls[i])));
  }

  // No column refuses a row of the poll's accepted events.
  ghost predicate CanProject(log: seq<Record>, ids: seq<nat>)
    requires Within(log, ids)
  {
    Projectable(RowsAccepted(At(log, ids)))
  }

  class ProductProjector {
    const store: ProjectionStore
    var committed: set<nat>
    ghost var failures: nat   // commits that did not go through

    constructor (store: ProjectionStore)
      ensures this.store == store && committed == {}
    {
      this.store := store;
      committed := {};
    }

    // The calls to other systems that failed.
    ghost function Failures(): nat
      reads this, store
    {
      store.failures + failures
    }

    // One non-empty poll: filter, write with retries, commit only after the write succeeded.
    // On an error of the commit any of its partitions may have refused it.
    method Cycle(log: seq<Record>, ids: seq<nat>) returns (ok: bool, ghost landed: bool, ghost refused: set<nat>)
      requires Within(log, ids)
      modifies this`committed, this`failures, store
      ensures !ok ==> Failures() > old(Failures()) || !CanProject(log, ids)
      ensures Failures() >= old(Failures())
      ensures store.table == if landed then Fold(old(store.table), RowsAccepted(At(log, ids))) else old(store.table)
      ensures committed == if landed then old(committed) + Stream.Kept(log, ids, refused) else old(committed)
      ensures ok ==> landed && committed == old(committed) + Ids(ids)
    {
      hide Projectable;
      refused := {};
      var evts := Filter(log, ids);
      ghost var rows := RowsAccepted(At(log, ids));
      assert rows == EntriesOf(CarriedBy(evts));
      if |evts| > 0 {
        ghost var cancelled;
        ok, cancelled := Write(evts);
        if !ok {
          landed := store.table != old(store.table);
          refused := set n | 0 <= n < |ids| :: log[ids[n]].partition;
          assert Stream.Kept(log, ids, refused) == {};
          return;
        }
      } else {
        assert rows == [];
      }
      landed := true;
      ok, refused := Commit(log, ids);
    }

    method Commit(log: seq<Record>, ids: seq<nat>) returns (ok: bool, ghost refused: set<nat>)
      requires Within(log, ids)
      modifies this`committed, this`failures
      ensures committed == old(committed) + Stream.Kept(log, ids, refused)
      ensures ok ==> refused == {} && Stream.Kept(log, ids, refused) == Ids(ids)
      ensures failures == old(failures) + if ok then 0 else 1
    {
      var failing: set<nat> := *;
      ok := *;
      if ok { failing := {}; }
      refused := failing;
      failures := failures + if ok then 0 else 1;
      Stream.LeftMembers(log, ids, refused);
      for n := 0 to |ids|
        invariant committed == old(committed) + Stream.Kept(log, ids[..n], failing)
        invariant failures == old(failures) + if ok then 0 else 1
      {
        assert ids[..n + 1] == ids[..n] + [ids[n]];
        if log[ids[n]].partition !in failing {
          committed := committed + {ids[n]};
        }
      }
      assert ids[..|ids|] == ids;
    }

    // Consumes the given polls until one cannot be finished. The projection has taken in the first n
    // of them, as one stream; the committed offsets cover the first c, all of those but perhaps the last,
    // and the last except where its partitions refused.
    method Run(log: seq<Record>, polls: seq<seq<nat>>)
        returns (ok: bool, ghost n: nat, ghost c: nat, ghost refused: set<nat>)
      requires forall i :: 0 <= i < |polls| ==> Within(log, polls[i])
      modifies this`committed, this`failures, store
      ensures !ok ==> Failures() > old(Failures()) || exists i :: 0 <= i < |polls| && !CanProject(log, polls[i])
      ensures c <= n <= |polls| && n <= c + 1 && (ok ==> c == |polls|)
      ensures store.table == Fold(old(store.table), RowsOfPolls(log, polls[..n]))
      ensures committed == old(committed) + IdsOfPolls(polls[..c]) +
                           if c < n then Stream.Kept(log, polls[c], refused) else {}
    {
      hide CanProject;
      ok, n, c, refused := true, 0, 0, {};
      for i := 0 to |polls|
        invariant ok && Failures() >= old(Failures())
        invariant n == c == i
        invariant store.table == Fold(old(store.table), RowsOfPolls(log, polls[..i]))
        invariant committed == old(committed) + IdsOfPolls(polls[..i])
      {
        OnePollMore(old(store.table), log, polls, i);
        if |polls[i]| > 0 {
          ghost var landed;
          ok, landed, refused := Cycle(log, polls[i]);
          if !ok {
            n := if landed then i + 1 else i;
            return;
          }
        }
        n, c := i + 1, i + 1;
      }
    }

    method Filter(log: seq<Record>, ids: seq<nat>) returns (evts: seq<ProductImported>)
      requires Within(log, ids)
      ensures evts == Accepted(At(log, ids))
    {
      evts := [];
      ghost var recs := At(log, ids);
      for i := 0 to |ids|
        invariant evts == Accepted(recs[..i])
      {
        assert recs[..i + 1][..i] == recs[..i];
        if Accepts(log[ids[i]]) {
          evts := evts + [log[ids[i]].body.evt];
        }
      }
      assert recs[..|ids|] == recs;
    }

    // In place, as the worker's write.
    method Write(evts: seq<ProductImported>) returns (ok: bool, ghost cancelled: bool)
      modifies store
      ensures old(store.calls) < store.calls <= old(store.calls) + 3
      ensures !ok && !cancelled ==> store.calls == old(store.calls) + 3
      ensures Projectable(EntriesOf(CarriedBy(evts))) ==>
                store.failures - old(store.failures) == store.calls - old(store.calls) - if ok then 1 else 0
      ensures store.failures >= old(store.failures)
      ensures ok ==> store.table == Fold(old(store.table), EntriesOf(CarriedBy(evts)))
      ensures store.table == old(store.table) || store.table == Fold(old(store.table), EntriesOf(CarriedBy(evts)))
    {
      hide Projectable, Upserted;
      ghost var table, rows := store.table, EntriesOf(CarriedBy(evts));
      assert [] + rows == rows;
      cancelled := false;
      for attempt := 0 to PROJECTION_WRITE_ATTEMPTS
        invariant store.table == table || store.table == Fold(table, rows)
        invariant store.calls == old(store.calls) + attempt && store.failures >= old(store.failures)
        invariant Projectable(rows) ==> store.failures == old(store.failures) + attempt
      {
        AbsorbSuffix(table, rows, []);
        ok := store.UpsertProducts(evts);
        if ok { return; }
        var gone: bool := *;
        if gone { return false, true; }
      }
      return false, false;
    }
  }

  // ---------------------------------------------------------------- the group as a protocol

  // Where the projector stands; a poll in hand is written at most in part of its steps.
  datatype State = State(log: seq<Record>, committed: set<nat>, batch: seq<nat>, written: bool,
                         table: map<Key, Product>)

  datatype Step =
    | Append(rec: Record)
    | Poll(recs: seq<nat>)
    | Upsert(acked: bool)
    | Commit(refused: set<nat>)
    | Stop   // an error return or a crash: the next process starts from the committed offsets

  ghost predicate Offered(s: State, recs: seq<nat>) {
    && recs != [] && Within(s.log, recs) && Stream.InPartitionOrder(s.log, recs)
    && (forall n :: 0 <= n < |recs| ==> recs[n] !in s.committed)
    && (forall n, j :: 0 <= n < |recs| && 0 <= j < recs[n] && s.log[j].partition == s.log[recs[n]].partition ==>
          j in s.committed || j in recs)
  }

  ghost predicate Enabled(s: State, step: Step) {
    match step
    case Append(rec) => Stream.WellRouted(s.log + [rec])
    case Poll(recs) => s.batch == [] && Offered(s, recs)
    case Upsert(_) => s.batch != [] && Within(s.log, s.batch)
    case Commit(_) => s.batch != [] && s.written
    case Stop => true
  }

  ghost function Apply(s: State, step: Step): State
    requires Enabled(s, step)
  {
    match step
    case Append(rec) => s.(log := s.log + [rec])
    case Poll(recs) => s.(batch := recs, written := false)
    case Upsert(acked) => s.(table := Fold(s.table, RowsAccepted(At(s.log, s.batch))), written := s.written || acked)
    // Where a partition refuses, the projector stops and the poll is read again.
    case Commit(refused) =>
      s.(committed := s.committed + Stream.Kept(s.log, s.batch, refused), batch := [], written := false)
    case Stop => s.(batch := [], written := false)
  }

  ghost predicate Reaches(s: State, steps: seq<Step>, t: State)
    decreases |steps|
  {
    if steps == [] then s == t
    else Enabled(s, steps[0]) && Reaches(Apply(s, steps[0]), steps[1..], t)
  }

  const START := State([], {}, [], false, map[])

  ghost predicate Settled(s: State, i: nat) {
    i in s.committed || (s.written && i in s.batch)
  }

  ghost predicate Backed(s: State, k: Key, i: nat) {
    && i < |s.log| && AcceptsKey(s.log[i], k) && k in s.table && s.table[k] == Carried(s.log[i].body.evt)
    && forall j: nat :: Settled(s, j) && j < |s.log| && AcceptsKey(s.log[j], k) ==> j <= i
  }

  ghost predicate TableInv(s: State) {
    && (forall k :: k in s.table ==> exists i: nat :: Backed(s, k, i))
    && (forall i: nat, k :: Settled(s, i) && i < |s.log| && AcceptsKey(s.log[i], k) ==> k in s.table)
  }

  ghost predicate Inv(s: State) {
    && Stream.WellRouted(s.log) && Stream.DownClosed(s.log, s.committed)
    && (forall i :: i in s.committed ==> i < |s.log|)
    && (s.batch != [] ==> Offered(s, s.batch))
    && TableInv(s)
  }

  lemma SameRoute(a: Record, b: Record, k: Key)
    requires AcceptsKey(a, k) && AcceptsKey(b, k)
    ensures a.body.evt.product.PartitionKey() == b.body.evt.product.PartitionKey()
  {
  }

  // What a batch leaves at a key: the row of its last accepted record of that key.
  lemma {:induction false} AcceptedFoldAt(table: map<Key, Product>, recs: seq<Record>, k: Key)
      returns (last: Option<nat>)
    ensures var after := Fold(table, RowsAccepted(recs));
            match last
            case None => (forall n :: 0 <= n < |recs| ==> !AcceptsKey(recs[n], k)) && AgreeAt(after, table, k)
            case Some(n) =>
              && n < |recs| && AcceptsKey(recs[n], k) && k in after && after[k] == Carried(recs[n].body.evt)
              && forall m :: n < m < |recs| ==> !AcceptsKey(recs[m], k)
  {
    if recs == [] {
      last := None;
    } else {
      var n := |recs| - 1;
      last := AcceptedFoldAt(table, recs[..n], k);
      if Accepts(recs[n]) {
        RowsAcceptedSnoc(recs[..n], recs[n]);
        assert recs == recs[..n] + [recs[n]];
        FoldConcat(table, RowsAccepted(recs[..n]),
            [Entry(Carried(recs[n].body.evt).NaturalKey(), Carried(recs[n].body.evt))]);
        FoldOne(Fold(table, RowsAccepted(recs[..n])),
            Entry(Carried(recs[n].body.evt).NaturalKey(), Carried(recs[n].body.evt)));
        if AcceptsKey(recs[n], k) { last := Some(n); }
      }
    }
  }

  lemma FoldOne(table: map<Key, Product>, e: Entry<Key, Product>)
    ensures Fold(table, [e]) == table[e.key := e.row]
  {
    assert [e][..0] == [];
  }

  lemma RowsAcceptedSnoc(recs: seq<Record>, rec: Record)
    requires Accepts(rec)
    ensures RowsAccepted(recs + [rec]) ==
              RowsAccepted(recs) + [Entry(Carried(rec.body.evt).NaturalKey(), Carried(rec.body.evt))]
  {
    assert (recs + [rec])[..|recs|] == recs;
  }

  // A settled record of a key in the batch is not newer than the batch's last record of that key.
  lemma NotNewer(s: State, k: Key, n: nat, j: nat)
    requires Inv(s) && s.batch != [] && n < |s.batch| && AcceptsKey(s.log[s.batch[n]], k)
    requires forall m :: n < m < |s.batch| ==> !AcceptsKey(s.log[s.batch[m]], k)
    requires j < |s.log| && AcceptsKey(s.log[j], k) && (j in s.committed || j in s.batch)
    ensures j <= s.batch[n]
  {
    SameRoute(s.log[j], s.log[s.batch[n]], k);
    if j in s.batch {
      var a :| 0 <= a < |s.batch| && s.batch[a] == j;
    }
  }

  lemma UpsertBacks(s: State, acked: bool, k: Key)
    requires Inv(s) && Enabled(s, Upsert(acked))
    ensures var t := Apply(s, Upsert(acked));
            && (k in t.table ==> exists i: nat :: Backed(t, k, i))
            && (forall i: nat :: Settled(t, i) && i < |t.log| && AcceptsKey(t.log[i], k) ==> k in t.table)
  {
    hide RowsAccepted, Stream.WellRouted, Stream.DownClosed, AcceptsKey;
    var t, recs := Apply(s, Upsert(acked)), At(s.log, s.batch);
    var last := AcceptedFoldAt(s.table, recs, k);
    forall j: nat | Settled(t, j) ensures Settled(s, j) || j in s.batch {}
    if last.Some? {
      var n := last.value;
      forall m | n < m < |s.batch| ensures !AcceptsKey(s.log[s.batch[m]], k) { assert recs[m] == s.log[s.batch[m]]; }
      forall j: nat | Settled(t, j) && j < |t.log| && AcceptsKey(t.log[j], k) ensures j <= s.batch[n] {
        NotNewer(s, k, n, j);
      }
      assert Backed(t, k, s.batch[n]);
    } else {
      forall j: nat | j in s.batch ensures !AcceptsKey(s.log[j], k) {
        var a :| 0 <= a < |s.batch| && s.batch[a] == j;
        assert recs[a] == s.log[j];
      }
      if k in s.table {
        var i: nat :| Backed(s, k, i);
        assert Backed(t, k, i);
      }
    }
  }

  lemma TableFrame(s: State, t: State)
    requires TableInv(s) && s.log <= t.log && t.table == s.table
    requires forall i: nat :: Settled(t, i) && i < |t.log| ==> Settled(s, i) && i < |s.log|
    ensures TableInv(t)
  {
    forall k | k in t.table ensures exists i: nat :: Backed(t, k, i) {
      var i: nat :| Backed(s, k, i);
      assert Backed(t, k, i);
    }
  }

  lemma StepKeepsInv(s: State, step: Step)
    requires Inv(s) && Enabled(s, step)
    ensures Inv(Apply(s, step))
  {
    var t := Apply(s, step);
    match step
    case Upsert(acked) =>
      hide RowsAccepted, AcceptsKey, Backed;
      forall k
        ensures k in t.table ==> exists i: nat :: Backed(t, k, i)
        ensures forall i: nat :: Settled(t, i) && i < |t.log| && AcceptsKey(t.log[i], k) ==> k in t.table
      {
        UpsertBacks(s, acked, k);
      }
    case Commit(refused) =>
      CommitClosed(s, refused);
      TableFrame(s, t);
    case _ =>
      TableFrame(s, t);
  }

  lemma CommitClosed(s: State, refused: set<nat>)
    requires Inv(s) && s.batch != []
    ensures Stream.DownClosed(s.log, s.committed + Stream.Kept(s.log, s.batch, refused))
    ensures forall i :: i in s.committed + Stream.Kept(s.log, s.batch, refused) ==> i < |s.log|
  {
    var kept := Stream.Kept(s.log, s.batch, refused);
    forall i: nat, j: nat | i in kept && j < i && s.log[j].partition == s.log[i].partition
      ensures j in s.committed || j in kept
    {
      var n :| 0 <= n < |s.batch| && s.batch[n] == i;
    }
  }

  lemma {:induction false} RunKeepsInv(s: State, steps: seq<Step>, t: State)
    requires Inv(s) && Reaches(s, steps, t)
    ensures Inv(t)
    decreases |steps|
  {
    if steps != [] {
      StepKeepsInv(s, steps[0]);
      RunKeepsInv(Apply(s, steps[0]), steps[1..], t);
    }
  }

  // ---------------------------------------------------------------- what the projection holds

  ghost predicate NewestAccepted(log: seq<Record>, k: Key, i: nat) {
    i < |log| && AcceptsKey(log[i], k) && forall j: nat :: j < |log| && AcceptsKey(log[j], k) ==> j <= i
  }

  // Once the projector has read the whole log, whatever it was polled, retried and restarted with,
  // the projection holds for every key the newest accepted event, and nothing else.
  lemma CaughtUpHoldsNewest(steps: seq<Step>, s: State, k: Key)
    requires Reaches(START, steps, s) && forall i: nat :: i < |s.log| ==> i in s.committed
    ensures k in s.table ==>
              exists i: nat :: NewestAccepted(s.log, k, i) && s.table[k] == Carried(s.log[i].body.evt) &&
                               HoldsEvent(s.table[k], s.log[i].body.evt)
    ensures forall i: nat :: i < |s.log| && AcceptsKey(s.log[i], k) ==> k in s.table
  {
    hide AcceptsKey;
    RunKeepsInv(START, steps, s);
    if k in s.table {
      var i: nat :| Backed(s, k, i);
      forall j: nat | j < |s.log| && AcceptsKey(s.log[j], k) ensures j <= i { assert Settled(s, j); }
      assert NewestAccepted(s.log, k, i);
    }
  }

  // ---------------------------------------------------------------- the loop as a run of the protocol

  // Each of the first n polls offers what the group has not committed when its turn comes.
  ghost predicate Polls(s: State, polls: seq<seq<nat>>, n: nat) {
    && n <= |polls|
    && (forall i :: 0 <= i < |polls| ==> Within(s.log, polls[i]))
    && forall i :: 0 <= i < n ==>
         polls[i] == [] || Offered(s.(committed := s.committed + IdsOfPolls(polls[..i])), polls[i])
  }

  // What the loop left after taking in n polls and committing c of them, and some of the next.
  ghost function After(s: State, polls: seq<seq<nat>>, n: nat, c: nat, refused: set<nat>): State
    requires Polls(s, polls, n) && c <= n
  {
    s.(table := Fold(s.table, RowsOfPolls(s.log, polls[..n])),
       committed := s.committed + IdsOfPolls(polls[..c]) +
                    if c < n then Stream.Kept(s.log, polls[c], refused) else {})
  }

  // A poll taken in, and its offsets committed where they were accepted.
  ghost function Taken(u: State, ids: seq<nat>, refused: set<nat>): State
    requires Within(u.log, ids)
  {
    u.(table := Fold(u.table, RowsAccepted(At(u.log, ids))),
       committed := u.committed + Stream.Kept(u.log, ids, refused))
  }

  lemma AfterMore(s: State, polls: seq<seq<nat>>, c: nat, refused: set<nat>)
    requires s.batch == [] && Polls(s, polls, c + 1)
    ensures After(s, polls, c + 1, c + 1, {}) == Taken(After(s, polls, c, c, {}), polls[c], {})
    ensures After(s, polls, c + 1, c, refused) == Taken(After(s, polls, c, c, {}), polls[c], refused)
    ensures polls[c] == [] || Offered(After(s, polls, c, c, {}), polls[c])
    ensures polls[c] == [] ==>
              After(s, polls, c + 1, c + 1, {}) == After(s, polls, c + 1, c, refused) == After(s, polls, c, c, {})
  {
    hide Fold, RowsOfPolls, RowsAccepted, IdsOfPolls, Stream.InPartitionOrder;
    OnePollMore(s.table, s.log, polls, c);
    Stream.LeftMembers(s.log, polls[c], {});
    assert Fold(After(s, polls, c, c, {}).table, []) == After(s, polls, c, c, {}).table by {
      NoRows(After(s, polls, c, c, {}));
    }
  }

  lemma NoRows(s: State)
    ensures Fold(s.table, []) == s.table
  {
  }

  // Whatever the loop did with its polls, and however it stopped, what it leaves behind is what a run of
  // the protocol leaves behind: the theorems on the projection are about this code.
  lemma LoopIsRun(s: State, polls: seq<seq<nat>>, n: nat, c: nat, refused: set<nat>) returns (steps: seq<Step>)
    requires s.batch == [] && !s.written && c <= n <= c + 1 && Polls(s, polls, n)
    ensures Reaches(s, steps, After(s, polls, n, c, refused))
  {
    hide Enabled, Apply, Reaches, After, Offered;
    steps := FinishedAreRun(s, polls, c);
    if n == c + 1 {
      AfterMore(s, polls, c, refused);
      if polls[c] != [] {
        Between(s, polls, c);
        var more := TakenIsRun(After(s, polls, c, c, {}), polls[c], refused);
        ReachesConcat(s, steps, After(s, polls, c, c, {}), more, After(s, polls, n, c, refused));
        steps := steps + more;
      }
    } else {
      NoneNext(s, polls, c, refused);
    }
  }

  lemma NoneNext(s: State, polls: seq<seq<nat>>, c: nat, refused: set<nat>)
    requires Polls(s, polls, c)
    ensures After(s, polls, c, c, refused) == After(s, polls, c, c, {})
  {
  }

  lemma Between(s: State, polls: seq<seq<nat>>, c: nat)
    requires Polls(s, polls, c)
    ensures After(s, polls, c, c, {}).batch == s.batch && After(s, polls, c, c, {}).written == s.written
  {
  }

  lemma {:induction false} FinishedAreRun(s: State, polls: seq<seq<nat>>, c: nat) returns (steps: seq<Step>)
    requires s.batch == [] && !s.written && Polls(s, polls, c)
    ensures Reaches(s, steps, After(s, polls, c, c, {}))
    decreases c
  {
    if c == 0 {
      steps := [];
    } else {
      hide Enabled, Apply, Reaches, After, Offered;
      steps := FinishedAreRun(s, polls, c - 1);
      AfterMore(s, polls, c - 1, {});
      if polls[c - 1] != [] {
        Between(s, polls, c - 1);
        var more := TakenIsRun(After(s, polls, c - 1, c - 1, {}), polls[c - 1], {});
        ReachesConcat(s, steps, After(s, polls, c - 1, c - 1, {}), more, After(s, polls, c, c, {}));
        steps := steps + more;
      }
    }
  }

  // A poll written, and committed where the partitions accept.
  lemma TakenIsRun(u: State, ids: seq<nat>, refused: set<nat>) returns (steps: seq<Step>)
    requires u.batch == [] && !u.written && Offered(u, ids)
    ensures Reaches(u, steps, Taken(u, ids, refused))
  {
    hide RowsAccepted, Fold, Stream.InPartitionOrder;
    var v := Apply(u, Poll(ids));
    var w := Apply(v, Upsert(true));
    assert Enabled(w, Commit(refused)) && Apply(w, Commit(refused)) == Taken(u, ids, refused);
    hide Enabled, Apply, Taken;
    Cons(w, Commit(refused), [], Taken(u, ids, refused));
    Cons(v, Upsert(true), [Commit(refused)] + [], Taken(u, ids, refused));
    Cons(u, Poll(ids), [Upsert(true)] + ([Commit(refused)] + []), Taken(u, ids, refused));
    steps := [Poll(ids)] + ([Upsert(true)] + ([Commit(refused)] + []));
  }

  lemma Cons(s: State, step: Step, rest: seq<Step>, t: State)
    requires Enabled(s, step) && Reaches(Apply(s, step), rest, t)
    ensures Reaches(s, [step] + rest, t)
  {
    hide Enabled, Apply;
    assert ([step] + rest)[1..] == rest;
  }

  lemma {:induction false} ReachesConcat(s: State, a: seq<Step>, t: State, b: seq<Step>, u: State)
    requires Reaches(s, a, t) && Reaches(t, b, u)
    ensures Reaches(s, a + b, u)
    decreases |a|
  {
    hide Enabled, Apply;
    if a == [] {
      assert a + b == b;
    } else {
      ReachesConcat(Apply(s, a[0]), a[1..], t, b, u);
      assert (a + b)[1..] == a[1..] + b;
    }
  }
}
