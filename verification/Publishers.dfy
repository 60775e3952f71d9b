// The durable producer: asynchronous delivery, a sticky first failure, confirmation by Flush.
module Publishers {
  import opened Effects
  import opened Events

  function Without<T>(s: seq<T>, n: nat): seq<T>
    requires n < |s|
  {
    s[..n] + s[n + 1..]
  }

  predicate EndsWith<T(==)>(s: seq<T>, tail: seq<T>) {
    |tail| <= |s| && s[|s| - |tail|..] == tail
  }

  lemma TailGrows<T>(s: seq<T>, tail: seq<T>, e: T)
    requires EndsWith(s, tail)
    ensures EndsWith(s + [e], tail + [e])
  {
  }

  lemma WithoutOne<T>(s: seq<T>, n: nat)
    requires n < |s|
    ensures multiset(s) == multiset(Without(s, n)) + multiset{s[n]}
  {
    assert s == s[..n] + [s[n]] + s[n + 1..];
  }

  lemma WithoutLength<T>(s: seq<T>, n: nat)
    requires n < |s|
    ensures |Without(s, n)| == |s| - 1
  {
  }

  // Everything accepted is delivered, lost or still buffered, each exactly once.
  ghost predicate Conserved<T>(accepted: seq<T>, delivered: seq<T>, lost: multiset<T>, buffer: seq<T>) {
    multiset(accepted) == multiset(delivered) + lost + multiset(buffer)
  }

  lemma ResolvedConserves<T>(accepted: seq<T>, delivered: seq<T>, lost: multiset<T>, buffer: seq<T>, n: nat)
    requires Conserved(accepted, delivered, lost, buffer) && n < |buffer|
    ensures Conserved(accepted, delivered + [buffer[n]], lost, Without(buffer, n))
    ensures Conserved(accepted, delivered, lost + multiset{buffer[n]}, Without(buffer, n))
  {
    WithoutOne(buffer, n);
    assert multiset(delivered + [buffer[n]]) == multiset(delivered) + multiset{buffer[n]};
  }

  lemma AcceptedConserves<T>(accepted: seq<T>, delivered: seq<T>, lost: multiset<T>, buffer: seq<T>, e: T)
    requires Conserved(accepted, delivered, lost, buffer)
    ensures Conserved(accepted + [e], delivered, lost, buffer + [e])
  {
    assert multiset(accepted + [e]) == multiset(accepted) + multiset{e};
    assert multiset(buffer + [e]) == multiset(buffer) + multiset{e};
  }

  // What became of the accepted events: all are on the topic, reported failed or still buffered; none
  // is there more often than it was published; and all but the failed ones are there or buffered.
  ghost predicate Settles<T>(accepted: seq<T>, sent: seq<T>, failures: multiset<T>, buffer: seq<T>) {
    && multiset(accepted) <= multiset(sent) + failures + multiset(buffer)
    && multiset(sent) + multiset(buffer) <= multiset(accepted)
    && (failures == multiset{} ==> multiset(sent) + multiset(buffer) == multiset(accepted))
  }

  lemma Settled<T>(accepted: seq<T>, delivered: seq<T>, lost: multiset<T>, failed: multiset<T>, buffer: seq<T>)
    requires Conserved(accepted, delivered, lost, buffer) && lost <= failed
    ensures Settles(accepted, delivered, failed, buffer)
    ensures Conserved(buffer, [], multiset{}, buffer)
  {
  }

  // Every loss is reported, and the flag is up when anything is.
  ghost predicate Flagged<T>(lost: multiset<T>, failed: multiset<T>, flag: bool) {
    lost <= failed && (flag <==> failed != multiset{})
  }

  lemma FlaggedOneMore<T>(lost: multiset<T>, failed: multiset<T>, flag: bool, e: T)
    requires Flagged(lost, failed, flag)
    ensures Flagged(lost, failed + multiset{e}, true) && Flagged(lost + multiset{e}, failed + multiset{e}, true)
    ensures failed <= failed + multiset{e}
  {
    assert e in failed + multiset{e};
  }

  lemma NothingAtEnd<T>(s: seq<T>)
    ensures EndsWith(s, [])
  {
  }

  class Publisher {
    var buffer: seq<ProductImported>   // produced, promise not yet resolved
    var firstErr: bool
    var topic: seq<ProductImported>

    // Since the last Flush: what was accepted, what of it reached the topic, what never will, and
    // what was reported failed, which may be either.
    ghost var accepted: seq<ProductImported>
    ghost var delivered: seq<ProductImported>
    ghost var lost: multiset<ProductImported>
    ghost var failed: multiset<ProductImported>
    ghost var reported: nat   // failures reported, ever

    constructor ()
      ensures Valid() && accepted == []
    {
      buffer, firstErr, topic := [], false, [];
      accepted, delivered, lost, failed := [], [], multiset{}, multiset{};
    }

    // A reported failure is remembered until the next Flush, and every loss is reported.
    ghost predicate Valid()
      reads this
    {
      && Conserved(accepted, delivered, lost, buffer)
      && Flagged(lost, failed, firstErr)
      && EndsWith(topic, delivered)
    }

    // The n-th buffered record reaches the topic.
    method Land(n: nat)
      requires Valid() && n < |buffer|
      modifies this`buffer, this`topic, this`delivered
      ensures Valid() && |buffer| == |old(buffer)| - 1 && topic == old(topic) + [old(buffer)[n]]
    {
      hide Conserved, Without, EndsWith, Flagged;
      ResolvedConserves(accepted, delivered, lost, buffer, n);
      WithoutLength(buffer, n);
      TailGrows(topic, delivered, buffer[n]);
      topic := topic + [buffer[n]];
      delivered := delivered + [buffer[n]];
      buffer := Without(buffer, n);
    }

    // A promise reports a failure.
    method Report(evt: ProductImported)
      requires Valid()
      modifies this`firstErr, this`failed, this`reported
      ensures Valid() && failed == old(failed) + multiset{evt} && reported == old(reported) + 1
    {
      hide Conserved, EndsWith, Flagged;
      FlaggedOneMore(lost, failed, firstErr, evt);
      firstErr := true;
      failed := failed + multiset{evt};
      reported := reported + 1;
    }

    // The n-th buffered record never reaches the topic, and its promise says so.
    method Drop(n: nat)
      requires Valid() && n < |buffer|
      modifies this`buffer, this`firstErr, this`lost, this`failed, this`reported
      ensures reported == old(reported) + 1
      ensures Valid() && |buffer| == |old(buffer)| - 1 && failed == old(failed) + multiset{old(buffer)[n]}
    {
      hide Conserved, Without, EndsWith, Flagged;
      FlaggedOneMore(lost, failed, firstErr, buffer[n]);
      ResolvedConserves(accepted, delivered, lost, buffer, n);
      WithoutLength(buffer, n);
      firstErr := true;
      failed := failed + multiset{buffer[n]};
      lost := lost + multiset{buffer[n]};
      reported := reported + 1;
      buffer := Without(buffer, n);
    }

    // One promise resolves. Partitions make progress independently, so it may be any record's; and a
    // delivery may be reported failed although it happened.
    method Resolve()
      requires Valid() && buffer != []
      modifies this
      ensures Valid() && accepted == old(accepted) && |buffer| == |old(buffer)| - 1
      ensures topic == old(topic) || exists evt :: evt in old(buffer) && topic == old(topic) + [evt]
      ensures failed == old(failed) || exists evt :: evt in old(buffer) && failed == old(failed) + multiset{evt}
      ensures reported >= old(reported) && (firstErr ==> old(firstErr) || reported > old(reported))
    {
      hide Conserved, Without, EndsWith, Flagged;
      var pick: int := *;
      var landed, acked := Attempt();
      var n := if 0 <= pick < |buffer| then pick else 0;
      var evt := buffer[n];
      if !landed {
        Drop(n);
        return;
      }
      Land(n);
      if !acked {
        Report(evt);
      }
    }

    // Refuses once a delivery is known to have failed.
    method Publish(evt: ProductImported) returns (ok: bool)
      requires Valid()
      modifies this
      ensures Valid() && old(topic) <= topic
      ensures ok ==> accepted == old(accepted) + [evt] && !firstErr
      ensures !ok ==> accepted == old(accepted) && firstErr
      ensures old(firstErr) ==> !ok
      ensures reported >= old(reported) && (!ok ==> old(firstErr) || reported > old(reported))
    {
      hide Conserved, EndsWith;
      var more: bool := *;
      while more && buffer != []
        invariant reported >= old(reported) && (firstErr ==> old(firstErr) || reported > old(reported))
        invariant Valid() && accepted == old(accepted) && old(topic) <= topic && old(failed) <= failed
        decreases |buffer|
      {
        Resolve();
        more := *;
      }
      if firstErr {
        return false;
      }
      AcceptedConserves(accepted, delivered, lost, buffer, evt);
      buffer := buffer + [evt];
      accepted := accepted + [evt];
      return true;
    }

    // Waits for every promise, or until the context expires.
    method Wait(ctx: Context)
      requires Valid()
      modifies this, ctx
      ensures Valid() && accepted == old(accepted) && old(topic) <= topic && old(failed) <= failed
      ensures old(ctx.expired) ==> ctx.expired
      ensures !ctx.expired ==> buffer == []
      ensures reported >= old(reported) && (firstErr ==> old(firstErr) || reported > old(reported))
    {
      hide Conserved, EndsWith, Flagged;
      var waiting := true;
      while waiting && buffer != []
        invariant reported >= old(reported) && (firstErr ==> old(firstErr) || reported > old(reported))
        invariant Valid() && accepted == old(accepted) && old(topic) <= topic && old(failed) <= failed
        invariant (old(ctx.expired) ==> ctx.expired) && (waiting || ctx.expired)
        decreases |buffer|, waiting
      {
        ctx.Pass();
        waiting := *;
        waiting := waiting || !ctx.expired;
        if waiting {
          Resolve();
        }
      }
    }

    // Nil exactly when nothing was reported failed since the last Flush; everything accepted since then
    // is then on the topic, except what an expired context left buffered. Either way the failures are
    // forgotten.
    method Flush(ctx: Context)
      returns (ok: bool, ghost sent: seq<ProductImported>, ghost failures: multiset<ProductImported>)
      requires Valid()
      modifies this, ctx
      ensures Valid() && accepted == buffer && !firstErr && (old(ctx.expired) ==> ctx.expired)
      ensures !ctx.expired ==> buffer == []
      ensures old(topic) <= topic && EndsWith(topic, sent)
      ensures old(failed) <= failures && (ok <==> failures == multiset{})
      ensures reported >= old(reported) && (!ok ==> old(firstErr) || reported > old(reported))
      ensures Settles(old(accepted), sent, failures, buffer)
    {
      hide Conserved, EndsWith, Settles;
      Wait(ctx);
      ok, sent, failures := !firstErr, delivered, failed;
      Settled(accepted, delivered, lost, failed, buffer);
      firstErr := false;
      accepted, delivered, lost, failed := buffer, [], multiset{}, multiset{};
      assert EndsWith(topic, delivered) by { NothingAtEnd(topic); }
    }
  }
}
