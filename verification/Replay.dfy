// The replay tool: empty the catalog if asked, then delete the group's committed offsets.
module Replay {
  import opened Effects
  import opened Writers

  datatype Partition = Partition(topic: string, id: nat)

  class Group {
    var topics: map<string, nat>         // partition counts by topic
    var offsets: map<Partition, nat>     // committed offsets

    constructor (topics: map<string, nat>)
      ensures this.topics == topics && offsets == map[]
    {
      this.topics, offsets := topics, map[];
    }

    // Deletes each partition's offset on its own; the outcome is per partition.
    method DeleteOffsets(wanted: set<Partition>) returns (ghost refused: set<Partition>)
      modifies this`offsets
      ensures refused <= wanted
      ensures offsets == map p | p in old(offsets) && (p !in wanted || p in refused) :: old(offsets)[p]
    {
      var left := wanted;
      refused := {};
      while left != {}
        invariant left <= wanted && refused <= wanted - left
        invariant offsets == map p | p in old(offsets) && (p !in wanted || p in refused || p in left) :: old(offsets)[p]
        decreases |left|
      {
        var p :| p in left;
        left := left - {p};
        var ok: bool := *;
        if ok {
          offsets := map q | q in offsets && q != p :: offsets[q];
        } else {
          refused := refused + {p};
        }
      }
    }

    // Ids are contiguous, so a topic's partition count yields every id.
    method PartitionsOf(topic: string, count: nat) returns (ps: set<Partition>)
      ensures forall p :: p in ps <==> p.topic == topic && p.id < count
    {
      ps := {};
      for id := 0 to count
        invariant forall p :: p in ps <==> p.topic == topic && p.id < id
      {
        ps := ps + {Partition(topic, id)};
      }
    }

    // Fails on an unknown topic, deleting nothing. A deletion the broker refuses is skipped, and the
    // reset still reports success.
    method ResetOffsets(names: seq<string>) returns (ok: bool, ghost refused: set<Partition>)
      modifies this`offsets
      ensures ok <==> forall n :: n in names ==> n in topics
      ensures !ok ==> offsets == old(offsets)
      ensures ok ==> forall p :: p in offsets <==>
                p in old(offsets) && (p.topic !in names || p.id >= topics[p.topic] || p in refused)
      ensures forall p :: p in offsets ==> p in old(offsets) && offsets[p] == old(offsets)[p]
    {
      refused := {};
      var wanted: set<Partition> := {};
      for i := 0 to |names|
        invariant offsets == old(offsets)
        invariant forall k :: 0 <= k < i ==> names[k] in topics
        invariant forall p :: p in wanted <==> p.topic in names[..i] && p.id < topics[p.topic]
      {
        if names[i] !in topics {
          return false, refused;
        }
        var ps := PartitionsOf(names[i], topics[names[i]]);
        wanted := wanted + ps;
        assert names[..i + 1] == names[..i] + [names[i]];
      }
      assert names[..|names|] == names;
      refused := DeleteOffsets(wanted);
      return true, refused;
    }
  }

  // Truncates first: when the reset then fails, or skips a partition, the emptied table is not
  // rebuilt from the offsets that stayed.
  method Replay(group: Group, catalog: ProductWriter, names: seq<string>, truncate: bool)
      returns (ok: bool, ghost truncated: bool, ghost refused: set<Partition>)
    modifies group`offsets, catalog
    ensures catalog.table == if truncated then map[] else old(catalog.table)
    ensures !truncate ==> !truncated
    ensures !ok ==> catalog.failures > old(catalog.failures) || exists n :: n in names && n !in group.topics
    ensures truncate && catalog.failures == old(catalog.failures) ==> truncated
    ensures ok ==> truncated == truncate && forall n :: n in names ==> n in group.topics
    ensures !ok ==> group.offsets == old(group.offsets)
    ensures ok ==> forall p :: p in group.offsets <==>
              p in old(group.offsets) && (p.topic !in names || p.id >= group.topics[p.topic] || p in refused)
  {
    truncated, refused := false, {};
    if truncate {
      var landed, acked := Attempt();
      if landed {
        catalog.table := map[];
        truncated := true;
      }
      if !acked {
        catalog.failures := catalog.failures + 1;
        return false, truncated, refused;
      }
    }
    ok, refused := group.ResetOffsets(names);
  }
}
