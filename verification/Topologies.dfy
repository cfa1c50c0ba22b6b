/** The relays a client knows, keyed by their id. */
module Topologies {
  import opened Crypto
  import opened Utf8

  datatype RelayInfo = RelayInfo(id: Text, address: Text, publicKey: Key)

  /** No relay is listed twice, and the ids tell the relays apart. */
  ghost predicate DistinctIds(relays: seq<RelayInfo>) {
    forall i, j :: 0 <= i < j < |relays| ==> relays[i].id != relays[j].id
  }

  class Topology {
    var relays: map<Text, RelayInfo>

    /** Every relay is filed under its own id. */
    ghost predicate Valid()
      reads this
    {
      forall id :: id in relays ==> relays[id].id == id
    }

    constructor ()
      ensures Valid() && relays == map[]
    {
      relays := map[];
    }

    /** A relay with a known id replaces the one filed before. */
    method AddRelay(relay: RelayInfo)
      requires Valid()
      modifies this
      ensures Valid()
      ensures relays == old(relays)[relay.id := relay]
    {
      relays := relays[relay.id := relay];
    }

    /** The values in some order; which one is up to the hash map. */
    method All() returns (all: seq<RelayInfo>)
      requires Valid()
      ensures DistinctIds(all)
      ensures |all| == |relays|
      ensures forall r :: r in all <==> Filed(r)
    {
      all := [];
      var rest := relays.Keys;
      while rest != {}
        invariant rest <= relays.Keys
        invariant |all| + |rest| == |relays|
        invariant DistinctIds(all)
        invariant forall i :: 0 <= i < |all| ==> Filed(all[i]) && all[i].id !in rest
        invariant forall id :: id in relays && id !in rest ==> relays[id] in all
        decreases |rest|
      {
        var id :| id in rest;
        all := all + [relays[id]];
        rest := rest - {id};
      }
    }

    predicate Filed(r: RelayInfo)
      reads this
    {
      r.id in relays && relays[r.id] == r
    }
  }
}
