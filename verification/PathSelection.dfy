/** Choosing a circuit path, and how diverse the chosen relays are. */
module PathSelection {
  import opened ByteStrings
  import opened PathPreference
  import opened Sequences
  import opened Topologies
  import opened Utf8
  import opened Wrappers

  datatype PathSelectionError = InsufficientRelays(needed: nat, available: nat)

  /** The relays of a topology in the order a shuffle left them. */
  ghost predicate IsShuffleOf(shuffled: seq<RelayInfo>, topology: Topology)
    reads topology
  {
    DistinctIds(shuffled) && forall r :: r in shuffled <==> topology.Filed(r)
  }

  lemma {:induction false} DistinctCount(ids: seq<Text>)
    requires forall i, j :: 0 <= i < j < |ids| ==> ids[i] != ids[j]
    ensures |IdSet(ids)| == |ids|
  {
    if ids == [] {
      assert IdSet(ids) == {};
    } else {
      var front, last := ids[..|ids| - 1], ids[|ids| - 1];
      DistinctCount(front);
      assert ids == front + [last];
      assert IdSet(ids) == IdSet(front) + {last};
    }
  }

  ghost function IdSet(ids: seq<Text>): set<Text> {
    set id | id in ids
  }

  /** A shuffle has as many relays as the topology. */
  lemma ShuffleSize(shuffled: seq<RelayInfo>, topology: Topology)
    requires topology.Valid() && IsShuffleOf(shuffled, topology)
    ensures |shuffled| == |topology.relays|
  {
    var ids: seq<Text> := seq(|shuffled|, i requires 0 <= i < |shuffled| => shuffled[i].id);
    DistinctCount(ids);
    forall id | id in topology.relays ensures id in ids {
      assert topology.Filed(topology.relays[id]);
      var k :| 0 <= k < |shuffled| && shuffled[k] == topology.relays[id];
      assert ids[k] == id;
    }
    forall k | 0 <= k < |ids| ensures ids[k] in topology.relays {
      assert shuffled[k] in shuffled;
      assert topology.Filed(shuffled[k]);
    }
    assert IdSet(ids) == topology.relays.Keys;
    assert |topology.relays.Keys| == |topology.relays|;
  }

  ghost function Elems(relays: seq<RelayInfo>): set<RelayInfo> {
    set r | r in relays
  }

  ghost function KnownSubnets(relays: set<RelayInfo>, subnetKey: Classifier): set<Subnet> {
    set r | r in relays && subnetKey(r.address).Some? :: subnetKey(r.address).value
  }

  ghost function Unclassified(relays: set<RelayInfo>, subnetKey: Classifier): set<RelayInfo> {
    set r | r in relays && subnetKey(r.address).None?
  }

  /** Distinct known subnets, plus the relays whose subnet is unknown. */
  ghost function Diversity(relays: set<RelayInfo>, subnetKey: Classifier): nat {
    |KnownSubnets(relays, subnetKey)| + |Unclassified(relays, subnetKey)|
  }

  lemma SubsetSize<T>(a: set<T>, b: set<T>)
    requires a <= b
    ensures |a| <= |b|
  {
    if a != {} {
      var x :| x in a;
      SubsetSize(a - {x}, b - {x});
    }
  }

  lemma DiversityMonotone(a: set<RelayInfo>, b: set<RelayInfo>, subnetKey: Classifier)
    requires a <= b
    ensures Diversity(a, subnetKey) <= Diversity(b, subnetKey)
  {
    SubsetSize(KnownSubnets(a, subnetKey), KnownSubnets(b, subnetKey));
    SubsetSize(Unclassified(a, subnetKey), Unclassified(b, subnetKey));
  }

  /** Adding a relay adds to the diversity exactly when its subnet is unknown or not yet seen. */
  lemma DiversityAdd(relays: set<RelayInfo>, r: RelayInfo, subnetKey: Classifier)
    requires r !in relays
    ensures var key := subnetKey(r.address);
      Diversity(relays + {r}, subnetKey) == Diversity(relays, subnetKey) +
        (if key.Some? && key.value in KnownSubnets(relays, subnetKey) then 0 else 1)
  {
    var key := subnetKey(r.address);
    if key.Some? {
      assert KnownSubnets(relays + {r}, subnetKey) == KnownSubnets(relays, subnetKey) + {key.value};
      assert key.value in KnownSubnets(relays, subnetKey) ==>
        KnownSubnets(relays, subnetKey) + {key.value} == KnownSubnets(relays, subnetKey);
      assert Unclassified(relays + {r}, subnetKey) == Unclassified(relays, subnetKey);
    } else {
      assert KnownSubnets(relays + {r}, subnetKey) == KnownSubnets(relays, subnetKey);
      assert Unclassified(relays + {r}, subnetKey) == Unclassified(relays, subnetKey) + {r};
    }
  }

  lemma {:induction false} DiversityAtMostSize(relays: set<RelayInfo>, subnetKey: Classifier)
    ensures Diversity(relays, subnetKey) <= |relays|
    decreases relays
  {
    if relays == {} {
      assert KnownSubnets(relays, subnetKey) == {} && Unclassified(relays, subnetKey) == {};
    } else {
      var r :| r in relays;
      DiversityAtMostSize(relays - {r}, subnetKey);
      DiversityAdd(relays - {r}, r, subnetKey);
      assert relays - {r} + {r} == relays;
    }
  }

  /** Relays in which no two share a known subnet. */
  ghost predicate AllDiverse(path: seq<RelayInfo>, subnetKey: Classifier) {
    forall i, j :: 0 <= i < j < |path| && subnetKey(path[i].address).Some? ==>
      subnetKey(path[i].address) != subnetKey(path[j].address)
  }

  lemma ElemsAppend(relays: seq<RelayInfo>, r: RelayInfo)
    ensures Elems(relays + [r]) == Elems(relays) + {r}
  {
  }

  /** Pairwise diverse relays are as diverse as they are many. */
  lemma {:induction false} AllDiverseSize(path: seq<RelayInfo>, subnetKey: Classifier)
    requires DistinctIds(path) && AllDiverse(path, subnetKey)
    ensures Diversity(Elems(path), subnetKey) == |path|
  {
    if path != [] {
      var front, last := path[..|path| - 1], path[|path| - 1];
      AllDiverseSize(front, subnetKey);
      ElemsAppend(front, last);
      assert path == front + [last];
      DiversityAdd(Elems(front), last, subnetKey);
    } else {
      assert Elems(path) == {};
    }
  }

  /** Why a path of that diversity is optimal: no selection of the same size can have more. */
  lemma NoSelectionIsMoreDiverse(candidates: set<RelayInfo>, selection: set<RelayInfo>, subnetKey: Classifier)
    requires selection <= candidates
    ensures Diversity(selection, subnetKey) <= Min(|selection|, Diversity(candidates, subnetKey))
  {
    DiversityMonotone(selection, candidates, subnetKey);
    DiversityAtMostSize(selection, subnetKey);
  }

  method SelectPath(topology: Topology, hopCount: nat, shuffled: seq<RelayInfo>)
    returns (r: Result<seq<RelayInfo>, PathSelectionError>)
    requires IsShuffleOf(shuffled, topology)
    ensures r.Err? <==> |shuffled| < hopCount
    ensures r.Err? ==> r.error == InsufficientRelays(hopCount, |shuffled|)
    ensures r.Ok? ==> |r.value| == hopCount && DistinctIds(r.value) && r.value <= shuffled
    ensures r.Ok? ==> forall x :: x in r.value ==> topology.Filed(x)
  {
    if |shuffled| < hopCount {
      return Err(InsufficientRelays(hopCount, |shuffled|));
    }
    r := Ok(shuffled[..hopCount]);
  }

  /** No relay among these is known to be in the same subnet as r. */
  predicate NewSubnet(relays: seq<RelayInfo>, r: RelayInfo, subnetKey: Classifier) {
    subnetKey(r.address).Some? ==> forall x :: x in relays ==> subnetKey(x.address) != subnetKey(r.address)
  }

  /** The first relay of each subnet and those of unknown subnet; the others; and the subnets met. */
  datatype Sorting = Sorting(path: seq<RelayInfo>, leftover: seq<RelayInfo>, used: seq<Subnet>)

  function SortOut(relays: seq<RelayInfo>, subnetKey: Classifier): Sorting {
    if relays == [] then Sorting([], [], []) else
    var front, r := relays[..|relays| - 1], relays[|relays| - 1];
    var s, key := SortOut(front, subnetKey), subnetKey(r.address);
    if NewSubnet(front, r, subnetKey)
    then Sorting(s.path + [r], s.leftover, if key.Some? then s.used + [key.value] else s.used)
    else s.(leftover := s.leftover + [r])
  }

  /** The list of used subnets tells whether a relay's subnet is new among all relays seen. */
  lemma UsedMeansSeen(seen: seq<RelayInfo>, path: seq<RelayInfo>, leftover: seq<RelayInfo>,
                      used: seq<Subnet>, subnetKey: Classifier, r: RelayInfo)
    requires Greedy(seen, path, leftover, used, subnetKey)
    ensures var key := subnetKey(r.address);
      (key.Some? && key.value in used) <==> !NewSubnet(seen, r, subnetKey)
  {
    var key := subnetKey(r.address);
    if key.Some? && key.value in used {
      var x :| x in path && subnetKey(x.address) == Some(key.value);
      assert x in seen;
    }
    if !NewSubnet(seen, r, subnetKey) {
      var x :| x in seen && subnetKey(x.address) == key;
      assert x in path || x in leftover;
    }
  }

  /** `used` lists the known subnets of the path. */
  ghost predicate Uses(path: seq<RelayInfo>, used: seq<Subnet>, subnetKey: Classifier) {
    && (forall x :: x in path && subnetKey(x.address).Some? ==> subnetKey(x.address).value in used)
    && (forall k: Subnet :: k in used ==> exists x :: x in path && subnetKey(x.address) == Some(k))
  }

  lemma UsesAppend(path: seq<RelayInfo>, used: seq<Subnet>, subnetKey: Classifier, r: RelayInfo)
    requires Uses(path, used, subnetKey) && AllDiverse(path, subnetKey)
    requires subnetKey(r.address).Some? ==> subnetKey(r.address).value !in used
    ensures var key := subnetKey(r.address);
      Uses(path + [r], if key.Some? then used + [key.value] else used, subnetKey)
    ensures AllDiverse(path + [r], subnetKey)
  {
    var key := subnetKey(r.address);
    var used' := if key.Some? then used + [key.value] else used;
    assert r in path + [r];
    forall k: Subnet | k in used' ensures exists x :: x in path + [r] && subnetKey(x.address) == Some(k) {
      if k in used {
        var x :| x in path && subnetKey(x.address) == Some(k);
        assert x in path + [r];
      }
    }
    forall i, j | 0 <= i < j < |path + [r]| && subnetKey((path + [r])[i].address).Some?
      ensures subnetKey((path + [r])[i].address) != subnetKey((path + [r])[j].address)
    {
      assert (path + [r])[i] == path[i] && path[i] in path;
    }
  }

  /** What the greedy pass over the candidates seen so far has established. */
  ghost predicate Greedy(seen: seq<RelayInfo>, path: seq<RelayInfo>, leftover: seq<RelayInfo>,
                         used: seq<Subnet>, subnetKey: Classifier) {
    && DistinctIds(path) && DistinctIds(leftover)
    && (forall x, y :: x in path && y in leftover ==> x.id != y.id)
    && |path| + |leftover| == |seen|
    && (forall x :: x in seen <==> x in path || x in leftover)
    && AllDiverse(path, subnetKey)
    && Uses(path, used, subnetKey)
    && (forall x :: x in leftover ==>
          subnetKey(x.address).Some? && subnetKey(x.address).value in used)
  }

  lemma GreedyTakes(seen: seq<RelayInfo>, path: seq<RelayInfo>, leftover: seq<RelayInfo>,
                    used: seq<Subnet>, subnetKey: Classifier, r: RelayInfo)
    requires Greedy(seen, path, leftover, used, subnetKey)
    requires forall x :: x in seen ==> x.id != r.id
    requires subnetKey(r.address).Some? ==> subnetKey(r.address).value !in used
    ensures var key := subnetKey(r.address);
      Greedy(seen + [r], path + [r], leftover, if key.Some? then used + [key.value] else used, subnetKey)
  {
    UsesAppend(path, used, subnetKey, r);
  }

  lemma GreedySetsAside(seen: seq<RelayInfo>, path: seq<RelayInfo>, leftover: seq<RelayInfo>,
                        used: seq<Subnet>, subnetKey: Classifier, r: RelayInfo)
    requires Greedy(seen, path, leftover, used, subnetKey)
    requires forall x :: x in seen ==> x.id != r.id
    requires subnetKey(r.address).Some? && subnetKey(r.address).value in used
    ensures Greedy(seen + [r], path, leftover + [r], used, subnetKey)
  {
  }

  /** The relays set aside add nothing: the greedy path alone is as diverse as all candidates together. */
  lemma GreedyIsMaximal(seen: seq<RelayInfo>, path: seq<RelayInfo>, leftover: seq<RelayInfo>,
                        used: seq<Subnet>, subnetKey: Classifier)
    requires Greedy(seen, path, leftover, used, subnetKey)
    ensures Diversity(Elems(seen), subnetKey) == Diversity(Elems(path), subnetKey) == |path|
  {
    AllDiverseSize(path, subnetKey);
    assert KnownSubnets(Elems(seen), subnetKey) == KnownSubnets(Elems(path), subnetKey);
    assert Unclassified(Elems(seen), subnetKey) == Unclassified(Elems(path), subnetKey);
  }

  lemma {:induction false} SortOutIsGreedy(relays: seq<RelayInfo>, subnetKey: Classifier)
    requires DistinctIds(relays)
    ensures var s := SortOut(relays, subnetKey); Greedy(relays, s.path, s.leftover, s.used, subnetKey)
  {
    if relays != [] {
      var front, r := relays[..|relays| - 1], relays[|relays| - 1];
      var s := SortOut(front, subnetKey);
      SortOutIsGreedy(front, subnetKey);
      UsedMeansSeen(front, s.path, s.leftover, s.used, subnetKey, r);
      Snoc(relays);
      if NewSubnet(front, r, subnetKey) {
        GreedyTakes(front, s.path, s.leftover, s.used, subnetKey, r);
      } else {
        GreedySetsAside(front, s.path, s.leftover, s.used, subnetKey, r);
      }
    }
  }

  lemma {:induction false} SortOutSize(relays: seq<RelayInfo>, subnetKey: Classifier)
    ensures |SortOut(relays, subnetKey).path| + |SortOut(relays, subnetKey).leftover| == |relays|
  {
    if relays != [] {
      SortOutSize(relays[..|relays| - 1], subnetKey);
    }
  }

  /** The path the diverse selection settles on: one relay per subnet as far as they go, then repeats. */
  function DiversePath(shuffled: seq<RelayInfo>, hopCount: nat, subnetKey: Classifier): seq<RelayInfo> {
    var s := SortOut(shuffled, subnetKey);
    var all := s.path + s.leftover;
    if hopCount <= |all| then all[..hopCount] else all
  }

  /** Cutting the sorted relays short loses no diversity that fits. */
  lemma CutIsDiverse(relays: seq<RelayInfo>, path: seq<RelayInfo>, leftover: seq<RelayInfo>,
                     used: seq<Subnet>, subnetKey: Classifier, hopCount: nat)
    requires Greedy(relays, path, leftover, used, subnetKey) && hopCount <= |relays|
    ensures var chosen := (path + leftover)[..hopCount];
      && DistinctIds(chosen)
      && (forall x :: x in chosen ==> x in relays)
      && Diversity(Elems(chosen), subnetKey) == Min(hopCount, Diversity(Elems(relays), subnetKey))
  {
    var chosen := (path + leftover)[..hopCount];
    GreedyIsMaximal(relays, path, leftover, used, subnetKey);
    if hopCount < |path| {
      assert chosen == path[..hopCount];
      AllDiverseSize(chosen, subnetKey);
    } else {
      assert chosen == path + leftover[..hopCount - |path|];
      DiversityMonotone(Elems(path), Elems(chosen), subnetKey);
      DiversityMonotone(Elems(chosen), Elems(relays), subnetKey);
    }
  }

  lemma DiversePathIsDiverse(shuffled: seq<RelayInfo>, hopCount: nat, subnetKey: Classifier)
    requires DistinctIds(shuffled) && hopCount <= |shuffled|
    ensures var chosen := DiversePath(shuffled, hopCount, subnetKey);
      && |chosen| == hopCount && DistinctIds(chosen)
      && (forall x :: x in chosen ==> x in shuffled)
      && Diversity(Elems(chosen), subnetKey) == Min(hopCount, Diversity(Elems(shuffled), subnetKey))
  {
    var s := SortOut(shuffled, subnetKey);
    SortOutIsGreedy(shuffled, subnetKey);
    CutIsDiverse(shuffled, s.path, s.leftover, s.used, subnetKey, hopCount);
  }

  // ----- which relays are chosen, and in which order -----

  lemma FirstIsNew(shuffled: seq<RelayInfo>, k: nat, subnetKey: Classifier)
    requires k < |shuffled|
    ensures IsFirst(shuffled, k, subnetKey) <==> NewSubnet(shuffled[..k], shuffled[k], subnetKey)
  {
    if NewSubnet(shuffled[..k], shuffled[k], subnetKey) {
      forall j | 0 <= j < k && subnetKey(shuffled[k].address).Some?
        ensures subnetKey(shuffled[j].address) != subnetKey(shuffled[k].address)
      {
        assert shuffled[j] in shuffled[..k];
      }
    }
  }

  ghost predicate SortedByKind(s: Sorting, shuffled: seq<RelayInfo>, kinds: seq<bool>, n: nat)
    requires n <= |kinds| == |shuffled|
  {
    s.path == At(shuffled, Where(kinds, n, true)) && s.leftover == At(shuffled, Where(kinds, n, false))
  }

  lemma SortedByKindNext(s: Sorting, s': Sorting, shuffled: seq<RelayInfo>, kinds: seq<bool>, n: nat)
    requires n < |kinds| == |shuffled| && SortedByKind(s, shuffled, kinds, n)
    requires s'.path == (if kinds[n] then s.path + [shuffled[n]] else s.path)
    requires s'.leftover == (if kinds[n] then s.leftover else s.leftover + [shuffled[n]])
    ensures SortedByKind(s', shuffled, kinds, n + 1)
  {
    AtWhere(shuffled, kinds, n, true);
    AtWhere(shuffled, kinds, n, false);
  }

  /** The loop sorts the relays by kind, each kind as shuffled. */
  lemma {:induction false} SortOutIsWhere(shuffled: seq<RelayInfo>, n: nat, subnetKey: Classifier)
    requires n <= |shuffled|
    ensures SortedByKind(SortOut(shuffled[..n], subnetKey), shuffled, Kinds(shuffled, subnetKey), n)
  {
    if n > 0 {
      var m: nat := n - 1;
      SortOutIsWhere(shuffled, m, subnetKey);
      SortOutByKind(shuffled, m, subnetKey);
      SortedByKindNext(SortOut(shuffled[..m], subnetKey), SortOut(shuffled[..m + 1], subnetKey),
                       shuffled, Kinds(shuffled, subnetKey), m);
      assert n == m + 1;
    }
  }

  lemma SortOutByKind(shuffled: seq<RelayInfo>, n: nat, subnetKey: Classifier)
    requires n < |shuffled|
    ensures var s, s' := SortOut(shuffled[..n], subnetKey), SortOut(shuffled[..n + 1], subnetKey);
      var first := Kinds(shuffled, subnetKey)[n];
      && s'.path == (if first then s.path + [shuffled[n]] else s.path)
      && s'.leftover == (if first then s.leftover else s.leftover + [shuffled[n]])
  {
    FirstIsNew(shuffled, n, subnetKey);
    SortOutOne(shuffled[..n], shuffled[n], subnetKey);
    assert shuffled[..n] + [shuffled[n]] == shuffled[..n + 1];
  }

  lemma SortOutOne(relays: seq<RelayInfo>, r: RelayInfo, subnetKey: Classifier)
    ensures var s, s', isNew := SortOut(relays, subnetKey), SortOut(relays + [r], subnetKey), NewSubnet(relays, r, subnetKey);
      && s'.path == (if isNew then s.path + [r] else s.path)
      && s'.leftover == (if isNew then s.leftover else s.leftover + [r])
  {
    assert (relays + [r])[..|relays|] == relays;
  }

  /** The chosen path, in terms of the shuffle and the subnets alone. */
  lemma DiversePathIsMostPreferred(shuffled: seq<RelayInfo>, hopCount: nat, subnetKey: Classifier)
    returns (pos: seq<nat>)
    requires hopCount <= |shuffled|
    ensures MostPreferred(shuffled, DiversePath(shuffled, hopCount, subnetKey), pos, subnetKey)
  {
    var kinds, n := Kinds(shuffled, subnetKey), |shuffled|;
    var all := Where(kinds, n, true) + Where(kinds, n, false);
    assert shuffled[..n] == shuffled;
    SortOutIsWhere(shuffled, n, subnetKey);
    SortOutSize(shuffled, subnetKey);
    AtConcat(shuffled, Where(kinds, n, true), Where(kinds, n, false));
    WholeOrder(kinds);
    pos := all[..hopCount];
    FrontOfOrder(kinds, all, hopCount);
    AtCut(shuffled, all, hopCount);
  }

  /** Optimality: no selection of that many relays is more diverse than the chosen one. */
  lemma DiversePathIsOptimal(shuffled: seq<RelayInfo>, hopCount: nat, subnetKey: Classifier, other: set<RelayInfo>)
    requires DistinctIds(shuffled) && hopCount <= |shuffled|
    requires other <= Elems(shuffled) && |other| == hopCount
    ensures Diversity(other, subnetKey) <= Diversity(Elems(DiversePath(shuffled, hopCount, subnetKey)), subnetKey)
  {
    DiversePathIsDiverse(shuffled, hopCount, subnetKey);
    NoSelectionIsMoreDiverse(Elems(shuffled), other, subnetKey);
  }

  lemma UsedTellsNew(relays: seq<RelayInfo>, subnetKey: Classifier, r: RelayInfo)
    requires DistinctIds(relays)
    ensures var key := subnetKey(r.address);
      (key.Some? && key.value in SortOut(relays, subnetKey).used) <==> !NewSubnet(relays, r, subnetKey)
  {
    var s := SortOut(relays, subnetKey);
    SortOutIsGreedy(relays, subnetKey);
    UsedMeansSeen(relays, s.path, s.leftover, s.used, subnetKey, r);
  }

  /** One more relay, decided the way the loop decides it. */
  lemma SortOutNext(shuffled: seq<RelayInfo>, i: nat, subnetKey: Classifier)
    requires DistinctIds(shuffled) && i < |shuffled|
    ensures var s, s' := SortOut(shuffled[..i], subnetKey), SortOut(shuffled[..i + 1], subnetKey);
      var r, key := shuffled[i], subnetKey(shuffled[i].address);
      s' == if key.Some? && key.value in s.used then s.(leftover := s.leftover + [r])
            else Sorting(s.path + [r], s.leftover, if key.Some? then s.used + [key.value] else s.used)
  {
    UsedTellsNew(shuffled[..i], subnetKey, shuffled[i]);
    assert shuffled[..i + 1][..i] == shuffled[..i];
  }

  /** The loop over the candidates: the first of each subnet goes into the path, the others are set aside. */
  method GreedyPass(candidates: seq<RelayInfo>, subnetKey: Classifier)
    returns (path: seq<RelayInfo>, leftover: seq<RelayInfo>)
    requires DistinctIds(candidates)
    ensures path == SortOut(candidates, subnetKey).path
    ensures leftover == SortOut(candidates, subnetKey).leftover
  {
    path, leftover := [], [];
    var usedSubnets: seq<Subnet> := [];
    for i := 0 to |candidates|
      invariant Sorting(path, leftover, usedSubnets) == SortOut(candidates[..i], subnetKey)
    {
      SortOutNext(candidates, i, subnetKey);
      var relay := candidates[i];
      var key := subnetKey(relay.address);
      if key.Some? && key.value in usedSubnets {
        leftover := leftover + [relay];
      } else {
        if key.Some? {
          usedSubnets := usedSubnets + [key.value];
        }
        path := path + [relay];
      }
    }
    assert candidates[..|candidates|] == candidates;
  }

  /** The second loop, which stops at the wanted length only if the path has not outgrown it already. */
  method FillUp(path: seq<RelayInfo>, leftover: seq<RelayInfo>, hopCount: nat) returns (full: seq<RelayInfo>)
    ensures full == path + leftover[..
              if |path| <= hopCount then Min(hopCount - |path|, |leftover|) else |leftover|]
  {
    full := path;
    var j := 0;
    while j < |leftover|
      invariant j <= |leftover|
      invariant full == path + leftover[..j]
      invariant |path| <= hopCount ==> |full| <= hopCount
    {
      if |full| == hopCount {
        break;
      }
      full := full + [leftover[j]];
      j := j + 1;
    }
  }

  /**
   The diverse selection. Whatever the shuffle, it returns exactly `hopCount` distinct relays,
   and no selection of that many relays from the topology is more diverse.
   */
  method SelectDiversePath(topology: Topology, hopCount: nat, shuffled: seq<RelayInfo>, subnetKey: Classifier)
    returns (r: Result<seq<RelayInfo>, PathSelectionError>)
    requires IsShuffleOf(shuffled, topology)
    ensures r.Err? <==> |shuffled| < hopCount
    ensures r.Err? ==> r.error == InsufficientRelays(hopCount, |shuffled|)
    ensures r.Ok? ==> r.value == DiversePath(shuffled, hopCount, subnetKey)
    ensures r.Ok? ==> exists pos :: MostPreferred(shuffled, r.value, pos, subnetKey)
    ensures r.Ok? ==> |r.value| == hopCount && DistinctIds(r.value)
    ensures r.Ok? ==> forall x :: x in r.value ==> topology.Filed(x)
    ensures r.Ok? ==>
      Diversity(Elems(r.value), subnetKey) == Min(hopCount, Diversity(Elems(shuffled), subnetKey))
  {
    if |shuffled| < hopCount {
      return Err(InsufficientRelays(hopCount, |shuffled|));
    }
    DiversePathIsDiverse(shuffled, hopCount, subnetKey);
    ghost var pos := DiversePathIsMostPreferred(shuffled, hopCount, subnetKey);
    var path, leftover := GreedyPass(shuffled, subnetKey);
    path := FillUp(path, leftover, hopCount);
    SortOutSize(shuffled, subnetKey);
    path := path[..hopCount];
    r := Ok(path);
  }
}
