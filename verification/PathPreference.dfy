/** Which relays of a shuffle a diverse selection prefers, told from the shuffle and the subnets alone. */
module PathPreference {
  import opened ByteStrings
  import opened Topologies
  import opened Utf8
  import opened Wrappers

  /** Which /24 network an address belongs to; None when that is unknown. */
  type Classifier = Text -> Option<Subnet>
  type Subnet = b: Bytes | |b| == 3 witness Zeros(3)

  /** The k-th relay of the shuffle is of unknown subnet, or the first of its subnet. */
  predicate IsFirst(shuffled: seq<RelayInfo>, k: nat, subnetKey: Classifier)
    requires k < |shuffled|
  {
    var key := subnetKey(shuffled[k].address);
    key.None? || forall j :: 0 <= j < k ==> subnetKey(shuffled[j].address) != key
  }

  /** For each place of the shuffle, whether a first stands there or a repeat. */
  function Kinds(shuffled: seq<RelayInfo>, subnetKey: Classifier): (kinds: seq<bool>)
    ensures |kinds| == |shuffled|
  {
    seq(|shuffled|, k requires 0 <= k < |shuffled| => IsFirst(shuffled, k, subnetKey))
  }

  /** The order in which places are preferred: firsts before repeats, and each kind as shuffled. */
  predicate Before(kinds: seq<bool>, k: nat, l: nat)
    requires k < |kinds| && l < |kinds|
  {
    if kinds[k] == kinds[l] then k < l else kinds[k]
  }

  /** These places are the most preferred ones, most preferred first: each left out comes after each chosen. */
  ghost predicate TopPlaces(kinds: seq<bool>, pos: seq<nat>) {
    && (forall i :: 0 <= i < |pos| ==> pos[i] < |kinds|)
    && (forall i, j :: 0 <= i < j < |pos| ==> Before(kinds, pos[i], pos[j]))
    && (forall i, k: nat :: 0 <= i < |pos| && k < |kinds| && k !in pos ==> Before(kinds, pos[i], k))
  }

  /** The path is the most preferred relays of the shuffle, most preferred first; `pos` is where they stand. */
  ghost predicate MostPreferred(
    shuffled: seq<RelayInfo>, path: seq<RelayInfo>, pos: seq<nat>, subnetKey: Classifier)
  {
    TopPlaces(Kinds(shuffled, subnetKey), pos) && path == At(shuffled, pos)
  }

  /** The relays at some places of the shuffle. */
  function At(shuffled: seq<RelayInfo>, pos: seq<nat>): (r: seq<RelayInfo>)
    requires forall i :: 0 <= i < |pos| ==> pos[i] < |shuffled|
    ensures |r| == |pos|
  {
    seq(|pos|, i requires 0 <= i < |pos| => shuffled[pos[i]])
  }

  lemma AtAppend(shuffled: seq<RelayInfo>, pos: seq<nat>, k: nat)
    requires (forall i :: 0 <= i < |pos| ==> pos[i] < |shuffled|) && k < |shuffled|
    ensures At(shuffled, pos + [k]) == At(shuffled, pos) + [shuffled[k]]
  {
  }

  lemma AtConcat(shuffled: seq<RelayInfo>, p: seq<nat>, q: seq<nat>)
    requires forall i :: 0 <= i < |p| ==> p[i] < |shuffled|
    requires forall i :: 0 <= i < |q| ==> q[i] < |shuffled|
    ensures At(shuffled, p + q) == At(shuffled, p) + At(shuffled, q)
  {
  }

  lemma AtCut(shuffled: seq<RelayInfo>, pos: seq<nat>, n: nat)
    requires (forall i :: 0 <= i < |pos| ==> pos[i] < |shuffled|) && n <= |pos|
    ensures At(shuffled, pos[..n]) == At(shuffled, pos)[..n]
  {
  }

  /** Where the firsts, or the repeats, stand among the first n places. */
  function Where(kinds: seq<bool>, n: nat, kind: bool): (w: seq<nat>)
    requires n <= |kinds|
    ensures forall i :: 0 <= i < |w| ==> w[i] < n && kinds[w[i]] == kind
  {
    if n == 0 then []
    else if kinds[n - 1] == kind then Where(kinds, n - 1, kind) + [n - 1]
    else Where(kinds, n - 1, kind)
  }

  lemma AtWhere(shuffled: seq<RelayInfo>, kinds: seq<bool>, n: nat, kind: bool)
    requires n < |kinds| == |shuffled|
    ensures At(shuffled, Where(kinds, n + 1, kind)) ==
            if kinds[n] == kind then At(shuffled, Where(kinds, n, kind)) + [shuffled[n]]
            else At(shuffled, Where(kinds, n, kind))
  {
    if kinds[n] == kind {
      AtAppend(shuffled, Where(kinds, n, kind), n);
    }
  }

  ghost predicate Increasing(w: seq<nat>) {
    forall i, j :: 0 <= i < j < |w| ==> w[i] < w[j]
  }

  lemma IncreasingAppend(w: seq<nat>, n: nat)
    requires Increasing(w) && forall i :: 0 <= i < |w| ==> w[i] < n
    ensures Increasing(w + [n])
  {
  }

  lemma {:induction false} WhereIncreases(kinds: seq<bool>, n: nat, kind: bool)
    requires n <= |kinds|
    ensures Increasing(Where(kinds, n, kind))
  {
    if n > 0 {
      WhereIncreases(kinds, n - 1, kind);
      if kinds[n - 1] == kind {
        IncreasingAppend(Where(kinds, n - 1, kind), n - 1);
      }
    }
  }

  lemma {:induction false} WhereHas(kinds: seq<bool>, n: nat, kind: bool, k: nat)
    requires k < n <= |kinds| && kinds[k] == kind
    ensures k in Where(kinds, n, kind)
  {
    if k < n - 1 {
      WhereHas(kinds, n - 1, kind, k);
    }
  }

  /** All places, most preferred first. */
  lemma WholeOrder(kinds: seq<bool>)
    ensures var all := Where(kinds, |kinds|, true) + Where(kinds, |kinds|, false);
      && TopPlaces(kinds, all)
      && forall k: nat :: k < |kinds| ==> k in all
  {
    var w, v := Where(kinds, |kinds|, true), Where(kinds, |kinds|, false);
    WhereIncreases(kinds, |kinds|, true);
    WhereIncreases(kinds, |kinds|, false);
    forall k: nat | k < |kinds| ensures k in w + v {
      WhereHas(kinds, |kinds|, kinds[k], k);
    }
  }

  /** As many of the most preferred places as one likes are the most preferred that many places. */
  lemma FrontOfOrder(kinds: seq<bool>, all: seq<nat>, n: nat)
    requires TopPlaces(kinds, all) && n <= |all| && forall k: nat :: k < |kinds| ==> k in all
    ensures TopPlaces(kinds, all[..n])
  {
    var pos := all[..n];
    forall i, k: nat | 0 <= i < |pos| && k < |kinds| && k !in pos ensures Before(kinds, pos[i], k) {
      assert k in all && forall j :: 0 <= j < n ==> all[j] == pos[j] && pos[j] in pos;
      var j :| 0 <= j < |all| && all[j] == k;
    }
  }

  lemma NotBefore(kinds: seq<bool>, pos: seq<nat>, pos': seq<nat>, n: nat)
    requires TopPlaces(kinds, pos) && TopPlaces(kinds, pos')
    requires n < |pos| && n < |pos'| && forall i :: 0 <= i < n ==> pos[i] == pos'[i]
    ensures pos[n] == pos'[n] || Before(kinds, pos'[n], pos[n])
  {
    if pos[n] in pos' {
      var j :| 0 <= j < |pos'| && pos'[j] == pos[n];
      assert j < n ==> Before(kinds, pos[j], pos[n]);
    }
  }

  lemma {:induction false} SamePlaces(kinds: seq<bool>, pos: seq<nat>, pos': seq<nat>, n: nat)
    requires TopPlaces(kinds, pos) && TopPlaces(kinds, pos') && n <= |pos| == |pos'|
    ensures forall i :: 0 <= i < n ==> pos[i] == pos'[i]
  {
    if n > 0 {
      SamePlaces(kinds, pos, pos', n - 1);
      NotBefore(kinds, pos, pos', n - 1);
      NotBefore(kinds, pos', pos, n - 1);
    }
  }

  /** There is one such path of each length: the shuffle and the subnets settle it, relay by relay. */
  lemma MostPreferredIsUnique(
    shuffled: seq<RelayInfo>, path: seq<RelayInfo>, pos: seq<nat>,
    path': seq<RelayInfo>, pos': seq<nat>, subnetKey: Classifier)
    requires MostPreferred(shuffled, path, pos, subnetKey) && MostPreferred(shuffled, path', pos', subnetKey)
    requires |path| == |path'|
    ensures path == path'
  {
    SamePlaces(Kinds(shuffled, subnetKey), pos, pos', |pos|);
    assert pos == pos';
  }

  /** In particular no repeat comes before a first, and none is chosen while a first is left out. */
  lemma FirstsComeFirst(
    shuffled: seq<RelayInfo>, path: seq<RelayInfo>, pos: seq<nat>, subnetKey: Classifier, i: nat)
    requires MostPreferred(shuffled, path, pos, subnetKey) && i < |path|
    requires !IsFirst(shuffled, pos[i], subnetKey)
    ensures forall j :: i <= j < |path| ==> !IsFirst(shuffled, pos[j], subnetKey)
    ensures forall k: nat :: k < |shuffled| && IsFirst(shuffled, k, subnetKey) ==> k in pos[..i]
  {
    var kinds := Kinds(shuffled, subnetKey);
    forall k: nat | k < |shuffled| && IsFirst(shuffled, k, subnetKey) ensures k in pos[..i] {
      assert kinds[k] && !kinds[pos[i]];
      assert k in pos;
      var j :| 0 <= j < |pos| && pos[j] == k;
      assert j < i;
      assert pos[..i][j] == k;
    }
    forall j | i < j < |path| ensures !IsFirst(shuffled, pos[j], subnetKey) {
      assert Before(kinds, pos[i], pos[j]);
    }
  }
}
