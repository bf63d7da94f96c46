/** The code of the provider cache, proved against the transitions of `ProviderCache`. */
module ProviderCacheImpl {
  import opened Primitives
  import opened ProviderCache
  import opened ProviderTheorems

  class SubnetProviderCache {
    const maxSubnets: nat
    var pinnedSubnets: set<SubnetId>
    var routablePeers: set<PeerId>
    var subnetProviders: map<SubnetId, set<PeerId>>
    var peerTimestamps: map<PeerId, Timestamp>

    function State(): Cache
      reads this
    {
      Cache(maxSubnets, pinnedSubnets, routablePeers, subnetProviders, peerTimestamps)
    }

    constructor (maxSubnets: nat, staticSubnets: seq<SubnetId>)
      ensures State() == New(maxSubnets, ToSet(staticSubnets))
    {
      this.maxSubnets := maxSubnets;
      pinnedSubnets := ToSet(staticSubnets);
      routablePeers, subnetProviders, peerTimestamps := {}, map[], map[];
    }

    method PinSubnet(subnetId: SubnetId)
      modifies this
      ensures Step(old(State()), Event(Pin(subnetId), {}), State())
    {
      pinnedSubnets := pinnedSubnets + {subnetId};
    }

    method UnpinSubnet(subnetId: SubnetId)
      modifies this
      ensures Step(old(State()), Event(Unpin(subnetId), {}), State())
    {
      pinnedSubnets := pinnedSubnets - {subnetId};
    }

    method SetRoutable(peerId: PeerId)
      modifies this
      ensures Step(old(State()), Event(Op.SetRoutable(peerId), {}), State())
    {
      routablePeers := routablePeers + {peerId};
    }

    method SetUnroutable(peerId: PeerId)
      modifies this
      ensures State() == Forget(old(State()), {peerId})
    {
      routablePeers := routablePeers - {peerId};
      peerTimestamps := peerTimestamps - {peerId};
      RemoveEverywhere(peerId);
      WithoutPeerAnywhere(old(State()), peerId);
    }

    /** No subnet lists the peer any more; all subnets keep their entries. */
    method RemoveEverywhere(peerId: PeerId)
      modifies this`subnetProviders
      ensures subnetProviders == WithoutPeer(old(subnetProviders), peerId, old(subnetProviders).Keys)
    {
      ghost var was := subnetProviders;
      var rest := subnetProviders.Keys;
      WithoutPeerNowhere(was, peerId);
      assert was.Keys - rest == {};
      while rest != {}
        invariant rest <= was.Keys
        invariant subnetProviders == WithoutPeer(was, peerId, was.Keys - rest)
        decreases |rest|
      {
        var s :| s in rest;
        WithoutPeerMore(was, peerId, was.Keys - rest, s);
        assert (was.Keys - rest) + {s} == was.Keys - (rest - {s});
        rest := rest - {s};
        subnetProviders := subnetProviders[s := subnetProviders[s] - {peerId}];
      }
      assert was.Keys - rest == was.Keys;
    }

    /**
     A transition of the cache for one record. The peer's gains and losses are returned, except
     for a peer that is not routable.
     */
    method AddProvider(record: ProviderRecord) returns (result: Option<ProviderDelta>, ghost evicted: set<SubnetId>)
      modifies this
      ensures Step(old(State()), Event(Add(record), evicted), State())
      ensures result.Some? <==> record.peerId in old(routablePeers)
      ensures result.Some? ==> IsDelta(old(State()), record, State(), result.value)
    {
      if record.peerId !in routablePeers {
        return None, {};
      }
      var isNew := record.peerId !in peerTimestamps;
      var timestamp := if isNew then 0 else peerTimestamps[record.peerId];
      peerTimestamps := peerTimestamps[record.peerId := timestamp];
      if timestamp >= record.timestamp {
        return Some(ProviderDelta(isNew, [], [])), {};
      }
      peerTimestamps := peerTimestamps[record.peerId := record.timestamp];
      var added, removed;
      ghost var stamped := State();
      assert stamped == old(State()).(timestamps := old(peerTimestamps)[record.peerId := record.timestamp]);
      added, removed, evicted := ReplaceAssociations(record);
      result := Some(ProviderDelta(isNew, added, removed));
      RegisterStamped(old(State()), record);
      DeltaOfApplied(old(State()), record, evicted, State(), result.value);
    }

    /** The record's snapshot, less what the bound evicts, becomes all that its peer is listed under. */
    method ReplaceAssociations(record: ProviderRecord)
      returns (added: seq<SubnetId>, removed: seq<SubnetId>, ghost evicted: set<SubnetId>)
      requires record.peerId in peerTimestamps && peerTimestamps[record.peerId] == record.timestamp
      modifies this`subnetProviders
      ensures IsEviction(Register(old(State()), record), evicted)
      ensures State() == Evict(Register(old(State()), record), evicted)
      ensures Enumerates(removed, old(State()).SubnetsOf(record.peerId) - ToSet(record.subnetIds))
      ensures Enumerates(added, ToSet(record.subnetIds) - old(State()).SubnetsOf(record.peerId) - evicted)
    {
      hide IsEviction, Register, Evict;
      removed := RemoveFromOthers(record);
      ghost var without := State();
      var inserted := AddToNamed(record);
      RegisteredInTwoSteps(old(State()), record, without, State());
      var pruned := PruneSubnets();
      evicted := pruned;
      added := Retain(inserted, pruned);
    }

    /** What the record does not name is lost, and reported if it was listed. */
    method RemoveFromOthers(record: ProviderRecord) returns (removed: seq<SubnetId>)
      modifies this`subnetProviders
      ensures subnetProviders.Keys == old(subnetProviders).Keys
      ensures forall s :: s in subnetProviders ==>
        subnetProviders[s] == old(subnetProviders)[s] - (if s in record.subnetIds then {} else {record.peerId})
      ensures Enumerates(removed, old(State()).SubnetsOf(record.peerId) - ToSet(record.subnetIds))
    {
      removed := [];
      var rest := subnetProviders.Keys;
      while rest != {}
        invariant rest <= subnetProviders.Keys == old(subnetProviders.Keys)
        invariant forall s :: s in subnetProviders ==>
          subnetProviders[s] == old(subnetProviders)[s] -
            (if s in rest || s in record.subnetIds then {} else {record.peerId})
        invariant NoDuplicates(removed)
        invariant forall s :: s in removed <==>
          old(State()).Listed(record.peerId, s) && s !in rest && s !in record.subnetIds
        decreases |rest|
      {
        var s :| s in rest;
        rest := rest - {s};
        if s !in record.subnetIds && record.peerId in subnetProviders[s] {
          subnetProviders := subnetProviders[s := subnetProviders[s] - {record.peerId}];
          removed := removed + [s];
        }
      }
    }

    /** What the record names is gained, and reported once if it was not listed. */
    method AddToNamed(record: ProviderRecord) returns (added: seq<SubnetId>)
      modifies this`subnetProviders
      ensures subnetProviders == WithPeer(old(subnetProviders), record.peerId, ToSet(record.subnetIds))
      ensures Enumerates(added, ToSet(record.subnetIds) - old(State()).SubnetsOf(record.peerId))
    {
      added := [];
      WithPeerNowhere(subnetProviders, record.peerId);
      assert ToSet(record.subnetIds[..0]) == {};
      for i := 0 to |record.subnetIds|
        invariant subnetProviders == WithPeer(old(subnetProviders), record.peerId, ToSet(record.subnetIds[..i]))
        invariant NoDuplicates(added)
        invariant forall s :: s in added <==> s in record.subnetIds[..i] && !old(State()).Listed(record.peerId, s)
      {
        var s := record.subnetIds[i];
        assert record.subnetIds[..i + 1] == record.subnetIds[..i] + [s];
        assert ToSet(record.subnetIds[..i + 1]) == ToSet(record.subnetIds[..i]) + {s};
        WithPeerMore(old(subnetProviders), record.peerId, ToSet(record.subnetIds[..i]), s);
        var peers := if s in subnetProviders then subnetProviders[s] else {};
        if record.peerId !in peers {
          added := added + [s];
        }
        subnetProviders := subnetProviders[s := peers + {record.peerId}];
      }
      assert record.subnetIds[..|record.subnetIds|] == record.subnetIds;
    }

    static method Retain(ids: seq<SubnetId>, dropped: set<SubnetId>) returns (kept: seq<SubnetId>)
      requires NoDuplicates(ids)
      ensures Enumerates(kept, ToSet(ids) - dropped)
    {
      kept := [];
      for i := 0 to |ids|
        invariant NoDuplicates(kept)
        invariant forall s :: s in kept <==> s in ids[..i] && s !in dropped
      {
        assert ids[..i + 1] == ids[..i] + [ids[i]];
        if ids[i] !in dropped {
          kept := kept + [ids[i]];
        }
      }
      assert ids[..|ids|] == ids;
    }

    /** A subnet with the fewest providers. */
    method Smallest(ids: set<SubnetId>) returns (s: SubnetId)
      requires ids != {} && ids <= subnetProviders.Keys
      ensures s in ids && forall x :: x in ids ==> State().NoMoreProviders(s, x)
    {
      s :| s in ids;
      var seen := {s};
      while seen != ids
        invariant s in seen && seen <= ids
        invariant forall x :: x in seen ==> State().NoMoreProviders(s, x)
        decreases |ids - seen|
      {
        assert ids - seen != {};
        var x :| x in ids - seen;
        assert (ids - seen) - {x} == ids - (seen + {x});
        seen := seen + {x};
        if |subnetProviders[x]| < |subnetProviders[s]| {
          s := x;
        }
      }
    }

    /** The subnets ordered by their number of providers, ties in any order. */
    method SubnetsByCount() returns (order: seq<SubnetId>)
      ensures Enumerates(order, subnetProviders.Keys)
      ensures SortedByCount(State(), order)
    {
      order := [];
      var all := subnetProviders.Keys;
      var rest := all;
      while rest != {}
        invariant rest <= all && Enumerates(order, all - rest)
        invariant SortedByCount(State(), order) && NoneAbove(State(), order, rest)
        decreases |rest|
      {
        var s := Smallest(rest);
        EnumeratesMore(order, all - rest, s);
        SortedMore(State(), order, rest, s);
        assert (all - rest) + {s} == all - (rest - {s});
        rest := rest - {s};
        order := order + [s];
      }
      assert all - rest == all;
    }

    /** Remove unpinned subnets in the given order, until enough or all of them are removed. */
    method RemoveInOrder(order: seq<SubnetId>, toPrune: nat) returns (removed: set<SubnetId>, ghost n: nat)
      requires toPrune > 0
      modifies this`subnetProviders
      ensures State() == Evict(old(State()), removed)
      ensures n <= |order| && removed == Unpinned(order[..n], pinnedSubnets)
      ensures |removed| == toPrune || (|removed| < toPrune && n == |order|)
    {
      removed, n := {}, 0;
      var i := 0;
      while i < |order|
        invariant i <= |order|
        invariant subnetProviders == old(subnetProviders) - removed
        invariant removed == Unpinned(order[..i], pinnedSubnets)
        invariant |removed| < toPrune
      {
        var s := order[i];
        assert order[..i + 1] == order[..i] + [s];
        i := i + 1;
        if s in pinnedSubnets {
          continue;
        }
        assert old(subnetProviders) - removed - {s} == old(subnetProviders) - (removed + {s});
        subnetProviders := subnetProviders - {s};
        removed := removed + {s};
        if |removed| == toPrune {
          return removed, i;
        }
      }
      n := i;
    }

    /** Evicts down to the bound, or down to the pinned subnets. */
    method PruneSubnets() returns (removed: set<SubnetId>)
      modifies this`subnetProviders
      ensures IsEviction(old(State()), removed)
      ensures State() == Evict(old(State()), removed)
    {
      removed := {};
      var toPrune := if |subnetProviders.Keys| <= maxSubnets then 0 else |subnetProviders.Keys| - maxSubnets;
      if toPrune > 0 {
        var order := SubnetsByCount();
        ghost var n;
        removed, n := RemoveInOrder(order, toPrune);
        PrunedIsEviction(old(State()), order, n, removed);
      } else {
        NothingToEvict(State());
      }
    }

    /** The stale peers, once each, in any order. */
    method StalePeers(cutoff: Timestamp) returns (stale: seq<PeerId>)
      ensures Enumerates(stale, State().Stale(cutoff))
    {
      stale := [];
      var all := State().Stale(cutoff);
      var rest := all;
      while rest != {}
        invariant rest <= all && Enumerates(stale, all - rest)
        decreases |rest|
      {
        var p :| p in rest;
        EnumeratesMore(stale, all - rest, p);
        assert (all - rest) + {p} == all - (rest - {p});
        rest := rest - {p};
        stale := stale + [p];
      }
    }

    /** The stale peers are returned, once each, and nothing about them is kept. */
    method PruneProviders(cutoff: Timestamp) returns (pruned: seq<PeerId>)
      modifies this
      ensures Enumerates(pruned, old(State()).Stale(cutoff))
      ensures Step(old(State()), Event(Expire(cutoff), {}), State())
    {
      pruned := StalePeers(cutoff);
      ForgetNone(State());
      assert ToSet(pruned[..0]) == {};
      for i := 0 to |pruned|
        invariant State() == Forget(old(State()), ToSet(pruned[..i]))
      {
        assert ToSet(pruned[..i + 1]) == ToSet(pruned[..i]) + {pruned[i]};
        ForgetMore(old(State()), ToSet(pruned[..i]), {pruned[i]});
        SetUnroutable(pruned[i]);
      }
      assert pruned[..|pruned|] == pruned;
    }

    /** The listed peers, once each; none for a subnet without an entry. */
    method ProvidersOfSubnet(subnetId: SubnetId) returns (peers: seq<PeerId>)
      ensures NoDuplicates(peers)
      ensures forall p :: p in peers <==> State().Listed(p, subnetId)
    {
      peers := [];
      var rest := if subnetId in subnetProviders then subnetProviders[subnetId] else {};
      while rest != {}
        invariant NoDuplicates(peers)
        invariant forall p :: State().Listed(p, subnetId) <==> p in peers || p in rest
        invariant forall p :: p in rest ==> p !in peers
        decreases |rest|
      {
        var p :| p in rest;
        rest := rest - {p};
        peers := peers + [p];
      }
    }
  }

  lemma EnumeratesMore<T>(xs: seq<T>, s: set<T>, x: T)
    requires Enumerates(xs, s) && x !in s
    ensures Enumerates(xs + [x], s + {x})
  {
  }

  lemma ForgetNone(c: Cache)
    ensures Forget(c, {}) == c
  {
    forall s | s in c.providers
      ensures Forget(c, {}).providers[s] == c.providers[s]
    {
      assert c.providers[s] - {} == c.providers[s];
    }
    assert Forget(c, {}).providers == c.providers;
    assert Forget(c, {}).timestamps == c.timestamps;
  }

  lemma ForgetMore(c: Cache, ps: set<PeerId>, qs: set<PeerId>)
    ensures Forget(Forget(c, ps), qs) == Forget(c, ps + qs)
  {
    var once, twice := Forget(c, ps + qs), Forget(Forget(c, ps), qs);
    assert once.routable == twice.routable;
    assert once.timestamps == twice.timestamps;
    forall s | s in c.providers
      ensures once.providers[s] == twice.providers[s]
    {
      assert c.providers[s] - ps - qs == c.providers[s] - (ps + qs);
    }
    assert once.providers == twice.providers;
  }

  /** A peer is removed from the given subnets. */
  function WithoutPeer(m: map<SubnetId, set<PeerId>>, p: PeerId, ids: set<SubnetId>): map<SubnetId, set<PeerId>> {
    map s | s in m :: if s in ids then m[s] - {p} else m[s]
  }

  lemma WithoutPeerNowhere(m: map<SubnetId, set<PeerId>>, p: PeerId)
    ensures WithoutPeer(m, p, {}) == m
  {
  }

  lemma WithoutPeerMore(m: map<SubnetId, set<PeerId>>, p: PeerId, ids: set<SubnetId>, s: SubnetId)
    requires s in m && s !in ids
    ensures WithoutPeer(m, p, ids + {s}) == WithoutPeer(m, p, ids)[s := WithoutPeer(m, p, ids)[s] - {p}]
  {
  }

  lemma WithoutPeerAnywhere(c: Cache, p: PeerId)
    ensures WithoutPeer(c.providers, p, c.providers.Keys) == Forget(c, {p}).providers
  {
  }

  /** A peer is added to the given subnets, which get an entry if they have none. */
  function WithPeer(m: map<SubnetId, set<PeerId>>, p: PeerId, ids: set<SubnetId>): map<SubnetId, set<PeerId>> {
    map s | s in m.Keys + ids :: (if s in m then m[s] else {}) + (if s in ids then {p} else {})
  }

  lemma WithPeerNowhere(m: map<SubnetId, set<PeerId>>, p: PeerId)
    ensures WithPeer(m, p, {}) == m
  {
    forall s | s in m
      ensures WithPeer(m, p, {})[s] == m[s]
    {
      assert m[s] + {} == m[s];
    }
  }

  lemma WithPeerMore(m: map<SubnetId, set<PeerId>>, p: PeerId, ids: set<SubnetId>, s: SubnetId)
    ensures var w := WithPeer(m, p, ids);
      WithPeer(m, p, ids + {s}) == w[s := (if s in w then w[s] else {}) + {p}]
  {
    var w := WithPeer(m, p, ids);
    var w' := w[s := (if s in w then w[s] else {}) + {p}];
    forall x | x in w'
      ensures WithPeer(m, p, ids + {s})[x] == w'[x]
    {
      var was := if x in m then m[x] else {};
      assert was + {p} + {p} == was + {p} && was + {} == was;
    }
    assert WithPeer(m, p, ids + {s}).Keys == w'.Keys;
  }

  /** Removing a peer where it is no longer named, then adding it where it is, registers its record. */
  lemma RegisteredInTwoSteps(c: Cache, r: ProviderRecord, without: Cache, c': Cache)
    requires r.peerId in c.timestamps && c.timestamps[r.peerId] == r.timestamp
    requires without.providers.Keys == c.providers.Keys
    requires forall s :: s in c.providers ==>
      without.providers[s] == c.providers[s] - (if s in r.subnetIds then {} else {r.peerId})
    requires c' == c.(providers := WithPeer(without.providers, r.peerId, ToSet(r.subnetIds)))
    ensures c' == Register(c, r)
  {
    forall s | s in c'.providers
      ensures c'.providers[s] == Register(c, r).providers[s]
    {
      if s in c.providers {
        assert c.providers[s] - {} + {r.peerId} == c.providers[s] + {r.peerId};
        assert c.providers[s] - {r.peerId} + {} == c.providers[s] - {r.peerId};
      }
    }
    assert c'.providers == Register(c, r).providers;
    assert c.timestamps == c.timestamps[r.peerId := r.timestamp];
  }

  /** Setting the timestamp first makes no difference to what is registered. */
  lemma RegisterStamped(c: Cache, r: ProviderRecord)
    ensures Register(c.(timestamps := c.timestamps[r.peerId := r.timestamp]), r) == Register(c, r)
  {
  }

  lemma DeltaOfApplied(c: Cache, r: ProviderRecord, evicted: set<SubnetId>, c': Cache, d: ProviderDelta)
    requires Applies(c, r) && Moves(c, Event(Add(r), evicted), c')
    requires d.isNew == (r.peerId !in c.timestamps)
    requires Enumerates(d.removed, c.SubnetsOf(r.peerId) - ToSet(r.subnetIds))
    requires Enumerates(d.added, ToSet(r.subnetIds) - c.SubnetsOf(r.peerId) - evicted)
    ensures IsDelta(c, r, c', d)
  {
  }

  predicate SortedByCount(c: Cache, order: seq<SubnetId>) {
    forall i, j :: 0 <= i < j < |order| ==> c.NoMoreProviders(order[i], order[j])
  }

  predicate NoneAbove(c: Cache, order: seq<SubnetId>, rest: set<SubnetId>) {
    forall x, s :: x in order && s in rest ==> c.NoMoreProviders(x, s)
  }

  lemma SortedMore(c: Cache, order: seq<SubnetId>, rest: set<SubnetId>, s: SubnetId)
    requires SortedByCount(c, order) && NoneAbove(c, order, rest)
    requires s in rest && forall x :: x in rest ==> c.NoMoreProviders(s, x)
    ensures SortedByCount(c, order + [s]) && NoneAbove(c, order + [s], rest - {s})
  {
  }

  function Unpinned(ids: seq<SubnetId>, pinned: set<SubnetId>): set<SubnetId> {
    set s | s in ids && s !in pinned
  }

  /** Taking unpinned subnets from the front of a sorted order, until enough or all are taken, is an eviction. */
  lemma PrunedIsEviction(c: Cache, order: seq<SubnetId>, n: nat, removed: set<SubnetId>)
    requires Enumerates(order, c.providers.Keys) && SortedByCount(c, order)
    requires n <= |order| && removed == Unpinned(order[..n], c.pinned)
    requires |removed| == c.Excess() || (|removed| < c.Excess() && n == |order|)
    ensures IsEviction(c, removed)
  {
    assert forall s :: s in order <==> s in c.providers by {
      assert forall s :: s in order <==> s in ToSet(order);
    }
    assert removed <= c.Evictable();
    if n == |order| {
      assert order[..n] == order;
      assert removed == c.Evictable();
    }
    SubsetCardinality(removed, c.Evictable());
    forall v, s | v in removed && s in c.Evictable() && s !in removed
      ensures c.NoMoreProviders(v, s)
    {
      var i :| 0 <= i < n && order[i] == v;
      var j :| 0 <= j < |order| && order[j] == s;
    }
  }
}
