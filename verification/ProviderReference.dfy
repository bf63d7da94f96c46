/** The reference map that the repository's property tests compare the cache with. */
module ProviderReference {
  import opened Primitives
  import opened ProviderCache
  import opened ProviderHistory
  import opened ProviderTheorems
  import opened ProviderOrder

  /** The peer's first record among its latest names the subnet. */
  ghost predicate InReference(records: seq<ProviderRecord>, p: PeerId, s: SubnetId) {
    exists i :: FirstLatest(records, i) && records[i].peerId == p && s in records[i].subnetIds
  }

  /** What has been entered by the first `n` records. */
  ghost predicate InReferenceBy(records: seq<ProviderRecord>, n: nat, p: PeerId, s: SubnetId) {
    exists i :: i < n && FirstLatest(records, i) && records[i].peerId == p && s in records[i].subnetIds
  }

  predicate Holds(providers: map<SubnetId, set<PeerId>>, p: PeerId, s: SubnetId) {
    s in providers && p in providers[s]
  }

  method MaxTimestamps(records: seq<ProviderRecord>) returns (latest: map<PeerId, Timestamp>)
    ensures forall p :: p in latest <==> Heard(records, p)
    ensures forall p :: p in latest ==> latest[p] == MaxTimestamp(records, p)
  {
    latest := map[];
    for n := 0 to |records|
      invariant forall p :: p in latest <==> Heard(records[..n], p)
      invariant forall p :: (if p in latest then latest[p] else 0) == MaxTimestamp(records[..n], p)
    {
      var r := records[n];
      assert records[..n + 1] == records[..n] + [r];
      forall p {
        HeardAfter(records[..n], r, p);
      }
      var before := if r.peerId in latest then latest[r.peerId] else 0;
      latest := latest[r.peerId := if before < r.timestamp then r.timestamp else before];
    }
    assert records[..|records|] == records;
  }

  /** One of the first `n` records carries the peer's highest timestamp. */
  ghost predicate LatestSeen(records: seq<ProviderRecord>, n: nat, p: PeerId) {
    exists j :: 0 <= j < n && j < |records|
      && records[j].peerId == p && records[j].timestamp == MaxTimestamp(records, p)
  }

  lemma FirstLatestIff(records: seq<ProviderRecord>, n: nat)
    requires n < |records|
    ensures var p := records[n].peerId;
      FirstLatest(records, n) <==> records[n].timestamp == MaxTimestamp(records, p) && !LatestSeen(records, n, p)
  {
    MaxTimestampBounds(records, records[n].peerId);
  }

  /** What the n-th record adds. */
  lemma ReferenceGrows(records: seq<ProviderRecord>, n: nat, p: PeerId, s: SubnetId)
    requires n < |records|
    ensures InReferenceBy(records, n + 1, p, s) <==>
      || InReferenceBy(records, n, p, s)
      || (FirstLatest(records, n) && p == records[n].peerId && s in records[n].subnetIds)
    ensures LatestSeen(records, n + 1, p) <==>
      LatestSeen(records, n, p) || (p == records[n].peerId && records[n].timestamp == MaxTimestamp(records, p))
  {
  }

  method Enter(before: map<SubnetId, set<PeerId>>, r: ProviderRecord) returns (providers: map<SubnetId, set<PeerId>>)
    ensures forall p, s :: Holds(providers, p, s) <==> Holds(before, p, s) || (p == r.peerId && s in r.subnetIds)
  {
    providers := before;
    for k := 0 to |r.subnetIds|
      invariant forall p, s :: Holds(providers, p, s) <==>
        Holds(before, p, s) || (p == r.peerId && s in r.subnetIds[..k])
    {
      var s := r.subnetIds[k];
      assert r.subnetIds[..k + 1] == r.subnetIds[..k] + [s];
      providers := providers[s := (if s in providers then providers[s] else {}) + {r.peerId}];
    }
    assert r.subnetIds[..|r.subnetIds|] == r.subnetIds;
  }

  method BuildProviders(records: seq<ProviderRecord>) returns (providers: map<SubnetId, set<PeerId>>)
    ensures forall p, s :: Holds(providers, p, s) <==> InReference(records, p, s)
  {
    var latest := MaxTimestamps(records);
    providers := map[];
    var seen: set<PeerId> := {};
    for n := 0 to |records|
      invariant forall p :: p in seen <==> LatestSeen(records, n, p)
      invariant forall p, s :: Holds(providers, p, s) <==> InReferenceBy(records, n, p, s)
    {
      var r := records[n];
      assert Heard(records, r.peerId);
      FirstLatestIff(records, n);
      forall p, s {
        ReferenceGrows(records, n, p, s);
      }
      if r.timestamp != latest[r.peerId] {
        continue;
      }
      if r.peerId in seen {
        continue;
      }
      seen := seen + {r.peerId};
      providers := Enter(providers, r);
    }
    forall p, s
      ensures InReferenceBy(records, |records|, p, s) <==> InReference(records, p, s)
    {
    }
  }

  /**
   The cache equals the reference exactly when no peer's latest record has timestamp 0 and names
   a subnet: the cache reads 0 as "never heard" and drops what the reference would keep.
   */
  lemma CacheEqualsReferenceIff(maxSubnets: nat, pinned: set<SubnetId>, records: seq<ProviderRecord>, c: Cache)
    requires LeadsTo(maxSubnets, pinned, records, c)
    ensures (forall p, s :: c.Listed(p, s) <==> InReference(records, p, s))
       <==> (forall i :: FirstLatest(records, i) && records[i].timestamp == 0 ==> records[i].subnetIds == [])
  {
    forall p, s
      ensures c.Listed(p, s) <==> Provides(records, p, s)
    {
      DeliveryLists(maxSubnets, pinned, records, c, p, s);
    }
    if forall p, s :: c.Listed(p, s) <==> InReference(records, p, s) {
      forall i | FirstLatest(records, i) && records[i].timestamp == 0
        ensures records[i].subnetIds == []
      {
        ZeroTimestampProvidesNothing(records, i);
        if records[i].subnetIds != [] {
          assert InReference(records, records[i].peerId, records[i].subnetIds[0]);
          assert false;
        }
      }
    }
    if forall i :: FirstLatest(records, i) && records[i].timestamp == 0 ==> records[i].subnetIds == [] {
      forall p, s
        ensures InReference(records, p, s) <==> Provides(records, p, s)
      {
        if InReference(records, p, s) {
          var i :| FirstLatest(records, i) && records[i].peerId == p && s in records[i].subnetIds;
          assert Decides(records, p, i);
        }
      }
    }
  }

  /** The reference agrees with what the records provide about a subnet, or a record with timestamp 0 stands between. */
  lemma ReferenceIff(records: seq<ProviderRecord>, s: SubnetId)
    ensures (forall p :: Provides(records, p, s) <==> InReference(records, p, s))
       <==> (forall i :: FirstLatest(records, i) && records[i].timestamp == 0 ==> s !in records[i].subnetIds)
  {
    if forall p :: Provides(records, p, s) <==> InReference(records, p, s) {
      forall i | FirstLatest(records, i) && records[i].timestamp == 0
        ensures s !in records[i].subnetIds
      {
        var p, ids := records[i].peerId, records[i].subnetIds;
        ZeroTimestampProvidesNothing(records, i);
        assert s in ids ==> InReference(records, p, s);
      }
    }
    if forall i :: FirstLatest(records, i) && records[i].timestamp == 0 ==> s !in records[i].subnetIds {
      forall p
        ensures InReference(records, p, s) <==> Provides(records, p, s)
      {
        if InReference(records, p, s) {
          var i :| FirstLatest(records, i) && records[i].peerId == p && s in records[i].subnetIds;
          assert Decides(records, p, i);
        }
      }
    }
  }

  /**
   On a pinned subnet the cache equals the reference, however many others were evicted, exactly
   when no peer's latest record has timestamp 0 and names it.
   */
  lemma PinnedEqualsReferenceIff(
    maxSubnets: nat, pinned: set<SubnetId>, records: seq<ProviderRecord>, c: Cache, s: SubnetId)
    requires DeliveredTo(maxSubnets, pinned, records, c) && s in pinned
    ensures (forall p :: c.Listed(p, s) <==> InReference(records, p, s))
       <==> (forall i :: FirstLatest(records, i) && records[i].timestamp == 0 ==> s !in records[i].subnetIds)
  {
    hide FirstLatest, InReference, Provides;
    PinKeeps(maxSubnets, pinned, records, c, s);
    forall p
      ensures c.Listed(p, s) <==> Provides(records, p, s)
    {
      KeptLists(maxSubnets, pinned, records, c, p, s);
    }
    ReferenceIff(records, s);
  }

  lemma ZeroTimestampProvidesNothing(records: seq<ProviderRecord>, i: int)
    requires FirstLatest(records, i) && records[i].timestamp == 0
    ensures forall s :: !Provides(records, records[i].peerId, s)
  {
  }

  /** The smallest disagreement: one record with timestamp 0, which the reference lists and the cache does not. */
  lemma ZeroTimestampDisagrees(p: PeerId, s: SubnetId) returns (c: Cache)
    ensures var records := [ProviderRecord(p, [s], 0)];
      && LeadsTo(1, {}, records, c)
      && !c.Listed(p, s)
      && InReference(records, p, s)
  {
    var records := [ProviderRecord(p, [s], 0)];
    assert NamedBy(records) <= {s};
    SubsetCardinality(NamedBy(records), {s});
    c := DeliveryExists(1, {}, records);
    assert FirstLatest(records, 0) && records[0].peerId == p;
    ZeroTimestampProvidesNothing(records, 0);
    DeliveryLists(1, {}, records, c, p, s);
  }
}
