/**
 The subnet provider cache: which peers provide which subnet, as learned from gossiped,
 timestamped snapshots, under a bound on the number of subnets.

 The module gives the transitions of the cache as a relation between values (the choice of
 victims during an eviction is not determined by the code) and the reference that every run is
 compared with in `ProviderHistory`. `ProviderCacheImpl` holds the code itself.
 */
module ProviderCache {
  import opened Primitives

  /** A snapshot of the subnets a peer provides, stamped when the peer published it. */
  datatype ProviderRecord = ProviderRecord(peerId: PeerId, subnetIds: seq<SubnetId>, timestamp: Timestamp)

  /** What a record changed about its peer: whether it was the first, and which associations came and went. */
  datatype ProviderDelta = ProviderDelta(isNew: bool, added: seq<SubnetId>, removed: seq<SubnetId>) {
    predicate IsEmpty() {
      added == [] && removed == []
    }
  }

  datatype Cache = Cache(
    maxSubnets: nat,
    pinned: set<SubnetId>,
    routable: set<PeerId>,
    providers: map<SubnetId, set<PeerId>>,
    timestamps: map<PeerId, Timestamp>)
  {
    predicate Listed(p: PeerId, s: SubnetId) {
      s in providers && p in providers[s]
    }

    function SubnetsOf(p: PeerId): set<SubnetId> {
      set s | s in providers && p in providers[s]
    }

    function TimestampOf(p: PeerId): Timestamp {
      if p in timestamps then timestamps[p] else 0
    }

    function Evictable(): set<SubnetId> {
      providers.Keys - pinned
    }

    function Excess(): nat {
      if |providers.Keys| <= maxSubnets then 0 else |providers.Keys| - maxSubnets
    }

    /** Either the bound holds, or only pinned subnets are left to exceed it. */
    predicate WithinBound() {
      |providers.Keys| <= maxSubnets || Evictable() == {}
    }

    predicate NoMoreProviders(s1: SubnetId, s2: SubnetId) {
      s1 in providers && s2 in providers && |providers[s1]| <= |providers[s2]|
    }

    /** Peers whose last record is older than a cutoff. */
    function Stale(cutoff: Timestamp): set<PeerId> {
      set p | p in timestamps && timestamps[p] < cutoff
    }
  }

  function New(maxSubnets: nat, pinned: set<SubnetId>): Cache {
    Cache(maxSubnets, pinned, {}, map[], map[])
  }

  /** Everything known about the peers in `ps` is dropped; no subnet entry is. */
  function Forget(c: Cache, ps: set<PeerId>): Cache {
    c.(routable := c.routable - ps,
       timestamps := c.timestamps - ps,
       providers := map s | s in c.providers :: c.providers[s] - ps)
  }

  /** The snapshot of a record replaces all the associations of its peer. */
  function Register(c: Cache, r: ProviderRecord): Cache {
    c.(timestamps := c.timestamps[r.peerId := r.timestamp],
       providers := map s | s in c.providers.Keys + ToSet(r.subnetIds) ::
         if s in r.subnetIds then (if s in c.providers then c.providers[s] else {}) + {r.peerId}
         else c.providers[s] - {r.peerId})
  }

  /**
   What the code promises of the set of evicted subnets: as many as the excess asks for and
   the pins allow, none of them pinned, and the least provided ones first.
   */
  predicate IsEviction(c: Cache, victims: set<SubnetId>) {
    && victims <= c.Evictable()
    && |victims| == (if c.Excess() <= |c.Evictable()| then c.Excess() else |c.Evictable()|)
    && forall v, s {:trigger c.NoMoreProviders(v, s)} ::
         v in victims && s in c.Evictable() && s !in victims ==> c.NoMoreProviders(v, s)
  }

  function Evict(c: Cache, victims: set<SubnetId>): Cache {
    c.(providers := c.providers - victims)
  }

  lemma NothingToEvict(c: Cache)
    requires c.Excess() == 0
    ensures IsEviction(c, {}) && Evict(c, {}) == c
  {
  }

  datatype Op =
    | Pin(subnetId: SubnetId)
    | Unpin(subnetId: SubnetId)
    | SetRoutable(peerId: PeerId)
    | SetUnroutable(peerId: PeerId)
    | Add(record: ProviderRecord)
    | Expire(cutoff: Timestamp)

  /** A call on the cache, with the subnets it happened to evict. */
  datatype Event = Event(op: Op, evicted: set<SubnetId>)

  /** Whether a record is newer than all we have from its peer. */
  predicate Applies(c: Cache, r: ProviderRecord) {
    r.peerId in c.routable && c.TimestampOf(r.peerId) < r.timestamp
  }

  /** How a call changes the cache, whichever unpinned subnets it evicts. */
  predicate Moves(c: Cache, e: Event, c': Cache) {
    if e.op.Add? && Applies(c, e.op.record) then
      && c' == Evict(Register(c, e.op.record), e.evicted)
      && e.evicted !! c.pinned
    else
      && e.evicted == {}
      && c' == match e.op
               case Pin(s) => c.(pinned := c.pinned + {s})
               case Unpin(s) => c.(pinned := c.pinned - {s})
               case SetRoutable(p) => c.(routable := c.routable + {p})
               case SetUnroutable(p) => Forget(c, {p})
               case Expire(cutoff) => Forget(c, c.Stale(cutoff))
               case Add(r) =>
                 // A record that is not newer still marks the peer as seen.
                 if r.peerId in c.routable then
                   c.(timestamps := c.timestamps[r.peerId := c.TimestampOf(r.peerId)])
                 else c
  }

  /** The transitions of the cache: only an applied record evicts, and only what the bound demands. */
  predicate Step(c: Cache, e: Event, c': Cache) {
    Moves(c, e, c') && (e.op.Add? && Applies(c, e.op.record) ==> IsEviction(Register(c, e.op.record), e.evicted))
  }

  /** The delta reported for a record: exactly what the record changed about its peer. */
  predicate IsDelta(c: Cache, r: ProviderRecord, c': Cache, d: ProviderDelta) {
    var p := r.peerId;
    && d.isNew == (p !in c.timestamps)
    && Enumerates(d.added, c'.SubnetsOf(p) - c.SubnetsOf(p))
    && Enumerates(d.removed, if Applies(c, r) then c.SubnetsOf(p) - ToSet(r.subnetIds) else {})
  }

  /** An applied record's snapshot is what its peer is listed under, up to eviction; no other peer moves. */
  lemma AddSetsAssociations(c: Cache, r: ProviderRecord, evicted: set<SubnetId>, c': Cache, q: PeerId)
    requires Moves(c, Event(Add(r), evicted), c')
    ensures c'.SubnetsOf(q) ==
      (if q == r.peerId && Applies(c, r) then ToSet(r.subnetIds) else c.SubnetsOf(q)) - evicted
  {
  }

  /** A peer loses the associations its record dropped, and those of its subnets that were evicted. */
  lemma DeltaAccountsForLosses(c: Cache, r: ProviderRecord, evicted: set<SubnetId>, c': Cache, d: ProviderDelta)
    requires Moves(c, Event(Add(r), evicted), c')
    requires IsDelta(c, r, c', d)
    ensures c.SubnetsOf(r.peerId) - c'.SubnetsOf(r.peerId)
         == ToSet(d.removed) + ToSet(r.subnetIds) * evicted * c.SubnetsOf(r.peerId)
    ensures c'.SubnetsOf(r.peerId)
         == c.SubnetsOf(r.peerId) - ToSet(d.removed) + ToSet(d.added) - evicted
  {
  }

  // ---------- Runs ----------

  /** `states` are the caches before, between and after the calls of `t`. */
  predicate Run(states: seq<Cache>, t: seq<Event>) {
    && |states| == |t| + 1
    && forall i {:trigger t[i]} :: 0 <= i < |t| ==> Step(states[i], t[i], states[i + 1])
  }

  predicate IsRunFrom(maxSubnets: nat, pinned: set<SubnetId>, states: seq<Cache>, t: seq<Event>) {
    Run(states, t) && states[0] == New(maxSubnets, pinned)
  }
}
