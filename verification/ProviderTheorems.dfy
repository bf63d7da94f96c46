/** Consequences of the history theorem: when the cache equals the reference, and what the bound keeps. */
module ProviderTheorems {
  import opened Primitives
  import opened ProviderCache
  import opened ProviderHistory

  // ---------- All runs ----------

  /** Only peers we heard from are listed, only routable peers are heard, and only for what they announced last. */
  lemma ListedOnlyIfAnnounced(
    maxSubnets: nat, pinned: set<SubnetId>, states: seq<Cache>, t: seq<Event>, p: PeerId, s: SubnetId)
    requires IsRunFrom(maxSubnets, pinned, states, t)
    ensures p in states[|t|].timestamps ==> p in states[|t|].routable
    ensures states[|t|].Listed(p, s) ==>
      && p in states[|t|].timestamps
      && SessionAfter(t, p).Up?
      && Provides(SessionAfter(t, p).log, p, s)
  {
    var c := states[|t|];
    CacheFollowsHistory(maxSubnets, pinned, states, t, p);
    if c.Listed(p, s) {
      assert s in c.SubnetsOf(p);
      var log := SessionAfter(t, p).log;
      var i :| Decides(log, p, i) && s in log[i].subnetIds;
    }
  }

  lemma {:induction false} LostWasEvicted(t: seq<Event>, p: PeerId, s: SubnetId)
    requires forall i :: 0 <= i < |t| ==> s !in t[i].evicted
    ensures SessionAfter(t, p).Up? ==> s !in SessionAfter(t, p).lost
  {
    if t != [] {
      LostWasEvicted(t[..|t| - 1], p, s);
    }
  }

  /** For a subnet that is never evicted, the cache and the reference agree in both directions. */
  lemma ExactUnlessEvicted(
    maxSubnets: nat, pinned: set<SubnetId>, states: seq<Cache>, t: seq<Event>, p: PeerId, s: SubnetId)
    requires IsRunFrom(maxSubnets, pinned, states, t)
    requires forall i :: 0 <= i < |t| ==> s !in t[i].evicted
    ensures states[|t|].Listed(p, s) <==> SessionAfter(t, p).Up? && Provides(SessionAfter(t, p).log, p, s)
  {
    CacheFollowsHistory(maxSubnets, pinned, states, t, p);
    LostWasEvicted(t, p, s);
    assert states[|t|].Listed(p, s) ==> s in states[|t|].SubnetsOf(p);
  }

  /** A subnet that stays pinned is tracked exactly, whatever else floods the cache. */
  lemma ExactWhilePinned(
    maxSubnets: nat, pinned: set<SubnetId>, states: seq<Cache>, t: seq<Event>, p: PeerId, s: SubnetId)
    requires IsRunFrom(maxSubnets, pinned, states, t)
    requires forall i :: 0 <= i < |states| ==> s in states[i].pinned
    ensures states[|t|].Listed(p, s) <==> SessionAfter(t, p).Up? && Provides(SessionAfter(t, p).log, p, s)
  {
    forall i | 0 <= i < |t|
      ensures s !in t[i].evicted
    {
      assert Step(states[i], t[i], states[i + 1]);
      assert s in states[i].pinned;
    }
    ExactUnlessEvicted(maxSubnets, pinned, states, t, p, s);
  }

  // ---------- Capacity ----------

  /** All the subnets named by the records of a run. */
  ghost function Named(t: seq<Event>): set<SubnetId> {
    if t == [] then {} else
      Named(t[..|t| - 1]) + (if t[|t| - 1].op.Add? then ToSet(t[|t| - 1].op.record.subnetIds) else {})
  }

  lemma SubsetCardinality<T>(a: set<T>, b: set<T>)
    requires a <= b
    ensures |a| <= |b|
    ensures a == b || |a| < |b|
  {
    if b - a == {} {
      assert a == b;
    } else {
      var x :| x in b - a;
      SubsetCardinality(a, b - {x});
    }
  }

  lemma NoExcessNoEviction(c: Cache, victims: set<SubnetId>, names: set<SubnetId>)
    requires IsEviction(c, victims)
    requires c.providers.Keys <= names && |names| <= c.maxSubnets
    ensures victims == {}
  {
    SubsetCardinality(c.providers.Keys, names);
  }

  /** When the subnets ever named fit the bound, nothing is ever evicted. */
  lemma {:induction false} RoomMeansNoEviction(
    maxSubnets: nat, pinned: set<SubnetId>, states: seq<Cache>, t: seq<Event>, room: set<SubnetId>)
    requires IsRunFrom(maxSubnets, pinned, states, t)
    requires Named(t) <= room && |room| <= maxSubnets
    ensures forall i :: 0 <= i < |t| ==> t[i].evicted == {}
    ensures states[|t|].providers.Keys <= Named(t)
    ensures states[|t|].maxSubnets == maxSubnets
    decreases |t|
  {
    if t != [] {
      var n := |t| - 1;
      RoomMeansNoEviction(maxSubnets, pinned, states[..n + 1], t[..n], room);
      assert Step(states[n], t[n], states[n + 1]);
      KeysAfter(states[n], t[n], states[n + 1]);
      if t[n].op.Add? && Applies(states[n], t[n].op.record) {
        NoExcessNoEviction(Register(states[n], t[n].op.record), t[n].evicted, room);
      }
    }
  }

  lemma KeysAfter(c: Cache, e: Event, c': Cache)
    requires Moves(c, e, c')
    ensures c'.maxSubnets == c.maxSubnets
    ensures c'.providers.Keys ==
      c.providers.Keys + (if e.op.Add? && Applies(c, e.op.record) then ToSet(e.op.record.subnetIds) else {}) - e.evicted
    ensures !e.op.Unpin? ==> c.pinned <= c'.pinned
  {
  }

  /** After eviction the bound holds, or there is nothing left that may be evicted. */
  lemma EvictionRestoresBound(c: Cache, victims: set<SubnetId>)
    requires IsEviction(c, victims)
    ensures Evict(c, victims).WithinBound()
  {
    var c' := Evict(c, victims);
    assert c'.providers.Keys == c.providers.Keys - victims;
    assert c'.providers.Keys + victims == c.providers.Keys;
    assert |c'.providers.Keys| == |c.providers.Keys| - |victims|;
    SubsetCardinality(victims, c.Evictable());
  }

  lemma BoundAfter(c: Cache, e: Event, c': Cache)
    requires Step(c, e, c')
    requires c.WithinBound() && !e.op.Unpin?
    ensures c'.WithinBound()
  {
    if e.op.Add? && Applies(c, e.op.record) {
      EvictionRestoresBound(Register(c, e.op.record), e.evicted);
    } else {
      KeysAfter(c, e, c');
      assert |c'.providers.Keys| == |c.providers.Keys|;
    }
  }

  /** Without unpinning, the bound holds throughout every run. */
  lemma {:induction false} BoundHolds(
    maxSubnets: nat, pinned: set<SubnetId>, states: seq<Cache>, t: seq<Event>, i: nat)
    requires IsRunFrom(maxSubnets, pinned, states, t)
    requires forall j :: 0 <= j < |t| ==> !t[j].op.Unpin?
    requires i <= |t|
    ensures states[i].WithinBound()
  {
    if i != 0 {
      BoundHolds(maxSubnets, pinned, states, t, i - 1);
      BoundAfter(states[i - 1], t[i - 1], states[i]);
    }
  }

  /** Whatever came before, the bound holds again as soon as one record is applied. */
  lemma AppliedRecordRestoresBound(c: Cache, r: ProviderRecord, evicted: set<SubnetId>, c': Cache)
    requires Step(c, Event(Add(r), evicted), c') && Applies(c, r)
    ensures c'.WithinBound()
  {
    EvictionRestoresBound(Register(c, r), evicted);
  }

  /** The peers listed for a subnet once a record has replaced all the associations of its peer. */
  function ListedWith(c: Cache, r: ProviderRecord, s: SubnetId): set<PeerId> {
    (if s in c.providers then c.providers[s] - {r.peerId} else {}) + if s in r.subnetIds then {r.peerId} else {}
  }

  lemma RegisterLists(c: Cache, r: ProviderRecord, s: SubnetId)
    requires s in Register(c, r).providers
    ensures Register(c, r).providers[s] == ListedWith(c, r, s)
  {
  }

  /**
   In every run, a subnet is evicted only to make room and only if no unpinned survivor has fewer
   providers: the least provided go first, and no more of them than the bound asks for.
   */
  lemma LeastProvidedGoFirst(
    maxSubnets: nat, pinned: set<SubnetId>, states: seq<Cache>, t: seq<Event>, i: nat, v: SubnetId, s: SubnetId)
    requires IsRunFrom(maxSubnets, pinned, states, t) && i < |t| && v in t[i].evicted
    ensures t[i].op.Add? && v !in states[i].pinned && v !in states[i + 1].providers
    ensures |states[i + 1].providers.Keys| >= states[i].maxSubnets
    ensures s in states[i + 1].providers && s !in states[i].pinned ==>
      |ListedWith(states[i], t[i].op.record, v)| <= |ListedWith(states[i], t[i].op.record, s)|
  {
    assert Step(states[i], t[i], states[i + 1]);
    EvictionChoosesLeast(states[i], t[i].op.record, t[i].evicted, states[i + 1], v, s);
  }

  lemma EvictionChoosesLeast(c: Cache, r: ProviderRecord, evicted: set<SubnetId>, c': Cache, v: SubnetId, s: SubnetId)
    requires Applies(c, r) && IsEviction(Register(c, r), evicted) && v in evicted
    requires c' == Evict(Register(c, r), evicted)
    ensures v !in c.pinned && v !in c'.providers
    ensures |c'.providers.Keys| >= c.maxSubnets
    ensures s in c'.providers && s !in c.pinned ==> |ListedWith(c, r, v)| <= |ListedWith(c, r, s)|
  {
    EvictsNoMoreThanNeeded(Register(c, r), evicted, v);
    EvictsLeast(Register(c, r), evicted, v, s);
    hide IsEviction, ListedWith;
    RegisterLists(c, r, v);
    if s in c'.providers {
      RegisterLists(c, r, s);
    }
  }

  lemma EvictsNoMoreThanNeeded(c: Cache, evicted: set<SubnetId>, v: SubnetId)
    requires IsEviction(c, evicted) && v in evicted
    ensures |Evict(c, evicted).providers.Keys| >= c.maxSubnets
  {
    var left := Evict(c, evicted).providers.Keys;
    assert left == c.providers.Keys - evicted;
    assert left + evicted == c.providers.Keys;
    assert |left| == |c.providers.Keys| - |evicted|;
  }

  lemma EvictsLeast(c: Cache, evicted: set<SubnetId>, v: SubnetId, s: SubnetId)
    requires IsEviction(c, evicted) && v in evicted
    ensures v in c.providers && v !in c.pinned && v !in Evict(c, evicted).providers
    ensures s in Evict(c, evicted).providers && s !in c.pinned ==>
      s in c.providers && |c.providers[v]| <= |c.providers[s]|
  {
    if s in Evict(c, evicted).providers && s !in c.pinned {
      assert s in c.Evictable() && s !in evicted;
      assert c.NoMoreProviders(v, s);
    }
  }

  /** Unpinning does not evict: it leaves the bound intact exactly when there is no excess or nothing to release. */
  lemma UnpinKeepsBoundIff(c: Cache, s: SubnetId, c': Cache)
    requires Step(c, Event(Unpin(s), {}), c')
    requires c.WithinBound()
    ensures c'.WithinBound() <==> |c.providers.Keys| <= c.maxSubnets || s !in c.providers
  {
    if s in c.providers {
      assert s in c'.Evictable();
    } else {
      assert c'.Evictable() == c.Evictable();
    }
  }

  // ---------- Delivering a list of records ----------

  /** Each record is delivered once, its peer having been made routable just before. */
  predicate Delivers(t: seq<Event>, records: seq<ProviderRecord>) {
    if records == [] then t == [] else
      var n, r := |t| - 2, records[|records| - 1];
      && 0 <= n
      && t[n].op == SetRoutable(r.peerId)
      && t[n + 1].op == Add(r)
      && Delivers(t[..n], records[..|records| - 1])
  }

  lemma SessionOfOneDelivery(t: seq<Event>, r: ProviderRecord, p: PeerId)
    requires |t| >= 2 && t[|t| - 2].op == SetRoutable(r.peerId) && t[|t| - 1].op == Add(r)
    ensures var was, now := SessionAfter(t[..|t| - 2], p), SessionAfter(t, p);
      && (now.Up? <==> was.Up? || r.peerId == p)
      && (now.Up? ==> now.log == (if was.Up? then was.log else []) + [r])
  {
    var t1 := t[..|t| - 1];
    assert t1[..|t1| - 1] == t[..|t| - 2];
    assert SessionAfter(t1, p) == NextSession(SessionAfter(t[..|t| - 2], p), t[|t| - 2], p);
  }

  lemma LastDelivery(t: seq<Event>, records: seq<ProviderRecord>)
    requires Delivers(t, records) && records != []
    ensures var r := records[|records| - 1];
      |t| >= 2 && t[|t| - 2].op == SetRoutable(r.peerId) && t[|t| - 1].op == Add(r)
    ensures Delivers(t[..|t| - 2], records[..|records| - 1])
  {
  }

  lemma SliceMore(records: seq<ProviderRecord>, r: ProviderRecord, k: nat)
    requires k <= |records|
    ensures (records + [r])[..k] == records[..k] && (records + [r])[k..] == records[k..] + [r]
  {
  }

  /** The session's log is the records from the k-th on, and the peer has none before that. */
  ghost predicate LogsFrom(session: Session, records: seq<ProviderRecord>, p: PeerId, k: nat) {
    && (session.Up? <==> Heard(records, p))
    && k <= |records|
    && !Heard(records[..k], p)
    && (session.Up? ==> session.log == records[k..])
  }

  lemma LogGrows(was: Session, now: Session, records: seq<ProviderRecord>, r: ProviderRecord, p: PeerId, k0: nat)
    returns (k: nat)
    requires LogsFrom(was, records, p, k0)
    requires now.Up? <==> was.Up? || r.peerId == p
    requires now.Up? ==> now.log == (if was.Up? then was.log else []) + [r]
    ensures LogsFrom(now, records + [r], p, k)
  {
    HeardAfter(records, r, p);
    k := if was.Up? then k0 else |records|;
    SliceMore(records, r, k);
    assert records[..|records|] == records && records[|records|..] == [];
  }

  lemma {:induction false} SessionOfDelivery(t: seq<Event>, records: seq<ProviderRecord>, p: PeerId) returns (k: nat)
    requires Delivers(t, records)
    ensures LogsFrom(SessionAfter(t, p), records, p, k)
    decreases |records|
  {
    if records == [] {
      return 0;
    }
    hide *;
    var n := |records| - 1;
    LastDelivery(t, records);
    var before := t[..|t| - 2];
    k := SessionOfDelivery(before, records[..n], p);
    SessionOfOneDelivery(t, records[n], p);
    k := LogGrows(SessionAfter(before, p), SessionAfter(t, p), records[..n], records[n], p, k);
    assert records[..n] + [records[n]] == records;
  }

  lemma NotHeardBefore(records: seq<ProviderRecord>, k: nat, p: PeerId)
    requires k <= |records| && !Heard(records[..k], p)
    ensures forall i :: 0 <= i < k ==> records[i].peerId != p
  {
  }

  lemma ProvidesOnlyIfHeard(log: seq<ProviderRecord>, p: PeerId, s: SubnetId)
    requires Provides(log, p, s)
    ensures Heard(log, p)
  {
  }

  /** Records of other peers at the front do not matter. */
  lemma ProvidesIgnoresPrefix(records: seq<ProviderRecord>, k: nat, p: PeerId, s: SubnetId)
    requires k <= |records| && !Heard(records[..k], p)
    ensures Provides(records[k..], p, s) <==> Provides(records, p, s)
    ensures Heard(records[k..], p) <==> Heard(records, p)
  {
    var rest := records[k..];
    NotHeardBefore(records, k, p);
    assert forall j :: 0 <= j < |rest| ==> rest[j] == records[k + j];
    forall i
      ensures Decides(records, p, i) ==> Decides(rest, p, i - k)
      ensures Decides(rest, p, i) ==> Decides(records, p, i + k)
    {
      assert 0 <= i < |rest| ==> rest[i] == records[k + i];
    }
    if Provides(records, p, s) {
      var i :| Decides(records, p, i) && s in records[i].subnetIds;
      assert Decides(rest, p, i - k);
    }
    if Heard(records, p) {
      var i :| 0 <= i < |records| && records[i].peerId == p;
      assert rest[i - k] == records[i];
    }
  }

  /** The cache that delivering the records to a new one may lead to, whatever is evicted on the way. */
  ghost predicate DeliveredTo(maxSubnets: nat, pinned: set<SubnetId>, records: seq<ProviderRecord>, c: Cache) {
    exists states, t ::
      && IsRunFrom(maxSubnets, pinned, states, t)
      && Delivers(t, records)
      && c == states[|t|]
  }

  /** The same, the subnets named fitting the bound. */
  ghost predicate LeadsTo(maxSubnets: nat, pinned: set<SubnetId>, records: seq<ProviderRecord>, c: Cache) {
    exists states, t ::
      && IsRunFrom(maxSubnets, pinned, states, t)
      && Delivers(t, records)
      && |Named(t)| <= maxSubnets
      && c == states[|t|]
  }

  /** The same, one subnet never being evicted. */
  ghost predicate Keeps(maxSubnets: nat, pinned: set<SubnetId>, records: seq<ProviderRecord>, c: Cache, s: SubnetId) {
    exists states, t ::
      && IsRunFrom(maxSubnets, pinned, states, t)
      && Delivers(t, records)
      && NeverEvicts(t, s)
      && c == states[|t|]
  }

  predicate NeverEvicts(t: seq<Event>, s: SubnetId) {
    forall i :: 0 <= i < |t| ==> s !in t[i].evicted
  }

  /** Delivery lists what the records provide, except for what was evicted since the deciding record. */
  lemma DeliveryListsUnlessLost(
    maxSubnets: nat, pinned: set<SubnetId>, states: seq<Cache>, t: seq<Event>, records: seq<ProviderRecord>,
    p: PeerId, s: SubnetId)
    requires IsRunFrom(maxSubnets, pinned, states, t) && Delivers(t, records)
    ensures states[|t|].Listed(p, s) <==>
      Provides(records, p, s) && (SessionAfter(t, p).Up? ==> s !in SessionAfter(t, p).lost)
  {
    CacheFollowsHistory(maxSubnets, pinned, states, t, p);
    var k := SessionOfDelivery(t, records, p);
    assert states[|t|].Listed(p, s) <==> s in states[|t|].SubnetsOf(p);
    if SessionAfter(t, p).Up? {
      ProvidesIgnoresPrefix(records, k, p, s);
    } else if Provides(records, p, s) {
      ProvidesOnlyIfHeard(records, p, s);
    }
  }

  /** For a subnet that is kept, delivering a list of records lists exactly what the list provides. */
  lemma KeptLists(
    maxSubnets: nat, pinned: set<SubnetId>, records: seq<ProviderRecord>, c: Cache, p: PeerId, s: SubnetId)
    requires Keeps(maxSubnets, pinned, records, c, s)
    ensures c.Listed(p, s) <==> Provides(records, p, s)
  {
    var states, t :| IsRunFrom(maxSubnets, pinned, states, t) && Delivers(t, records)
      && NeverEvicts(t, s) && c == states[|t|];
    DeliveryListsUnlessLost(maxSubnets, pinned, states, t, records, p, s);
    LostWasEvicted(t, p, s);
  }

  /** With room for all the subnets named, each is kept. */
  lemma RoomKeeps(maxSubnets: nat, pinned: set<SubnetId>, records: seq<ProviderRecord>, c: Cache, s: SubnetId)
    requires LeadsTo(maxSubnets, pinned, records, c)
    ensures Keeps(maxSubnets, pinned, records, c, s) && DeliveredTo(maxSubnets, pinned, records, c)
  {
    var states, t :| IsRunFrom(maxSubnets, pinned, states, t) && Delivers(t, records)
      && |Named(t)| <= maxSubnets && c == states[|t|];
    RoomMeansNoEviction(maxSubnets, pinned, states, t, Named(t));
  }

  lemma {:induction false} DeliveryOps(t: seq<Event>, records: seq<ProviderRecord>, i: nat)
    requires Delivers(t, records) && i < |t|
    ensures t[i].op.SetRoutable? || t[i].op.Add?
    decreases |records|
  {
    var n := |t| - 2;
    if i < n {
      DeliveryOps(t[..n], records[..|records| - 1], i);
    }
  }

  lemma {:induction false} PinsStay(
    maxSubnets: nat, pinned: set<SubnetId>, states: seq<Cache>, t: seq<Event>, records: seq<ProviderRecord>, i: nat)
    requires IsRunFrom(maxSubnets, pinned, states, t) && Delivers(t, records) && i <= |t|
    ensures states[i].pinned == pinned
  {
    if i > 0 {
      PinsStay(maxSubnets, pinned, states, t, records, i - 1);
      DeliveryOps(t, records, i - 1);
      assert Moves(states[i - 1], t[i - 1], states[i]);
    }
  }

  /** A pinned subnet is kept, whatever else floods the cache. */
  lemma PinKeeps(maxSubnets: nat, pinned: set<SubnetId>, records: seq<ProviderRecord>, c: Cache, s: SubnetId)
    requires DeliveredTo(maxSubnets, pinned, records, c) && s in pinned
    ensures Keeps(maxSubnets, pinned, records, c, s)
  {
    var states: seq<Cache>, t: seq<Event> :|
      IsRunFrom(maxSubnets, pinned, states, t) && Delivers(t, records) && c == states[|t|];
    forall i | 0 <= i < |t|
      ensures s !in t[i].evicted
    {
      PinsStay(maxSubnets, pinned, states, t, records, i);
      assert Moves(states[i], t[i], states[i + 1]);
    }
  }

  /** Without eviction, delivering a list of records lists exactly what the list provides. */
  lemma DeliveryLists(
    maxSubnets: nat, pinned: set<SubnetId>, records: seq<ProviderRecord>, c: Cache, p: PeerId, s: SubnetId)
    requires LeadsTo(maxSubnets, pinned, records, c)
    ensures c.Listed(p, s) <==> Provides(records, p, s)
  {
    RoomKeeps(maxSubnets, pinned, records, c, s);
    KeptLists(maxSubnets, pinned, records, c, p, s);
  }

  // ---------- Expiry ----------

  function Since(records: seq<ProviderRecord>, cutoff: Timestamp): seq<ProviderRecord> {
    if records == [] then [] else
      var r := records[|records| - 1];
      Since(records[..|records| - 1], cutoff) + (if cutoff <= r.timestamp then [r] else [])
  }

  lemma {:induction false} ProvidesSince(records: seq<ProviderRecord>, cutoff: Timestamp, p: PeerId, s: SubnetId)
    ensures Provides(Since(records, cutoff), p, s) <==> MaxTimestamp(records, p) >= cutoff && Provides(records, p, s)
    ensures MaxTimestamp(Since(records, cutoff), p) ==
      if MaxTimestamp(records, p) >= cutoff then MaxTimestamp(records, p) else 0
  {
    if records == [] {
      assert !Provides([], p, s);
    } else {
      var init, r := records[..|records| - 1], records[|records| - 1];
      ProvidesSince(init, cutoff, p, s);
      assert records == init + [r];
      HeardAfter(init, r, p);
      ProvidesAfter(init, r, p, s);
      HeardAfter(Since(init, cutoff), r, p);
      ProvidesAfter(Since(init, cutoff), r, p, s);
      assert Since(init, cutoff) + [] == Since(init, cutoff);
    }
  }

  lemma {:induction false} MaxIgnoresPrefix(records: seq<ProviderRecord>, k: nat, p: PeerId)
    requires k <= |records| && !Heard(records[..k], p)
    ensures MaxTimestamp(records[k..], p) == MaxTimestamp(records, p)
  {
    MaxTimestampBounds(records, p);
    MaxTimestampBounds(records[k..], p);
    var rest := records[k..];
    NotHeardBefore(records, k, p);
    assert forall j :: 0 <= j < |records| && records[j].peerId == p ==> rest[j - k] == records[j];
    assert forall j :: 0 <= j < |rest| ==> rest[j] == records[k + j];
  }

  lemma StaleIff(
    maxSubnets: nat, pinned: set<SubnetId>, records: seq<ProviderRecord>, c: Cache, cutoff: Timestamp, p: PeerId)
    requires DeliveredTo(maxSubnets, pinned, records, c)
    ensures p in c.Stale(cutoff) <==> Heard(records, p) && MaxTimestamp(records, p) < cutoff
  {
    var states, t :| IsRunFrom(maxSubnets, pinned, states, t) && Delivers(t, records) && c == states[|t|];
    CacheFollowsHistory(maxSubnets, pinned, states, t, p);
    var k := SessionOfDelivery(t, records, p);
    if SessionAfter(t, p).Up? {
      ProvidesIgnoresPrefix(records, k, p, SubnetId(""));
      MaxIgnoresPrefix(records, k, p);
    }
  }

  lemma ExpiryUnlists(c: Cache, cutoff: Timestamp, c': Cache, p: PeerId, s: SubnetId)
    requires Moves(c, Event(Expire(cutoff), {}), c')
    ensures c'.Listed(p, s) <==> c.Listed(p, s) && p !in c.Stale(cutoff)
  {
  }

  lemma KeptExpiryCommutes(
    maxSubnets: nat, pinned: set<SubnetId>, records: seq<ProviderRecord>, cutoff: Timestamp,
    c: Cache, expired: Cache, recent: Cache, p: PeerId, s: SubnetId)
    requires DeliveredTo(maxSubnets, pinned, records, c) && Moves(c, Event(Expire(cutoff), {}), expired)
    requires Keeps(maxSubnets, pinned, records, c, s)
    requires Keeps(maxSubnets, pinned, Since(records, cutoff), recent, s)
    ensures expired.Listed(p, s) <==> recent.Listed(p, s)
  {
    hide Keeps, DeliveredTo, Moves;
    KeptLists(maxSubnets, pinned, records, c, p, s);
    KeptLists(maxSubnets, pinned, Since(records, cutoff), recent, p, s);
    ProvidesSince(records, cutoff, p, s);
    StaleIff(maxSubnets, pinned, records, c, cutoff, p);
    if Provides(records, p, s) {
      ProvidesOnlyIfHeard(records, p, s);
    }
    ExpiryUnlists(c, cutoff, expired, p, s);
  }

  /**
   Expiring at a cutoff after delivering everything lists the same providers as delivering only
   the records that are not older than the cutoff, and expires exactly the peers all of whose
   records are older.
   */
  lemma ExpiryCommutesWithDelivery(
    maxSubnets: nat, pinned: set<SubnetId>, records: seq<ProviderRecord>, cutoff: Timestamp,
    c: Cache, expired: Cache, recent: Cache, p: PeerId, s: SubnetId)
    requires LeadsTo(maxSubnets, pinned, records, c) && Moves(c, Event(Expire(cutoff), {}), expired)
    requires LeadsTo(maxSubnets, pinned, Since(records, cutoff), recent)
    ensures p in c.Stale(cutoff) <==> Heard(records, p) && MaxTimestamp(records, p) < cutoff
    ensures expired.Listed(p, s) <==> recent.Listed(p, s)
  {
    RoomKeeps(maxSubnets, pinned, records, c, s);
    RoomKeeps(maxSubnets, pinned, Since(records, cutoff), recent, s);
    StaleIff(maxSubnets, pinned, records, c, cutoff, p);
    KeptExpiryCommutes(maxSubnets, pinned, records, cutoff, c, expired, recent, p, s);
  }

  /** The same of a pinned subnet, however many others are evicted in either delivery. */
  lemma PinnedExpiryCommutesWithDelivery(
    maxSubnets: nat, pinned: set<SubnetId>, records: seq<ProviderRecord>, cutoff: Timestamp,
    c: Cache, expired: Cache, recent: Cache, p: PeerId, s: SubnetId)
    requires DeliveredTo(maxSubnets, pinned, records, c) && Moves(c, Event(Expire(cutoff), {}), expired)
    requires DeliveredTo(maxSubnets, pinned, Since(records, cutoff), recent)
    requires s in pinned
    ensures p in c.Stale(cutoff) <==> Heard(records, p) && MaxTimestamp(records, p) < cutoff
    ensures expired.Listed(p, s) <==> recent.Listed(p, s)
  {
    PinKeeps(maxSubnets, pinned, records, c, s);
    PinKeeps(maxSubnets, pinned, Since(records, cutoff), recent, s);
    StaleIff(maxSubnets, pinned, records, c, cutoff, p);
    KeptExpiryCommutes(maxSubnets, pinned, records, cutoff, c, expired, recent, p, s);
  }
}
