/** Deliveries of the same records in another order, or repeated: when they list the same providers. */
module ProviderOrder {
  import opened Primitives
  import opened ProviderCache
  import opened ProviderHistory
  import opened ProviderTheorems

  // ---------- Every list of records has a delivery ----------

  /** All the subnets named by a list of records. */
  ghost function NamedBy(records: seq<ProviderRecord>): set<SubnetId> {
    set r, s | r in records && s in r.subnetIds :: s
  }

  lemma NamedByMore(records: seq<ProviderRecord>, r: ProviderRecord)
    ensures NamedBy(records + [r]) == NamedBy(records) + ToSet(r.subnetIds)
  {
    assert forall x :: x in records + [r] <==> x in records || x == r;
  }

  lemma NamedBySameSet(a: seq<ProviderRecord>, b: seq<ProviderRecord>)
    requires ToSet(a) == ToSet(b)
    ensures NamedBy(a) == NamedBy(b)
  {
    assert forall r :: r in a <==> r in ToSet(a);
    assert forall r :: r in b <==> r in ToSet(b);
  }

  lemma {:induction false} LeastProvided(c: Cache, ids: set<SubnetId>) returns (least: SubnetId)
    requires ids != {} && ids <= c.providers.Keys
    ensures least in ids && forall s :: s in ids ==> c.NoMoreProviders(least, s)
    decreases |ids|
  {
    var one :| one in ids;
    var rest := ids - {one};
    least := one;
    if rest != {} {
      var other := LeastProvided(c, rest);
      if |c.providers[other]| <= |c.providers[one]| {
        least := other;
      }
    }
    forall s | s in ids
      ensures c.NoMoreProviders(least, s)
    {
      assert s == one || s in rest;
    }
  }

  /** The `n` least provided subnets that are not pinned. */
  lemma {:induction false} LeastProvidedSet(c: Cache, n: nat) returns (victims: set<SubnetId>)
    requires n <= |c.Evictable()|
    ensures victims <= c.Evictable() && |victims| == n
    ensures forall v, s :: v in victims && s in c.Evictable() && s !in victims ==> c.NoMoreProviders(v, s)
  {
    victims := {};
    if n > 0 {
      victims := LeastProvidedSet(c, n - 1);
      var rest := c.Evictable() - victims;
      if rest == {} {
        SubsetCardinality(c.Evictable(), victims);
        assert false;
      }
      var least := LeastProvided(c, rest);
      victims := victims + {least};
    }
  }

  lemma EvictionExists(c: Cache) returns (victims: set<SubnetId>)
    ensures IsEviction(c, victims)
  {
    victims := LeastProvidedSet(c, if c.Excess() <= |c.Evictable()| then c.Excess() else |c.Evictable()|);
  }

  /** Making the peer routable and adding its record, with the given victims if it is applied. */
  function DeliverOne(c: Cache, r: ProviderRecord, victims: set<SubnetId>): (Cache, Cache) {
    var known := c.(routable := c.routable + {r.peerId});
    (known,
     if Applies(known, r) then Evict(Register(known, r), victims)
     else known.(timestamps := known.timestamps[r.peerId := known.TimestampOf(r.peerId)]))
  }

  predicate CanDeliver(c: Cache, r: ProviderRecord, victims: set<SubnetId>) {
    var (known, added) := DeliverOne(c, r, victims);
    && Step(c, Event(SetRoutable(r.peerId), {}), known)
    && Step(known, Event(Add(r), victims), added)
  }

  lemma OneCanBeDelivered(c: Cache, r: ProviderRecord) returns (victims: set<SubnetId>)
    ensures CanDeliver(c, r, victims)
  {
    var known := c.(routable := c.routable + {r.peerId});
    victims := {};
    if Applies(known, r) {
      victims := EvictionExists(Register(known, r));
    }
  }

  lemma NamedOfDelivery(t: seq<Event>, r: ProviderRecord, victims: set<SubnetId>)
    ensures Named(t + [Event(SetRoutable(r.peerId), {}), Event(Add(r), victims)]) == Named(t) + ToSet(r.subnetIds)
  {
    var e1, e2 := Event(SetRoutable(r.peerId), {}), Event(Add(r), victims);
    assert (t + [e1, e2])[..|t| + 1] == t + [e1];
    assert (t + [e1])[..|t|] == t;
  }

  lemma DeliversMore(t: seq<Event>, records: seq<ProviderRecord>, r: ProviderRecord, victims: set<SubnetId>)
    requires Delivers(t, records)
    ensures Delivers(t + [Event(SetRoutable(r.peerId), {}), Event(Add(r), victims)], records + [r])
  {
    var t' := t + [Event(SetRoutable(r.peerId), {}), Event(Add(r), victims)];
    assert t'[..|t|] == t && (records + [r])[..|records|] == records;
  }

  lemma RunMore(states: seq<Cache>, t: seq<Event>, e: Event, c: Cache)
    ensures Run(states, t) && Step(states[|t|], e, c) ==> Run(states + [c], t + [e])
  {
    hide Step;
    var states', t' := states + [c], t + [e];
    if Run(states, t) && Step(states[|t|], e, c) {
      forall i | 0 <= i < |t'|
        ensures Step(states'[i], t'[i], states'[i + 1])
      {
        if i < |t| {
          assert t'[i] == t[i];
        }
      }
    }
  }

  /** One more record delivered at the end of a run. */
  lemma AppendDelivery(maxSubnets: nat, pinned: set<SubnetId>, states0: seq<Cache>, t0: seq<Event>,
                       records: seq<ProviderRecord>, r: ProviderRecord, victims: set<SubnetId>)
    returns (states: seq<Cache>, t: seq<Event>)
    requires IsRunFrom(maxSubnets, pinned, states0, t0) && Delivers(t0, records) && Named(t0) == NamedBy(records)
    requires CanDeliver(states0[|t0|], r, victims)
    ensures IsRunFrom(maxSubnets, pinned, states, t)
    ensures Delivers(t, records + [r]) && Named(t) == NamedBy(records + [r])
    ensures states[|t|] == DeliverOne(states0[|t0|], r, victims).1
  {
    hide Step, DeliverOne;
    var e1, e2 := Event(SetRoutable(r.peerId), {}), Event(Add(r), victims);
    var (known, added) := DeliverOne(states0[|t0|], r, victims);
    RunMore(states0, t0, e1, known);
    RunMore(states0 + [known], t0 + [e1], e2, added);
    states, t := states0 + [known] + [added], t0 + [e1] + [e2];
    assert t == t0 + [e1, e2];
    DeliversMore(t0, records, r, victims);
    NamedOfDelivery(t0, r, victims);
    NamedByMore(records, r);
  }

  lemma {:induction false} Deliver(maxSubnets: nat, pinned: set<SubnetId>, records: seq<ProviderRecord>)
    returns (states: seq<Cache>, t: seq<Event>)
    ensures IsRunFrom(maxSubnets, pinned, states, t)
    ensures Delivers(t, records) && Named(t) == NamedBy(records)
    decreases |records|
  {
    if records == [] {
      return [New(maxSubnets, pinned)], [];
    }
    hide CanDeliver;
    var init, r := records[..|records| - 1], records[|records| - 1];
    assert records == init + [r];
    states, t := Deliver(maxSubnets, pinned, init);
    var victims := OneCanBeDelivered(states[|t|], r);
    states, t := AppendDelivery(maxSubnets, pinned, states, t, init, r, victims);
  }

  /** Whatever the records and the bound, the records can be delivered, and without loss if they fit the bound. */
  lemma DeliveryExists(maxSubnets: nat, pinned: set<SubnetId>, records: seq<ProviderRecord>) returns (c: Cache)
    ensures DeliveredTo(maxSubnets, pinned, records, c)
    ensures |NamedBy(records)| <= maxSubnets ==> LeadsTo(maxSubnets, pinned, records, c)
  {
    var states, t := Deliver(maxSubnets, pinned, records);
    c := states[|t|];
  }

  // ---------- What the order may change ----------

  /** The record carries its peer's highest timestamp, and that is not 0. */
  predicate IsLatest(records: seq<ProviderRecord>, i: int) {
    0 <= i < |records| && 0 < records[i].timestamp == MaxTimestamp(records, records[i].peerId)
  }

  /** All the latest records of a peer agree on a subnet. Ties among older records do not matter. */
  ghost predicate SettledOn(records: seq<ProviderRecord>, s: SubnetId) {
    forall i, j :: IsLatest(records, i) && IsLatest(records, j) && records[i].peerId == records[j].peerId ==>
      (s in records[i].subnetIds <==> s in records[j].subnetIds)
  }

  /** All the latest records of a peer name the same subnets. */
  ghost predicate Settled(records: seq<ProviderRecord>) {
    forall s :: SettledOn(records, s)
  }

  lemma {:induction false} FirstLatestExists(log: seq<ProviderRecord>, p: PeerId) returns (i: int)
    requires Heard(log, p)
    ensures FirstLatest(log, i) && log[i].peerId == p
  {
    var init, r := log[..|log| - 1], log[|log| - 1];
    assert log == init + [r];
    HeardAfter(init, r, p);
    if Heard(init, p) {
      i := FirstLatestExists(init, p);
      if r.peerId == p && init[i].timestamp < r.timestamp {
        i := |log| - 1;
      }
    } else {
      i := |log| - 1;
      forall j | 0 <= j < |init|
        ensures log[j].peerId != p
      {
        assert init[j] == log[j];
      }
    }
  }

  lemma FirstLatestIsLatest(log: seq<ProviderRecord>, i: int)
    requires FirstLatest(log, i)
    ensures log[i].timestamp == MaxTimestamp(log, log[i].peerId)
  {
    MaxTimestampBounds(log, log[i].peerId);
  }

  lemma DecidingRecord(log: seq<ProviderRecord>, i: int) returns (d: int)
    requires IsLatest(log, i)
    ensures Decides(log, log[i].peerId, d) && IsLatest(log, d)
    ensures forall s :: Provides(log, log[i].peerId, s) <==> s in log[d].subnetIds
  {
    var p := log[i].peerId;
    d := FirstLatestExists(log, p);
    FirstLatestIsLatest(log, d);
    assert Decides(log, p, d);
    forall e | Decides(log, p, e)
      ensures e == d
    {
      assert log[e].timestamp <= log[d].timestamp && log[d].timestamp <= log[e].timestamp;
    }
  }

  lemma SameMaxTimestamp(a: seq<ProviderRecord>, b: seq<ProviderRecord>, p: PeerId)
    requires ToSet(a) == ToSet(b)
    ensures MaxTimestamp(a, p) == MaxTimestamp(b, p)
  {
    MaxNotAbove(a, b, p);
    MaxNotAbove(b, a, p);
  }

  lemma MaxNotAbove(a: seq<ProviderRecord>, b: seq<ProviderRecord>, p: PeerId)
    requires ToSet(a) == ToSet(b)
    ensures MaxTimestamp(a, p) <= MaxTimestamp(b, p)
  {
    MaxTimestampBounds(a, p);
    MaxTimestampBounds(b, p);
    if MaxTimestamp(a, p) > 0 {
      var j :| 0 <= j < |a| && a[j].peerId == p && a[j].timestamp == MaxTimestamp(a, p);
      assert a[j] in ToSet(b);
    }
  }

  /** The latest records are the same in every order. */
  lemma LatestElsewhere(a: seq<ProviderRecord>, i: int, b: seq<ProviderRecord>) returns (j: int)
    requires ToSet(a) == ToSet(b) && IsLatest(a, i)
    ensures IsLatest(b, j) && b[j] == a[i]
  {
    assert a[i] in ToSet(b);
    j :| 0 <= j < |b| && b[j] == a[i];
    SameMaxTimestamp(a, b, a[i].peerId);
  }

  lemma SettledSameSet(a: seq<ProviderRecord>, b: seq<ProviderRecord>, s: SubnetId)
    requires ToSet(a) == ToSet(b) && SettledOn(a, s)
    ensures SettledOn(b, s)
  {
    forall i, j | IsLatest(b, i) && IsLatest(b, j) && b[i].peerId == b[j].peerId
      ensures s in b[i].subnetIds <==> s in b[j].subnetIds
    {
      var k := LatestElsewhere(b, i, a);
      var l := LatestElsewhere(b, j, a);
    }
  }

  lemma SettledProvides(a: seq<ProviderRecord>, b: seq<ProviderRecord>, p: PeerId, s: SubnetId)
    requires ToSet(a) == ToSet(b) && SettledOn(a, s)
    requires Provides(a, p, s)
    ensures Provides(b, p, s)
  {
    var i :| Decides(a, p, i) && s in a[i].subnetIds;
    FirstLatestIsLatest(a, i);
    var j := LatestElsewhere(a, i, b);
    var d := DecidingRecord(b, j);
    var e := LatestElsewhere(b, d, a);
    assert s in a[e].subnetIds;
  }

  function ToFront(records: seq<ProviderRecord>, k: nat): seq<ProviderRecord>
    requires k < |records|
  {
    [records[k]] + records[..k] + records[k + 1..]
  }

  lemma ToFrontReorders(records: seq<ProviderRecord>, k: nat)
    requires k < |records|
    ensures multiset(ToFront(records, k)) == multiset(records)
  {
    assert records == records[..k] + [records[k]] + records[k + 1..];
  }

  lemma SameElements(a: seq<ProviderRecord>, b: seq<ProviderRecord>)
    requires multiset(a) == multiset(b)
    ensures ToSet(a) == ToSet(b)
  {
    forall x
      ensures x in a <==> x in b
    {
      assert x in a <==> x in multiset(a);
      assert x in b <==> x in multiset(b);
    }
  }

  /** A latest record that comes first decides. */
  lemma FrontDecides(records: seq<ProviderRecord>, k: nat, s: SubnetId)
    requires IsLatest(records, k)
    ensures Provides(ToFront(records, k), records[k].peerId, s) <==> s in records[k].subnetIds
  {
    var front := ToFront(records, k);
    ToFrontReorders(records, k);
    SameElements(front, records);
    SameMaxTimestamp(front, records, records[k].peerId);
    assert front[0] == records[k];
    MaxTimestampBounds(front, front[0].peerId);
    var d := DecidingRecord(front, 0);
    assert Decides(front, front[0].peerId, 0);
    assert Decides(front, front[0].peerId, d) && d == 0;
  }

  /** Where a peer's latest records differ on a subnet, moving one to the front changes whether it is provided. */
  lemma OrderShows(records: seq<ProviderRecord>, s: SubnetId) returns (other: seq<ProviderRecord>, p: PeerId)
    requires !SettledOn(records, s)
    ensures multiset(other) == multiset(records)
    ensures Provides(other, p, s) <==> !Provides(records, p, s)
  {
    var i, j :| IsLatest(records, i) && IsLatest(records, j) && records[i].peerId == records[j].peerId
      && (s in records[i].subnetIds <==> s !in records[j].subnetIds);
    p := records[i].peerId;
    var d := DecidingRecord(records, i);
    var k := if s in records[i].subnetIds <==> s in records[d].subnetIds then j else i;
    other := ToFront(records, k);
    ToFrontReorders(records, k);
    FrontDecides(records, k, s);
  }

  // ---------- One subnet ----------

  ghost predicate AgreeOn(c1: Cache, c2: Cache, s: SubnetId) {
    forall p :: c1.Listed(p, s) <==> c2.Listed(p, s)
  }

  /** Two deliveries of the same records, reordered or repeated, that keep a subnet on which they are settled. */
  lemma KeptAgree(maxSubnets: nat, pinned: set<SubnetId>, records1: seq<ProviderRecord>, c1: Cache,
                  records2: seq<ProviderRecord>, c2: Cache, s: SubnetId)
    requires Keeps(maxSubnets, pinned, records1, c1, s) && Keeps(maxSubnets, pinned, records2, c2, s)
    requires ToSet(records1) == ToSet(records2) && SettledOn(records1, s)
    ensures AgreeOn(c1, c2, s)
  {
    hide Keeps;
    SettledSameSet(records1, records2, s);
    forall p
      ensures c1.Listed(p, s) <==> c2.Listed(p, s)
    {
      KeptLists(maxSubnets, pinned, records1, c1, p, s);
      KeptLists(maxSubnets, pinned, records2, c2, p, s);
      if Provides(records1, p, s) {
        SettledProvides(records1, records2, p, s);
      }
      if Provides(records2, p, s) {
        SettledProvides(records2, records1, p, s);
      }
    }
  }

  // ---------- Pinned subnets, whatever the bound ----------

  /** Gossip may reorder and repeat the records without any change in the peers listed for the subnet. */
  ghost predicate OrderIsIrrelevantFor(
    maxSubnets: nat, pinned: set<SubnetId>, records: seq<ProviderRecord>, s: SubnetId)
  {
    forall other, c1, c2 ::
      && DeliveredTo(maxSubnets, pinned, records, c1)
      && DeliveredTo(maxSubnets, pinned, other, c2)
      && ToSet(other) == ToSet(records)
      ==> AgreeOn(c1, c2, s)
  }

  /**
   However many other subnets flood the cache, the order and number of deliveries is irrelevant to
   a pinned subnet exactly when each peer's latest records agree on it.
   */
  lemma PinnedOrderIsIrrelevantIff(
    maxSubnets: nat, pinned: set<SubnetId>, records: seq<ProviderRecord>, s: SubnetId)
    requires s in pinned
    ensures OrderIsIrrelevantFor(maxSubnets, pinned, records, s) <==> SettledOn(records, s)
  {
    hide DeliveredTo, AgreeOn, SettledOn;
    if SettledOn(records, s) {
      forall other, c1, c2 | DeliveredTo(maxSubnets, pinned, records, c1)
        && DeliveredTo(maxSubnets, pinned, other, c2) && ToSet(other) == ToSet(records)
        ensures AgreeOn(c1, c2, s)
      {
        PinnedAgree(maxSubnets, pinned, records, c1, other, c2, s);
      }
    } else {
      var c1, other, c2 := PinnedDiffer(maxSubnets, pinned, records, s);
      SameElements(other, records);
    }
  }

  /** Two deliveries of the same records list the same peers for a pinned subnet, if the records are settled on it. */
  lemma PinnedAgree(maxSubnets: nat, pinned: set<SubnetId>, records1: seq<ProviderRecord>, c1: Cache,
                    records2: seq<ProviderRecord>, c2: Cache, s: SubnetId)
    requires DeliveredTo(maxSubnets, pinned, records1, c1) && DeliveredTo(maxSubnets, pinned, records2, c2)
    requires ToSet(records1) == ToSet(records2) && SettledOn(records1, s) && s in pinned
    ensures AgreeOn(c1, c2, s)
  {
    PinKeeps(maxSubnets, pinned, records1, c1, s);
    PinKeeps(maxSubnets, pinned, records2, c2, s);
    KeptAgree(maxSubnets, pinned, records1, c1, records2, c2, s);
  }

  /** And otherwise there is a reordered delivery that lists others. */
  lemma PinnedDiffer(maxSubnets: nat, pinned: set<SubnetId>, records: seq<ProviderRecord>, s: SubnetId)
    returns (c1: Cache, other: seq<ProviderRecord>, c2: Cache)
    requires s in pinned && !SettledOn(records, s)
    ensures multiset(other) == multiset(records)
    ensures DeliveredTo(maxSubnets, pinned, records, c1) && DeliveredTo(maxSubnets, pinned, other, c2)
    ensures !AgreeOn(c1, c2, s)
  {
    hide DeliveredTo, Keeps, LeadsTo, SettledOn;
    var p;
    other, p := OrderShows(records, s);
    c1 := DeliveryExists(maxSubnets, pinned, records);
    c2 := DeliveryExists(maxSubnets, pinned, other);
    PinKeeps(maxSubnets, pinned, records, c1, s);
    PinKeeps(maxSubnets, pinned, other, c2, s);
    KeptLists(maxSubnets, pinned, records, c1, p, s);
    KeptLists(maxSubnets, pinned, other, c2, p, s);
    assert c1.Listed(p, s) <==> !c2.Listed(p, s);
  }

  // ---------- All subnets, within the bound ----------

  ghost predicate ListTheSame(c1: Cache, c2: Cache) {
    forall s :: AgreeOn(c1, c2, s)
  }

  /** Gossip may reorder and repeat the records without any change in the providers listed. */
  ghost predicate OrderIsIrrelevant(maxSubnets: nat, pinned: set<SubnetId>, records: seq<ProviderRecord>) {
    forall other, c1, c2 ::
      && DeliveredTo(maxSubnets, pinned, records, c1)
      && DeliveredTo(maxSubnets, pinned, other, c2)
      && ToSet(other) == ToSet(records)
      ==> ListTheSame(c1, c2)
  }

  lemma SettledListsTheSame(maxSubnets: nat, pinned: set<SubnetId>, records1: seq<ProviderRecord>, c1: Cache,
                            records2: seq<ProviderRecord>, c2: Cache)
    requires LeadsTo(maxSubnets, pinned, records1, c1) && LeadsTo(maxSubnets, pinned, records2, c2)
    requires ToSet(records1) == ToSet(records2) && Settled(records1)
    ensures ListTheSame(c1, c2)
  {
    hide LeadsTo, Keeps;
    forall s
      ensures AgreeOn(c1, c2, s)
    {
      RoomKeeps(maxSubnets, pinned, records1, c1, s);
      RoomKeeps(maxSubnets, pinned, records2, c2, s);
      assert SettledOn(records1, s);
      KeptAgree(maxSubnets, pinned, records1, c1, records2, c2, s);
    }
  }

  lemma {:induction false} NamedByDelivery(t: seq<Event>, records: seq<ProviderRecord>)
    requires Delivers(t, records)
    ensures Named(t) == NamedBy(records)
    decreases |records|
  {
    if records != [] {
      var n, r := |t| - 2, records[|records| - 1];
      var init := records[..|records| - 1];
      NamedByDelivery(t[..n], init);
      assert records == init + [r];
      NamedByMore(init, r);
      assert t[..n + 1][..n] == t[..n];
      assert Named(t[..n + 1]) == Named(t[..n]);
    }
  }

  /** Records that fit the bound are always delivered without loss. */
  lemma FittingDelivery(maxSubnets: nat, pinned: set<SubnetId>, records: seq<ProviderRecord>, c: Cache)
    requires DeliveredTo(maxSubnets, pinned, records, c) && |NamedBy(records)| <= maxSubnets
    ensures LeadsTo(maxSubnets, pinned, records, c)
  {
    var states, t :| IsRunFrom(maxSubnets, pinned, states, t) && Delivers(t, records) && c == states[|t|];
    NamedByDelivery(t, records);
  }

  /** Two deliveries of unsettled records that list different providers; the second is a mere reordering. */
  lemma UnsettledListsDiffer(maxSubnets: nat, pinned: set<SubnetId>, records: seq<ProviderRecord>)
    returns (c1: Cache, other: seq<ProviderRecord>, c2: Cache)
    requires |NamedBy(records)| <= maxSubnets && !Settled(records)
    ensures multiset(other) == multiset(records)
    ensures LeadsTo(maxSubnets, pinned, records, c1) && LeadsTo(maxSubnets, pinned, other, c2)
    ensures DeliveredTo(maxSubnets, pinned, records, c1) && DeliveredTo(maxSubnets, pinned, other, c2)
    ensures !ListTheSame(c1, c2)
  {
    var s :| !SettledOn(records, s);
    var p;
    other, p := OrderShows(records, s);
    SameElements(other, records);
    NamedBySameSet(other, records);
    c1 := DeliveryExists(maxSubnets, pinned, records);
    c2 := DeliveryExists(maxSubnets, pinned, other);
    DeliveryLists(maxSubnets, pinned, records, c1, p, s);
    DeliveryLists(maxSubnets, pinned, other, c2, p, s);
    assert c1.Listed(p, s) <==> !c2.Listed(p, s);
    assert !AgreeOn(c1, c2, s);
  }

  /**
   For records that fit the bound, the order and number of their deliveries is irrelevant exactly
   when each peer's latest records agree on the subnets they name.
   */
  lemma OrderIsIrrelevantIff(maxSubnets: nat, pinned: set<SubnetId>, records: seq<ProviderRecord>)
    requires |NamedBy(records)| <= maxSubnets
    ensures OrderIsIrrelevant(maxSubnets, pinned, records) <==> Settled(records)
  {
    hide DeliveredTo, LeadsTo, ListTheSame, NamedBy;
    if Settled(records) {
      forall other, c1, c2 | DeliveredTo(maxSubnets, pinned, records, c1)
        && DeliveredTo(maxSubnets, pinned, other, c2) && ToSet(other) == ToSet(records)
        ensures ListTheSame(c1, c2)
      {
        NamedBySameSet(other, records);
        FittingDelivery(maxSubnets, pinned, records, c1);
        FittingDelivery(maxSubnets, pinned, other, c2);
        SettledListsTheSame(maxSubnets, pinned, records, c1, other, c2);
      }
    } else {
      var c1, other, c2 := UnsettledListsDiffer(maxSubnets, pinned, records);
      SameElements(other, records);
    }
  }

  // ---------- Beyond the bound ----------

  lemma FirstRegistered(p: PeerId, a: SubnetId)
    ensures Register(New(1, {}).(routable := {p}), ProviderRecord(p, [a], 1))
         == Cache(1, {}, {p}, map[a := {p}], map[p := 1])
  {
    var registered := Register(New(1, {}).(routable := {p}), ProviderRecord(p, [a], 1));
    assert {} + {p} == {p};
    assert registered.providers == map[a := {p}];
    assert registered.timestamps == map[p := 1];
  }

  lemma FirstFits(p: PeerId, a: SubnetId)
    ensures var r := ProviderRecord(p, [a], 1);
      && CanDeliver(New(1, {}), r, {})
      && DeliverOne(New(1, {}), r, {}).1 == Cache(1, {}, {p}, map[a := {p}], map[p := 1])
  {
    hide Register, IsEviction, Evict;
    var registered := Cache(1, {}, {p}, map[a := {p}], map[p := 1]);
    assert New(1, {}).routable + {p} == {p};
    FirstRegistered(p, a);
    assert registered.providers.Keys == {a};
    NothingToEvict(registered);
  }

  lemma SecondRegistered(p: PeerId, a: SubnetId, q: PeerId, b: SubnetId)
    requires p != q && a != b
    ensures Register(Cache(1, {}, {p} + {q}, map[a := {p}], map[p := 1]), ProviderRecord(q, [b], 1))
         == Cache(1, {}, {p} + {q}, map[a := {p}, b := {q}], map[p := 1, q := 1])
  {
    var registered := Register(Cache(1, {}, {p} + {q}, map[a := {p}], map[p := 1]), ProviderRecord(q, [b], 1));
    assert {} + {q} == {q} && {p} - {q} == {p};
    assert registered.providers == map[a := {p}, b := {q}];
    assert registered.timestamps == map[p := 1, q := 1];
  }

  lemma FirstMayGo(c: Cache, p: PeerId, a: SubnetId, q: PeerId, b: SubnetId)
    requires a != b && c.maxSubnets == 1 && c.pinned == {} && c.providers == map[a := {p}, b := {q}]
    ensures IsEviction(c, {a}) && Evict(c, {a}).providers == map[b := {q}]
  {
    assert c.providers.Keys == {a, b} == c.Evictable();
    assert c.NoMoreProviders(a, b);
    assert c.providers - {a} == map[b := {q}];
  }

  lemma SecondEvictsFirst(p: PeerId, a: SubnetId, q: PeerId, b: SubnetId)
    requires p != q && a != b
    ensures var c, r := Cache(1, {}, {p}, map[a := {p}], map[p := 1]), ProviderRecord(q, [b], 1);
      && CanDeliver(c, r, {a})
      && DeliverOne(c, r, {a}).1.providers == map[b := {q}]
  {
    hide Register, IsEviction, Evict;
    SecondRegistered(p, a, q, b);
    FirstMayGo(Cache(1, {}, {p} + {q}, map[a := {p}, b := {q}], map[p := 1, q := 1]), p, a, q, b);
  }

  lemma DeliveredMore(maxSubnets: nat, pinned: set<SubnetId>, records: seq<ProviderRecord>, c: Cache,
                      r: ProviderRecord, victims: set<SubnetId>)
    requires DeliveredTo(maxSubnets, pinned, records, c) && CanDeliver(c, r, victims)
    ensures DeliveredTo(maxSubnets, pinned, records + [r], DeliverOne(c, r, victims).1)
  {
    hide CanDeliver, DeliverOne;
    var states, t :| IsRunFrom(maxSubnets, pinned, states, t) && Delivers(t, records) && c == states[|t|];
    NamedByDelivery(t, records);
    states, t := AppendDelivery(maxSubnets, pinned, states, t, records, r, victims);
  }

  lemma NothingDelivered(maxSubnets: nat, pinned: set<SubnetId>)
    ensures DeliveredTo(maxSubnets, pinned, [], New(maxSubnets, pinned))
  {
    assert IsRunFrom(maxSubnets, pinned, [New(maxSubnets, pinned)], []);
  }

  /** Two peers with a subnet each where there is room for one: the peer that comes second may stay alone. */
  lemma LatecomerStays(p: PeerId, a: SubnetId, q: PeerId, b: SubnetId) returns (c: Cache)
    requires p != q && a != b
    ensures DeliveredTo(1, {}, [ProviderRecord(p, [a], 1), ProviderRecord(q, [b], 1)], c)
    ensures c.providers == map[b := {q}]
  {
    hide CanDeliver, DeliverOne, DeliveredTo;
    var r1, r2 := ProviderRecord(p, [a], 1), ProviderRecord(q, [b], 1);
    NothingDelivered(1, {});
    FirstFits(p, a);
    DeliveredMore(1, {}, [], New(1, {}), r1, {});
    var c1 := DeliverOne(New(1, {}), r1, {}).1;
    SecondEvictsFirst(p, a, q, b);
    DeliveredMore(1, {}, [] + [r1], c1, r2, {a});
    assert [] + [r1] + [r2] == [r1, r2];
    c := DeliverOne(c1, r2, {a}).1;
  }

  lemma DeliverPinned(p: PeerId, s: SubnetId) returns (states: seq<Cache>, t: seq<Event>)
    ensures IsRunFrom(0, {s}, states, t) && |t| == 2
    ensures t[0].op == SetRoutable(p) && t[1].op == Add(ProviderRecord(p, [s], 1))
    ensures states[2].Listed(p, s) && states[2].maxSubnets == 0 && states[2].WithinBound()
  {
    hide Step, Keeps;
    var records := [ProviderRecord(p, [s], 1)];
    states, t := Deliver(0, {s}, records);
    LastDelivery(t, records);
    assert records[..0] == [];
    PinKeeps(0, {s}, records, states[2], s);
    KeptLists(0, {s}, records, states[2], p, s);
    assert Decides(records, p, 0);
    BoundHolds(0, {s}, states, t, 2);
    BoundStays(0, {s}, states, t, 2);
  }

  lemma {:induction false} BoundStays(maxSubnets: nat, pinned: set<SubnetId>, states: seq<Cache>, t: seq<Event>, i: nat)
    requires IsRunFrom(maxSubnets, pinned, states, t) && i <= |t|
    ensures states[i].maxSubnets == maxSubnets
  {
    if i > 0 {
      BoundStays(maxSubnets, pinned, states, t, i - 1);
      KeysAfter(states[i - 1], t[i - 1], states[i]);
    }
  }

  lemma UnpinStep(c: Cache, s: SubnetId)
    requires c.WithinBound() && s in c.providers && c.maxSubnets == 0
    ensures var c' := c.(pinned := c.pinned - {s}); Step(c, Event(Unpin(s), {}), c') && !c'.WithinBound()
  {
    var c' := c.(pinned := c.pinned - {s});
    UnpinKeepsBoundIff(c, s, c');
    assert s in c.providers.Keys;
  }

  /** A subnet that was let in beyond the bound thanks to its pin stays when it is unpinned. */
  lemma UnpinBreaksBound(p: PeerId, s: SubnetId) returns (states: seq<Cache>, t: seq<Event>)
    ensures IsRunFrom(0, {s}, states, t)
    ensures |t| == 3 && t[0].op == SetRoutable(p) && t[1].op == Add(ProviderRecord(p, [s], 1)) && t[2].op == Unpin(s)
    ensures states[2].WithinBound() && !states[3].WithinBound()
  {
    hide Step;
    states, t := DeliverPinned(p, s);
    var c := states[2];
    var c' := c.(pinned := c.pinned - {s});
    UnpinStep(c, s);
    RunMore(states, t, Event(Unpin(s), {}), c');
    states, t := states + [c'], t + [Event(Unpin(s), {})];
  }

  /** Beyond the bound the order may show even where all records are settled. */
  lemma OrderShowsBeyondBound(p: PeerId, a: SubnetId, q: PeerId, b: SubnetId)
    requires p != q && a != b
    ensures var records := [ProviderRecord(p, [a], 1), ProviderRecord(q, [b], 1)];
      Settled(records) && !OrderIsIrrelevant(1, {}, records)
  {
    hide DeliveredTo;
    var r1, r2 := ProviderRecord(p, [a], 1), ProviderRecord(q, [b], 1);
    var records, other := [r1, r2], [r2, r1];
    forall s
      ensures SettledOn(records, s)
    {
    }
    var c1 := LatecomerStays(p, a, q, b);
    var c2 := LatecomerStays(q, b, p, a);
    assert ToSet(other) == ToSet(records);
    assert c1.Listed(q, b) && !c2.Listed(q, b);
    assert !AgreeOn(c1, c2, b);
  }
}
