/**
 The events by which the membership behaviour tells others about its provider cache, and what a
 listener who replays them knows.
 */
module MembershipEvents {
  import opened Primitives
  import opened ProviderCache
  import opened ProviderHistory
  import ProviderOrder

  datatype Notice =
    | Updated(peerId: PeerId, delta: ProviderDelta)
    | Removed(peerId: PeerId)
    | Skipped(peerId: PeerId)
    | ReceivedVote
    | ReceivedPreemptive(subnetId: SubnetId)

  /** The associations a listener has put together from the events so far. */
  ghost function Replay(notices: seq<Notice>): iset<(PeerId, SubnetId)> {
    if notices == [] then iset{} else
      Heed(Replay(notices[..|notices| - 1]), notices[|notices| - 1])
  }

  ghost function Heed(known: iset<(PeerId, SubnetId)>, n: Notice): iset<(PeerId, SubnetId)> {
    match n
    case Updated(p, d) =>
      iset q, s | ((q, s) in known && !(q == p && s in d.removed)) || (q == p && s in d.added) :: (q, s)
    case Removed(p) => iset q, s | (q, s) in known && q != p :: (q, s)
    case Skipped(_) => known
    case ReceivedVote => known
    case ReceivedPreemptive(_) => known
  }

  /**
   A call on the cache with what it returned (the delta of a record, or the peers that expired),
   or a vote or a piece of data that passes through the same outbox.
   */
  datatype Call =
    | Call(event: Event, delta: ProviderDelta, pruned: seq<PeerId>)
    | Pass(notice: Notice)

  predicate Returns(c: Cache, call: Call, c': Cache)
    requires call.Call?
  {
    && (call.event.op.Expire? ==> Enumerates(call.pruned, c.Stale(call.event.op.cutoff)))
    && (call.event.op.Add? && call.event.op.record.peerId in c.routable ==>
          IsDelta(c, call.event.op.record, c', call.delta))
  }

  /** The notices a call puts in the outbox. */
  function Announced(c: Cache, call: Call): seq<Notice>
    requires call.Call?
  {
    match call.event.op
    case Pin(_) => []
    case Unpin(_) => []
    case SetRoutable(_) => []
    case SetUnroutable(p) => [Removed(p)]
    case Expire(_) => Removals(call.pruned)
    case Add(r) =>
      if r.peerId !in c.routable then [Skipped(r.peerId)]
      else if call.delta.IsEmpty() && !call.delta.isNew then []
      else [Updated(r.peerId, call.delta)]
  }

  function Removals(pruned: seq<PeerId>): seq<Notice> {
    seq(|pruned|, i requires 0 <= i < |pruned| => Removed(pruned[i]))
  }

  /** The cache together with everything that was ever put in its outbox, emitted or not. */
  datatype Told = Told(cache: Cache, notices: seq<Notice>)

  predicate Step(m: Told, call: Call, m': Told) {
    match call
    case Pass(n) =>
      (n.ReceivedVote? || n.ReceivedPreemptive?) && m' == Told(m.cache, m.notices + [n])
    case Call(event, _, _) =>
      && Moves(m.cache, event, m'.cache)
      && Returns(m.cache, call, m'.cache)
      && m'.notices == m.notices + Announced(m.cache, call)
  }

  predicate Run(told: seq<Told>, t: seq<Call>) {
    && |told| == |t| + 1
    && told[0].cache.providers == map[] && told[0].notices == []
    && forall i {:trigger t[i]} :: 0 <= i < |t| ==> Step(told[i], t[i], told[i + 1])
  }

  // ---------- Replay, one call at a time ----------

  lemma ReplayMore(notices: seq<Notice>, n: Notice)
    ensures Replay(notices + [n]) == Heed(Replay(notices), n)
  {
  }

  lemma {:induction false} ReplayRemovals(notices: seq<Notice>, pruned: seq<PeerId>, p: PeerId, s: SubnetId)
    ensures (p, s) in Replay(notices + Removals(pruned)) <==> (p, s) in Replay(notices) && p !in pruned
  {
    if pruned == [] {
      assert notices + Removals(pruned) == notices;
    } else {
      var init, q := pruned[..|pruned| - 1], pruned[|pruned| - 1];
      ReplayRemovals(notices, init, p, s);
      assert notices + Removals(pruned) == (notices + Removals(init)) + [Removed(q)];
      ReplayMore(notices + Removals(init), Removed(q));
      assert pruned == init + [q];
    }
  }

  // ---------- Pairs left dangling ----------

  /** The call evicts the subnet while the peer is listed under it, and does not report the pair as removed. */
  predicate LeavesBehind(c: Cache, call: Call, p: PeerId, s: SubnetId) {
    && call.Call? && c.Listed(p, s) && s in call.event.evicted
    && !(call.event.op.Add? && call.event.op.record.peerId == p && s !in call.event.op.record.subnetIds)
  }

  /** The call announces that the peer is gone, or lists it under the subnet. */
  predicate Clears(c: Cache, call: Call, p: PeerId, s: SubnetId) {
    call.Call? &&
    match call.event.op
    case Pin(_) => false
    case Unpin(_) => false
    case SetRoutable(_) => false
    case SetUnroutable(q) => q == p
    case Expire(cutoff) => p in c.Stale(cutoff)
    case Add(r) => r.peerId == p && Applies(c, r) && s in r.subnetIds && s !in call.event.evicted
  }

  /** Within the first `n` calls of a run the pair was left behind and has not been cleared since. */
  ghost predicate Dangling(told: seq<Told>, t: seq<Call>, n: nat, p: PeerId, s: SubnetId)
    requires n <= |t| < |told|
  {
    exists i :: 0 <= i < n && LeavesBehind(told[i].cache, t[i], p, s)
      && forall k :: i < k < n ==> !Clears(told[k].cache, t[k], p, s)
  }

  predicate DanglesAfter(c: Cache, call: Call, dangling: bool, p: PeerId, s: SubnetId) {
    LeavesBehind(c, call, p, s) || (dangling && !Clears(c, call, p, s))
  }

  lemma DanglingMore(told: seq<Told>, t: seq<Call>, n: nat, p: PeerId, s: SubnetId)
    requires 0 < n <= |t| < |told|
    ensures Dangling(told, t, n, p, s) <==>
      DanglesAfter(told[n - 1].cache, t[n - 1], Dangling(told, t, n - 1, p, s), p, s)
  {
    hide LeavesBehind, Clears;
    var c, call := told[n - 1].cache, t[n - 1];
    if Dangling(told, t, n, p, s) && !LeavesBehind(c, call, p, s) {
      var i :| 0 <= i < n && LeavesBehind(told[i].cache, t[i], p, s)
        && forall k :: i < k < n ==> !Clears(told[k].cache, t[k], p, s);
      assert i < n - 1;
    }
  }

  /** A listener's belief about a pair is the cache's listing of it, or a leftover. */
  ghost predicate Tracks(c: Cache, known: iset<(PeerId, SubnetId)>, dangling: bool, p: PeerId, s: SubnetId) {
    && ((p, s) in known <==> c.Listed(p, s) || dangling)
    && !(c.Listed(p, s) && dangling)
  }

  lemma TracksAfterAdd(m: Told, call: Call, m': Told, known: iset<(PeerId, SubnetId)>,
                       dangling: bool, p: PeerId, s: SubnetId)
    requires call.Call? && call.event.op.Add? && call.event.op.record.peerId in m.cache.routable
    requires Moves(m.cache, call.event, m'.cache) && Returns(m.cache, call, m'.cache)
    requires Tracks(m.cache, known, dangling, p, s)
    ensures var known' := Heed(known, Updated(call.event.op.record.peerId, call.delta));
      && Tracks(m'.cache, known', DanglesAfter(m.cache, call, dangling, p, s), p, s)
      && (call.delta.IsEmpty() ==> ((p, s) in known' <==> (p, s) in known))
  {
    var c, r, c', d := m.cache, call.event.op.record, m'.cache, call.delta;
    assert call.event == Event(Add(r), call.event.evicted);
    AddSetsAssociations(c, r, call.event.evicted, c', p);
    assert c.Listed(p, s) <==> s in c.SubnetsOf(p);
    assert c'.Listed(p, s) <==> s in c'.SubnetsOf(p);
    if p == r.peerId {
      assert s in d.added <==> s in ToSet(d.added);
      assert s in d.removed <==> s in ToSet(d.removed);
    }
  }

  lemma TracksAfterForget(c: Cache, ps: set<PeerId>, known: iset<(PeerId, SubnetId)>, known': iset<(PeerId, SubnetId)>,
                          dangling: bool, p: PeerId, s: SubnetId)
    requires Tracks(c, known, dangling, p, s)
    requires (p, s) in known' <==> (p, s) in known && p !in ps
    ensures Tracks(Forget(c, ps), known', dangling && p !in ps, p, s)
  {
  }

  lemma TracksAfterRecord(m: Told, call: Call, m': Told, dangling: bool, p: PeerId, s: SubnetId)
    requires call.Call? && Step(m, call, m') && call.event.op.Add?
    requires Tracks(m.cache, Replay(m.notices), dangling, p, s)
    ensures Tracks(m'.cache, Replay(m'.notices), DanglesAfter(m.cache, call, dangling, p, s), p, s)
  {
    var r := call.event.op.record;
    if r.peerId !in m.cache.routable {
      ReplayMore(m.notices, Skipped(r.peerId));
    } else {
      TracksAfterAdd(m, call, m', Replay(m.notices), dangling, p, s);
      ReplayMore(m.notices, Updated(r.peerId, call.delta));
      assert m.notices + [] == m.notices;
    }
  }

  lemma UnroutableStep(m: Told, call: Call, m': Told)
    requires call.Call? && Step(m, call, m') && call.event.op.SetUnroutable?
    ensures var q := call.event.op.peerId;
      m'.cache == Forget(m.cache, {q}) && m'.notices == m.notices + [Removed(q)] && call.event.evicted == {}
  {
  }

  lemma TracksAfterUnroutable(m: Told, call: Call, m': Told, dangling: bool, p: PeerId, s: SubnetId)
    requires call.Call? && Step(m, call, m') && call.event.op.SetUnroutable?
    requires Tracks(m.cache, Replay(m.notices), dangling, p, s)
    ensures Tracks(m'.cache, Replay(m'.notices), DanglesAfter(m.cache, call, dangling, p, s), p, s)
  {
    hide Step, Forget, Replay;
    var q := call.event.op.peerId;
    UnroutableStep(m, call, m');
    ReplayMore(m.notices, Removed(q));
    TracksAfterForget(m.cache, {q}, Replay(m.notices), Replay(m'.notices), dangling, p, s);
  }

  lemma ExpiryStep(m: Told, call: Call, m': Told)
    requires call.Call? && Step(m, call, m') && call.event.op.Expire?
    ensures var stale := m.cache.Stale(call.event.op.cutoff);
      && m'.cache == Forget(m.cache, stale) && m'.notices == m.notices + Removals(call.pruned)
      && call.event.evicted == {} && ToSet(call.pruned) == stale
  {
  }

  lemma TracksAfterExpiry(m: Told, call: Call, m': Told, dangling: bool, p: PeerId, s: SubnetId)
    requires call.Call? && Step(m, call, m') && call.event.op.Expire?
    requires Tracks(m.cache, Replay(m.notices), dangling, p, s)
    ensures Tracks(m'.cache, Replay(m'.notices), DanglesAfter(m.cache, call, dangling, p, s), p, s)
  {
    hide Step, Forget, Replay;
    var stale := m.cache.Stale(call.event.op.cutoff);
    ExpiryStep(m, call, m');
    ReplayRemovals(m.notices, call.pruned, p, s);
    assert p in call.pruned <==> p in ToSet(call.pruned);
    TracksAfterForget(m.cache, stale, Replay(m.notices), Replay(m'.notices), dangling, p, s);
  }

  lemma TracksAfterQuiet(m: Told, call: Call, m': Told, dangling: bool, p: PeerId, s: SubnetId)
    requires call.Call? && Step(m, call, m')
    requires call.event.op.Pin? || call.event.op.Unpin? || call.event.op.SetRoutable?
    requires Tracks(m.cache, Replay(m.notices), dangling, p, s)
    ensures Tracks(m'.cache, Replay(m'.notices), DanglesAfter(m.cache, call, dangling, p, s), p, s)
  {
    assert m'.notices == m.notices;
  }

  /** Each call keeps a listener's beliefs equal to the listed and the dangling pairs. */
  lemma TracksAfter(m: Told, call: Call, m': Told, dangling: bool, p: PeerId, s: SubnetId)
    ensures Step(m, call, m') && Tracks(m.cache, Replay(m.notices), dangling, p, s) ==>
      Tracks(m'.cache, Replay(m'.notices), DanglesAfter(m.cache, call, dangling, p, s), p, s)
  {
    if Step(m, call, m') && Tracks(m.cache, Replay(m.notices), dangling, p, s) {
      if call.Pass? {
        ReplayMore(m.notices, call.notice);
      } else if call.event.op.Add? {
        TracksAfterRecord(m, call, m', dangling, p, s);
      } else if call.event.op.SetUnroutable? {
        TracksAfterUnroutable(m, call, m', dangling, p, s);
      } else if call.event.op.Expire? {
        TracksAfterExpiry(m, call, m', dangling, p, s);
      } else {
        TracksAfterQuiet(m, call, m', dangling, p, s);
      }
    }
  }

  lemma {:induction false} KeepUp(told: seq<Told>, t: seq<Call>, n: nat, p: PeerId, s: SubnetId)
    requires Run(told, t) && n <= |t|
    ensures Tracks(told[n].cache, Replay(told[n].notices), Dangling(told, t, n, p, s), p, s)
  {
    hide Step;
    if n > 0 {
      KeepUp(told, t, n - 1, p, s);
      TracksAfter(told[n - 1], t[n - 1], told[n], Dangling(told, t, n - 1, p, s), p, s);
      DanglingMore(told, t, n, p, s);
    }
  }

  // ---------- What a listener knows ----------

  /**
   In every run a listener believes in exactly the listed pairs and the dangling ones, and no pair
   is both: evictions are not announced.
   */
  lemma ListenersKeepUp(told: seq<Told>, t: seq<Call>, p: PeerId, s: SubnetId)
    requires Run(told, t)
    ensures (p, s) in Replay(told[|t|].notices) <==> told[|t|].cache.Listed(p, s) || Dangling(told, t, |t|, p, s)
    ensures !(told[|t|].cache.Listed(p, s) && Dangling(told, t, |t|, p, s))
  {
    KeepUp(told, t, |t|, p, s);
  }

  /** A listener's picture of the cache is exact if and only if no pair dangles. */
  lemma ListenersExactIff(told: seq<Told>, t: seq<Call>)
    requires Run(told, t)
    ensures (forall p, s :: (p, s) in Replay(told[|t|].notices) <==> told[|t|].cache.Listed(p, s))
       <==> (forall p, s :: !Dangling(told, t, |t|, p, s))
  {
    hide Step, Replay, Dangling;
    forall p, s
      ensures ((p, s) in Replay(told[|t|].notices) <==> told[|t|].cache.Listed(p, s)) <==> !Dangling(told, t, |t|, p, s)
    {
      ListenersKeepUp(told, t, p, s);
    }
  }

  /** Each call is a transition of the cache in full, the choice of victims included. */
  predicate Genuine(told: seq<Told>, t: seq<Call>) {
    && Run(told, t)
    && told[0].cache == New(told[0].cache.maxSubnets, {})
    && forall i {:trigger t[i]} :: 0 <= i < |t| && t[i].Call? ==>
         ProviderCache.Step(told[i].cache, t[i].event, told[i + 1].cache)
  }

  /** A cache with room for one subnet that has heard from one peer only, at `time`. */
  function Small(p: PeerId, providers: map<SubnetId, set<PeerId>>, time: Timestamp): Cache {
    Cache(1, {}, {p}, providers, map[p := time])
  }

  lemma FirstRecord(p: PeerId, a: SubnetId)
    ensures var c, r, c' := New(1, {}).(routable := {p}), ProviderRecord(p, [a], 1), Small(p, map[a := {p}], 1);
      && ProviderCache.Step(c, Event(Add(r), {}), c')
      && IsDelta(c, r, c', ProviderDelta(true, [a], []))
  {
    hide IsEviction, Register, Evict;
    var c, r, c' := New(1, {}).(routable := {p}), ProviderRecord(p, [a], 1), Small(p, map[a := {p}], 1);
    ProviderOrder.FirstRegistered(p, a);
    assert c'.providers.Keys == {a};
    NothingToEvict(c');
    assert c'.SubnetsOf(p) == {a} && c.SubnetsOf(p) == {};
  }

  lemma BothRegistered(p: PeerId, a: SubnetId, b: SubnetId)
    ensures Register(Small(p, map[a := {p}], 1), ProviderRecord(p, [a, b], 2)) == Small(p, map[a := {p}, b := {p}], 2)
  {
    var registered := Register(Small(p, map[a := {p}], 1), ProviderRecord(p, [a, b], 2));
    assert {p} + {p} == {p} && {} + {p} == {p};
    assert registered.providers == map[a := {p}, b := {p}];
    assert registered.timestamps == map[p := 2];
  }

  lemma OneOfTwoEvicted(p: PeerId, a: SubnetId, b: SubnetId)
    requires a != b
    ensures IsEviction(Small(p, map[a := {p}, b := {p}], 2), {a})
    ensures Evict(Small(p, map[a := {p}, b := {p}], 2), {a}) == Small(p, map[b := {p}], 2)
  {
    var c := Small(p, map[a := {p}, b := {p}], 2);
    assert c.providers.Keys == {a, b} == c.Evictable();
    assert c.NoMoreProviders(a, b);
    assert c.providers - {a} == map[b := {p}];
  }

  lemma SecondRecord(p: PeerId, a: SubnetId, b: SubnetId)
    requires a != b
    ensures var c, r, c' := Small(p, map[a := {p}], 1), ProviderRecord(p, [a, b], 2), Small(p, map[b := {p}], 2);
      && ProviderCache.Step(c, Event(Add(r), {a}), c')
      && IsDelta(c, r, c', ProviderDelta(false, [b], []))
  {
    hide IsEviction, Register, Evict;
    var c, r, c' := Small(p, map[a := {p}], 1), ProviderRecord(p, [a, b], 2), Small(p, map[b := {p}], 2);
    BothRegistered(p, a, b);
    OneOfTwoEvicted(p, a, b);
    assert c.SubnetsOf(p) == {a} && c'.SubnetsOf(p) == {b};
    assert c.SubnetsOf(p) - ToSet(r.subnetIds) == {};
  }

  /** A record that changes something is announced by its delta. */
  lemma RecordAnnounced(
    c: Cache, r: ProviderRecord, evicted: set<SubnetId>, c': Cache, d: ProviderDelta, before: seq<Notice>)
    requires ProviderCache.Step(c, Event(Add(r), evicted), c') && IsDelta(c, r, c', d)
    requires r.peerId in c.routable && !d.IsEmpty()
    ensures Step(Told(c, before), Call(Event(Add(r), evicted), d, []), Told(c', before + [Updated(r.peerId, d)]))
  {
  }

  /** The calls of a run of three, one by one. */
  lemma ThreeCalls(told: seq<Told>, t: seq<Call>)
    requires |told| == 4 && |t| == 3 && told[0] == Told(New(told[0].cache.maxSubnets, {}), [])
    requires Step(told[0], t[0], told[1]) && Step(told[1], t[1], told[2]) && Step(told[2], t[2], told[3])
    requires t[0].Call? && ProviderCache.Step(told[0].cache, t[0].event, told[1].cache)
    requires t[1].Call? && ProviderCache.Step(told[1].cache, t[1].event, told[2].cache)
    requires t[2].Call? && ProviderCache.Step(told[2].cache, t[2].event, told[3].cache)
    ensures Genuine(told, t)
  {
    hide Step, ProviderCache.Step;
  }

  lemma Welcomed(c: Cache, p: PeerId, d: ProviderDelta)
    ensures var c' := c.(routable := c.routable + {p});
      && ProviderCache.Step(c, Event(SetRoutable(p), {}), c')
      && Step(Told(c, []), Call(Event(SetRoutable(p), {}), d, []), Told(c', []))
  {
  }

  /**
   A peer that adds a second subnet to its record where there is room for one: the first may be
   evicted, and the listener goes on believing in it.
   */
  lemma ListenerLeftBehind(p: PeerId, a: SubnetId, b: SubnetId) returns (told: seq<Told>, t: seq<Call>)
    requires a != b
    ensures Genuine(told, t)
    ensures (p, a) in Replay(told[|t|].notices) && !told[|t|].cache.Listed(p, a)
  {
    hide IsDelta, ProviderCache.Step, Step, Replay;
    var r1, r2 := ProviderRecord(p, [a], 1), ProviderRecord(p, [a, b], 2);
    var c0, c1 := New(1, {}), New(1, {}).(routable := {p});
    var c2, c3 := Small(p, map[a := {p}], 1), Small(p, map[b := {p}], 2);
    var d1, d2 := ProviderDelta(true, [a], []), ProviderDelta(false, [b], []);
    var n1 := [] + [Updated(p, d1)];
    told := [Told(c0, []), Told(c1, []), Told(c2, n1), Told(c3, n1 + [Updated(p, d2)])];
    t := [Call(Event(SetRoutable(p), {}), d1, []), Call(Event(Add(r1), {}), d1, []), Call(Event(Add(r2), {a}), d2, [])];
    assert c0.routable + {p} == {p};
    Welcomed(c0, p, d1);
    FirstRecord(p, a);
    RecordAnnounced(c1, r1, {}, c2, d1, []);
    SecondRecord(p, a, b);
    RecordAnnounced(c2, r2, {a}, c3, d2, n1);
    ThreeCalls(told, t);
    ListenersKeepUp(told, t, p, a);
    assert LeavesBehind(told[2].cache, t[2], p, a);
    assert Dangling(told, t, 3, p, a);
  }

  // ---------- What is announced ----------

  /** The calls on the cache among those of a run. */
  function CacheEvents(t: seq<Call>): seq<Event> {
    if t == [] then [] else
      CacheEvents(t[..|t| - 1]) + (if t[|t| - 1].Call? then [t[|t| - 1].event] else [])
  }

  /** A run from a new cache. */
  predicate FreshRun(told: seq<Told>, t: seq<Call>) {
    Run(told, t) && told[0].cache == New(told[0].cache.maxSubnets, told[0].cache.pinned)
  }

  lemma CacheEventsMore(t: seq<Call>, n: nat)
    requires n < |t|
    ensures CacheEvents(t[..n + 1]) == CacheEvents(t[..n]) + (if t[n].Call? then [t[n].event] else [])
  {
    assert t[..n + 1][..n] == t[..n];
  }

  lemma SessionMore(events: seq<Event>, e: Event, p: PeerId)
    ensures SessionAfter(events + [e], p) == NextSession(SessionAfter(events, p), e, p)
  {
    assert (events + [e])[..|events|] == events;
  }

  lemma CallMoves(m: Told, call: Call, m': Told)
    requires Step(m, call, m')
    ensures call.Call? ==> Moves(m.cache, call.event, m'.cache)
    ensures call.Pass? ==> m'.cache == m.cache
  {
  }

  /** In every run the cache agrees with the history of its calls, votes and data in between or not. */
  lemma {:induction false} CacheAgrees(told: seq<Told>, t: seq<Call>, n: nat, p: PeerId)
    requires FreshRun(told, t) && n <= |t|
    ensures Agrees(told[n].cache, SessionAfter(CacheEvents(t[..n]), p), p)
  {
    hide Step, Agrees, NextSession, Moves;
    if n == 0 {
      AgreesAtFirst(told[0].cache, p);
    } else {
      var call := t[n - 1];
      CacheAgrees(told, t, n - 1, p);
      CacheEventsMore(t, n - 1);
      CallMoves(told[n - 1], call, told[n]);
      var before := CacheEvents(t[..n - 1]);
      if call.Call? {
        SessionMore(before, call.event, p);
        AgreesAfter(told[n - 1].cache, call.event, told[n].cache, SessionAfter(before, p), p);
      } else {
        assert before + [] == before;
      }
    }
  }

  lemma AgreesAtFirst(c: Cache, p: PeerId)
    requires c == New(c.maxSubnets, c.pinned)
    ensures Agrees(c, SessionAfter([], p), p)
  {
  }

  /** What a record from a peer must lead to, by the peer's history before it. */
  ghost function Expected(session: Session, p: PeerId, delta: ProviderDelta): seq<Notice> {
    if session.Down? then [Skipped(p)]
    else if Heard(session.log, p) && delta.added == [] && delta.removed == [] then []
    else [Updated(p, delta)]
  }

  /**
   In every run, each record delivered is announced: as skipped exactly if its peer is not
   routable by then; otherwise with its delta, which is called new exactly for the first record
   of the peer since it became routable, unless it was heard before and nothing changed.
   */
  lemma RecordsAreAnnounced(told: seq<Told>, t: seq<Call>, i: nat)
    requires FreshRun(told, t) && i < |t| && t[i].Call? && t[i].event.op.Add?
    ensures var p := t[i].event.op.record.peerId;
      var session := SessionAfter(CacheEvents(t[..i]), p);
      && told[i + 1].notices == told[i].notices + Expected(session, p, t[i].delta)
      && (session.Up? ==> (t[i].delta.isNew <==> !Heard(session.log, p)))
  {
    hide SessionAfter, Moves, Heard;
    CacheAgrees(told, t, i, t[i].event.op.record.peerId);
    assert Step(told[i], t[i], told[i + 1]);
  }

  ghost function Removes(notices: seq<Notice>, p: PeerId): nat {
    multiset(notices)[Removed(p)]
  }

  lemma {:induction false} RemovalsOnce(pruned: seq<PeerId>, p: PeerId)
    requires NoDuplicates(pruned)
    ensures Removes(Removals(pruned), p) == (if p in pruned then 1 else 0)
  {
    if pruned != [] {
      var init, q := pruned[..|pruned| - 1], pruned[|pruned| - 1];
      RemovalsOnce(init, p);
      assert Removals(pruned) == Removals(init) + [Removed(q)];
      assert pruned == init + [q];
    }
  }

  /** The peer is announced as removed by this call, according to its history. */
  ghost predicate Leaves(session: Session, op: Op, p: PeerId) {
    match op
    case SetUnroutable(q) => q == p
    case Expire(cutoff) => session.Up? && Heard(session.log, p) && MaxTimestamp(session.log, p) < cutoff
    case _ => false
  }

  /**
   In every run, a peer is announced as removed, once, by each call that makes it unroutable and by
   each expiry that finds all its records too old, and by nothing else.
   */
  lemma RemovalsAreAnnounced(told: seq<Told>, t: seq<Call>, i: nat, p: PeerId)
    requires FreshRun(told, t) && i < |t|
    ensures var session := SessionAfter(CacheEvents(t[..i]), p);
      Removes(told[i + 1].notices, p) ==
        Removes(told[i].notices, p) + if t[i].Call? && Leaves(session, t[i].event.op, p) then 1 else 0
  {
    hide SessionAfter, Heard;
    CacheAgrees(told, t, i, p);
    AnnouncedRemovals(told[i], t[i], told[i + 1], SessionAfter(CacheEvents(t[..i]), p), p);
  }

  lemma AnnouncedRemovals(m: Told, call: Call, m': Told, session: Session, p: PeerId)
    requires Step(m, call, m') && Agrees(m.cache, session, p)
    ensures Removes(m'.notices, p) ==
      Removes(m.notices, p) + if call.Call? && Leaves(session, call.event.op, p) then 1 else 0
  {
    hide Moves, Heard, IsDelta;
    if call.Call? && call.event.op.Expire? {
      RemovalsOnce(call.pruned, p);
      assert p in call.pruned <==> p in ToSet(call.pruned);
    }
  }
}
