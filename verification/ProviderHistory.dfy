/**
 What every run of the provider cache amounts to: the associations it lists are a function of
 the records delivered, however calls are interleaved and whatever is evicted on the way.
 */
module ProviderHistory {
  import opened Primitives
  import opened ProviderCache

  // ---------- The reference ----------

  /** Whether any record in the log comes from the peer. */
  ghost predicate Heard(log: seq<ProviderRecord>, p: PeerId) {
    exists i :: 0 <= i < |log| && log[i].peerId == p
  }

  /** The i-th record is its peer's first among those with the peer's highest timestamp. */
  ghost predicate FirstLatest(log: seq<ProviderRecord>, i: int) {
    && 0 <= i < |log|
    && forall j :: 0 <= j < |log| && log[j].peerId == log[i].peerId ==>
         if j < i then log[j].timestamp < log[i].timestamp else log[j].timestamp <= log[i].timestamp
  }

  /** The record that decides what a peer provides. Timestamp 0 stands for "never heard" and decides nothing. */
  ghost predicate Decides(log: seq<ProviderRecord>, p: PeerId, i: int) {
    FirstLatest(log, i) && log[i].peerId == p && 0 < log[i].timestamp
  }

  ghost predicate Provides(log: seq<ProviderRecord>, p: PeerId, s: SubnetId) {
    exists i :: Decides(log, p, i) && s in log[i].subnetIds
  }

  /** The highest timestamp among the records of a peer, 0 if there are none. */
  function MaxTimestamp(log: seq<ProviderRecord>, p: PeerId): Timestamp {
    if log == [] then 0 else
      var before, r := MaxTimestamp(log[..|log| - 1], p), log[|log| - 1];
      if r.peerId == p && before < r.timestamp then r.timestamp else before
  }

  // ---------- Sessions ----------

  /**
   A peer's standing after a run. While it is up, `log` holds all the records delivered since it
   became routable, and `lost` the subnets evicted since its deciding record was applied.
   */
  datatype Session = Down | Up(log: seq<ProviderRecord>, lost: set<SubnetId>)

  ghost function SessionAfter(t: seq<Event>, p: PeerId): Session {
    if t == [] then Down else NextSession(SessionAfter(t[..|t| - 1], p), t[|t| - 1], p)
  }

  ghost function NextSession(was: Session, e: Event, p: PeerId): Session {
    match e.op
    case SetRoutable(q) => if q == p && was.Down? then Up([], {}) else was
    case SetUnroutable(q) => if q == p then Down else was
    case Expire(cutoff) => if was.Up? && Heard(was.log, p) && MaxTimestamp(was.log, p) < cutoff then Down else was
    case Add(r) =>
      if was.Down? then Down
      else if r.peerId == p && MaxTimestamp(was.log, p) < r.timestamp then Up(was.log + [r], e.evicted)
      else Up(was.log + [r], was.lost + e.evicted)
    case Pin(_) => was
    case Unpin(_) => was
  }

  /** The cache knows about the peer exactly what the session says. */
  ghost predicate Agrees(c: Cache, session: Session, p: PeerId) {
    match session
    case Down => p !in c.routable && p !in c.timestamps && c.SubnetsOf(p) == {}
    case Up(log, lost) =>
      && p in c.routable
      && (p in c.timestamps <==> Heard(log, p))
      && c.TimestampOf(p) == MaxTimestamp(log, p)
      && forall s :: c.Listed(p, s) <==> Provides(log, p, s) && s !in lost
  }

  // ---------- Extending the log ----------

  lemma {:induction false} MaxTimestampBounds(log: seq<ProviderRecord>, p: PeerId)
    ensures forall j :: 0 <= j < |log| && log[j].peerId == p ==> log[j].timestamp <= MaxTimestamp(log, p)
    ensures MaxTimestamp(log, p) > 0 ==>
      exists j :: 0 <= j < |log| && log[j].peerId == p && log[j].timestamp == MaxTimestamp(log, p)
  {
    if log != [] {
      var init := log[..|log| - 1];
      MaxTimestampBounds(init, p);
      if MaxTimestamp(log, p) == MaxTimestamp(init, p) > 0 {
        var j :| 0 <= j < |init| && init[j].peerId == p && init[j].timestamp == MaxTimestamp(init, p);
        assert log[j] == init[j];
      }
    }
  }

  /** A record that is newer than all of its peer's becomes the deciding one; any other changes nothing. */
  lemma ProvidesAfter(log: seq<ProviderRecord>, r: ProviderRecord, p: PeerId, s: SubnetId)
    ensures Provides(log + [r], p, s) <==>
      if r.peerId == p && MaxTimestamp(log, p) < r.timestamp then s in r.subnetIds else Provides(log, p, s)
  {
    var both := log + [r];
    MaxTimestampBounds(log, p);
    if r.peerId == p && MaxTimestamp(log, p) < r.timestamp {
      assert Decides(both, p, |log|);
      forall i | Decides(both, p, i)
        ensures i == |log|
      {
        assert both[|log|].timestamp <= both[i].timestamp;
      }
    } else {
      forall i
        ensures Decides(both, p, i) <==> Decides(log, p, i)
      {
        DecidesIgnoresOlder(log, r, p, i);
      }
      assert forall i :: Decides(log, p, i) ==> both[i] == log[i];
    }
  }

  lemma OlderDoesNotDecide(log: seq<ProviderRecord>, r: ProviderRecord, p: PeerId)
    requires r.peerId != p || r.timestamp <= MaxTimestamp(log, p)
    ensures !Decides(log + [r], p, |log|)
  {
    MaxTimestampBounds(log, p);
    if r.peerId == p && 0 < r.timestamp {
      var j :| 0 <= j < |log| && log[j].peerId == p && log[j].timestamp == MaxTimestamp(log, p);
      assert (log + [r])[j] == log[j];
    }
  }

  lemma DecidesIgnoresOlder(log: seq<ProviderRecord>, r: ProviderRecord, p: PeerId, i: int)
    requires r.peerId != p || r.timestamp <= MaxTimestamp(log, p)
    ensures Decides(log + [r], p, i) <==> Decides(log, p, i)
  {
    var both := log + [r];
    MaxTimestampBounds(log, p);
    OlderDoesNotDecide(log, r, p);
    if Decides(both, p, i) {
      assert forall j :: 0 <= j < |log| ==> both[j] == log[j];
    }
    if Decides(log, p, i) {
      assert both[i] == log[i];
      assert r.peerId == p ==> r.timestamp <= log[i].timestamp by {
        if MaxTimestamp(log, p) > 0 {
          var j :| 0 <= j < |log| && log[j].peerId == p && log[j].timestamp == MaxTimestamp(log, p);
        }
      }
    }
  }

  lemma HeardAfter(log: seq<ProviderRecord>, r: ProviderRecord, p: PeerId)
    ensures Heard(log + [r], p) <==> Heard(log, p) || r.peerId == p
    ensures MaxTimestamp(log + [r], p) ==
      if r.peerId == p && MaxTimestamp(log, p) < r.timestamp then r.timestamp else MaxTimestamp(log, p)
  {
  }

  // ---------- The main theorem ----------

  lemma AgreesAfterForget(c: Cache, ps: set<PeerId>, session: Session, p: PeerId)
    requires Agrees(c, session, p)
    ensures Agrees(Forget(c, ps), if p in ps then Down else session, p)
  {
  }

  lemma AgreesAfterAdd(c: Cache, r: ProviderRecord, evicted: set<SubnetId>, c': Cache, session: Session, p: PeerId)
    requires Moves(c, Event(Add(r), evicted), c')
    requires Agrees(c, session, p)
    ensures Agrees(c', NextSession(session, Event(Add(r), evicted), p), p)
  {
    AddSetsAssociations(c, r, evicted, c', p);
    if session.Up? {
      HeardAfter(session.log, r, p);
      forall s
        ensures c'.Listed(p, s) <==>
          (if r.peerId == p && Applies(c, r) then s in r.subnetIds else c.Listed(p, s)) && s !in evicted
      {
        assert c'.Listed(p, s) <==> s in c'.SubnetsOf(p);
        assert c.Listed(p, s) <==> s in c.SubnetsOf(p);
      }
      forall s {
        ProvidesAfter(session.log, r, p, s);
      }
    }
  }

  lemma AgreesAfter(c: Cache, e: Event, c': Cache, session: Session, p: PeerId)
    requires Moves(c, e, c')
    requires Agrees(c, session, p)
    ensures Agrees(c', NextSession(session, e, p), p)
  {
    match e.op
    case Pin(_) =>
    case Unpin(_) =>
    case SetRoutable(q) =>
      forall s
        ensures !Provides([], p, s)
        ensures c.Listed(p, s) <==> s in c.SubnetsOf(p)
      {
      }
    case SetUnroutable(q) => AgreesAfterForget(c, {q}, session, p);
    case Expire(cutoff) => AgreesAfterForget(c, c.Stale(cutoff), session, p);
    case Add(r) =>
      assert e == Event(Add(r), e.evicted);
      AgreesAfterAdd(c, r, e.evicted, c', session, p);
  }

  /** In every run, the cache and the history of deliveries agree on every peer. */
  lemma {:induction false} CacheFollowsHistory(
    maxSubnets: nat, pinned: set<SubnetId>, states: seq<Cache>, t: seq<Event>, p: PeerId)
    requires IsRunFrom(maxSubnets, pinned, states, t)
    ensures Agrees(states[|t|], SessionAfter(t, p), p)
    decreases |t|
  {
    if t != [] {
      var n := |t| - 1;
      CacheFollowsHistory(maxSubnets, pinned, states[..n + 1], t[..n], p);
      assert Step(states[n], t[n], states[n + 1]);
      AgreesAfter(states[n], t[n], states[n + 1], SessionAfter(t[..n], p), p);
    }
  }
}
