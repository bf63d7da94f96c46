/**
 The membership behaviour: the provider cache, the outbox that reports on it, the topic
 subscriptions and the publish timer, driven by client calls, gossip and polling.

 Gossipsub's answers and the clock are parameters. Each method is tied to a step of
 `MembershipEvents`, `Topics` and `PublishTimer`, where all runs of such steps are treated.
 */
module Membership {
  import opened Primitives
  import opened ProviderCache
  import opened ProviderCacheImpl
  import E = MembershipEvents
  import T = Topics
  import P = PublishTimer

  const NO_DELTA := ProviderDelta(false, [], [])

  class Behaviour {
    const networkName: string
    const maxProviderAge: nat
    const publishPeriod: nat
    const minTimeBetweenPublish: nat
    const providerCache: SubnetProviderCache
    var outbox: seq<E.Notice>
    var subnetIds: seq<SubnetId>
    var votingTopics: set<T.TopicHash>
    var preemptiveTopics: map<T.TopicHash, SubnetId>
    var lastPublishTimestamp: Timestamp
    var nextPublishTimestamp: Timestamp
    var publishDeadline: nat
    ghost var emitted: seq<E.Notice>

    ghost function Told(): E.Told
      reads this, providerCache
    {
      E.Told(providerCache.State(), emitted + outbox)
    }

    function Subscriptions(): T.Subscriptions
      reads this, providerCache
    {
      T.Subscriptions(subnetIds, votingTopics, preemptiveTopics, providerCache.pinnedSubnets)
    }

    function Timer(): P.Timer
      reads this
    {
      P.Timer(publishPeriod, minTimeBetweenPublish, lastPublishTimestamp, nextPublishTimestamp, publishDeadline)
    }

    constructor (networkName: string, maxSubnets: nat, publishPeriod: nat, minTimeBetweenPublish: nat,
                 maxProviderAge: nat, now: Timestamp)
      ensures this.networkName == networkName && this.maxProviderAge == maxProviderAge
      ensures fresh(providerCache)
      ensures Told() == E.Told(New(maxSubnets, {}), [])
      ensures Subscriptions() == T.NONE
      ensures Timer() == P.New(publishPeriod, minTimeBetweenPublish, now)
    {
      this.networkName := networkName;
      this.maxProviderAge := maxProviderAge;
      this.publishPeriod, this.minTimeBetweenPublish := publishPeriod, minTimeBetweenPublish;
      providerCache := new SubnetProviderCache(maxSubnets, []);
      outbox, emitted := [], [];
      subnetIds, votingTopics, preemptiveTopics := [], {}, map[];
      lastPublishTimestamp, nextPublishTimestamp := 0, Later(now, publishPeriod);
      publishDeadline := now + publishPeriod;
    }

    // ---------- Subscriptions ----------

    /** The pin and the topic are set together, or neither is when gossipsub refuses. */
    method PinSubnet(subnetId: SubnetId, ok: bool) returns (accepted: bool)
      modifies this, providerCache
      ensures accepted == ok
      ensures Subscriptions() == T.Step(networkName, old(Subscriptions()), T.Pin(subnetId, ok))
      ensures if ok then E.Step(old(Told()), E.Call(Event(Pin(subnetId), {}), NO_DELTA, []), Told())
              else Told() == old(Told())
      ensures Timer() == old(Timer())
    {
      if !ok {
        return false;
      }
      preemptiveTopics := preemptiveTopics[T.PreemptiveTopic(networkName, subnetId) := subnetId];
      providerCache.PinSubnet(subnetId);
      return true;
    }

    /** The pin and the topic are dropped together, or neither is when gossipsub refuses. */
    method UnpinSubnet(subnetId: SubnetId, ok: bool) returns (accepted: bool)
      modifies this, providerCache
      ensures accepted == ok
      ensures Subscriptions() == T.Step(networkName, old(Subscriptions()), T.Unpin(subnetId, ok))
      ensures if ok then E.Step(old(Told()), E.Call(Event(Unpin(subnetId), {}), NO_DELTA, []), Told())
              else Told() == old(Told())
      ensures Timer() == old(Timer())
    {
      if !ok {
        return false;
      }
      preemptiveTopics := preemptiveTopics - {T.PreemptiveTopic(networkName, subnetId)};
      providerCache.UnpinSubnet(subnetId);
      return true;
    }

    /** The topics of removed subnets go in list order, up to the first refusal. */
    method UnsubscribeRemoved(oldIds: seq<SubnetId>, ids: seq<SubnetId>, accepted: nat) returns (done: bool, calls: nat)
      modifies this`votingTopics
      ensures var gone := T.Excluding(oldIds, ids);
        && votingTopics == old(votingTopics) - T.VotingTopics(networkName, T.Dropped(gone, accepted))
        && (done <==> |gone| <= accepted)
        && (done ==> calls == |gone|)
    {
      calls := 0;
      for i := 0 to |oldIds|
        invariant calls == |T.Excluding(oldIds[..i], ids)| <= accepted
        invariant votingTopics == old(votingTopics) - T.VotingTopics(networkName, ToSet(T.Excluding(oldIds[..i], ids)))
      {
        T.ExcludingStep(oldIds, ids, i);
        if oldIds[i] !in ids {
          if calls == accepted {
            T.ExcludingStopsShort(oldIds, ids, i);
            return false, calls;
          }
          T.OneMoreTopic(networkName, oldIds, ids, i);
          votingTopics := votingTopics - {T.VotingTopic(networkName, oldIds[i])};
          calls := calls + 1;
        }
      }
      assert oldIds[..|oldIds|] == oldIds;
      assert T.Excluding(oldIds, ids)[..calls] == T.Excluding(oldIds, ids);
      return true, calls;
    }

    /** The topics of added subnets come in list order, up to the first refusal. */
    method SubscribeAdded(oldIds: seq<SubnetId>, ids: seq<SubnetId>, accepted: nat) returns (done: bool)
      modifies this`votingTopics
      ensures var added := T.Excluding(ids, oldIds);
        && votingTopics == old(votingTopics) + T.VotingTopics(networkName, T.Dropped(added, accepted))
        && (done <==> |added| <= accepted)
    {
      var calls := 0;
      for i := 0 to |ids|
        invariant calls == |T.Excluding(ids[..i], oldIds)| <= accepted
        invariant votingTopics == old(votingTopics) + T.VotingTopics(networkName, ToSet(T.Excluding(ids[..i], oldIds)))
      {
        T.ExcludingStep(ids, oldIds, i);
        if ids[i] !in oldIds {
          if calls == accepted {
            T.ExcludingStopsShort(ids, oldIds, i);
            return false;
          }
          T.OneMoreTopic(networkName, ids, oldIds, i);
          votingTopics := votingTopics + {T.VotingTopic(networkName, ids[i])};
          calls := calls + 1;
        }
      }
      assert ids[..|ids|] == ids;
      assert T.Excluding(ids, oldIds)[..calls] == T.Excluding(ids, oldIds);
      return true;
    }

    /**
     Replaces the list of provided subnets. Gossipsub accepts the first `accepted` changes of
     subscriptions and refuses the next, if there are that many; the list is then left empty.
     */
    method SetProvidedSubnets(ids: seq<SubnetId>, accepted: nat, publishOk: bool, now: Timestamp) returns (done: bool)
      modifies this
      ensures var op := T.SetProvided(ids, accepted);
        && Subscriptions() == T.Step(networkName, old(Subscriptions()), op)
        && done == (!T.Fails(old(Subscriptions()), op) && publishOk)
      ensures Told() == old(Told())
      ensures Timer() == if done then P.Step(old(Timer()), now, P.Published) else old(Timer())
    {
      T.SetProvidedInStages(networkName, Subscriptions(), ids, accepted);
      var oldIds := subnetIds;
      subnetIds := [];
      var calls;
      done, calls := UnsubscribeRemoved(oldIds, ids, accepted);
      if !done {
        return false;
      }
      done := SubscribeAdded(oldIds, ids, accepted - calls);
      if !done {
        return false;
      }
      subnetIds := ids;
      done := PublishMembership(publishOk, now);
    }

    /** A subnet that is provided already costs nothing; any other must be accepted and then published. */
    method AddProvidedSubnet(id: SubnetId, ok: bool, publishOk: bool, now: Timestamp) returns (done: bool)
      modifies this
      ensures Subscriptions() == T.Step(networkName, old(Subscriptions()), T.AddProvided(id, ok))
      ensures done == (id in old(subnetIds) || (ok && publishOk))
      ensures Told() == old(Told())
      ensures Timer() == if done && id !in old(subnetIds) then P.Step(old(Timer()), now, P.Published) else old(Timer())
    {
      if id in subnetIds {
        return true;
      }
      if !ok {
        return false;
      }
      votingTopics := votingTopics + {T.VotingTopic(networkName, id)};
      subnetIds := subnetIds + [id];
      done := PublishMembership(publishOk, now);
    }

    /** All occurrences of the subnet go, if there are any and gossipsub accepts. */
    method RemoveProvidedSubnet(id: SubnetId, ok: bool, publishOk: bool, now: Timestamp) returns (done: bool)
      modifies this
      ensures Subscriptions() == T.Step(networkName, old(Subscriptions()), T.RemoveProvided(id, ok))
      ensures done == (id !in old(subnetIds) || (ok && publishOk))
      ensures Told() == old(Told())
      ensures Timer() == if done && id in old(subnetIds) then P.Step(old(Timer()), now, P.Published) else old(Timer())
    {
      if id !in subnetIds {
        return true;
      }
      if !ok {
        return false;
      }
      votingTopics := votingTopics - {T.VotingTopic(networkName, id)};
      subnetIds := T.Excluding(subnetIds, [id]);
      done := PublishMembership(publishOk, now);
    }

    // ---------- Publishing ----------

    /** Only a successful publication resets the timer. */
    method PublishMembership(ok: bool, now: Timestamp) returns (published: bool)
      modifies this`lastPublishTimestamp, this`nextPublishTimestamp, this`publishDeadline
      ensures published == ok
      ensures Timer() == if ok then P.Step(old(Timer()), now, P.Published) else old(Timer())
    {
      if ok {
        lastPublishTimestamp := now;
        nextPublishTimestamp := Later(lastPublishTimestamp, publishPeriod);
        publishDeadline := now + publishPeriod;
      }
      return ok;
    }

    /** Brings the next publication forward to the minimum gap, if none was recent and none is near. */
    method PublishForNewPeer(now: Timestamp)
      modifies this`nextPublishTimestamp, this`publishDeadline
      ensures Timer() == P.Step(old(Timer()), now, P.NewPeer(subnetIds != []))
    {
      if subnetIds == [] {
        return;
      }
      if lastPublishTimestamp > Earlier(now, minTimeBetweenPublish) {
        // One was recent.
      } else if nextPublishTimestamp <= Later(now, minTimeBetweenPublish) {
        // One is near.
      } else {
        nextPublishTimestamp := Later(now, minTimeBetweenPublish);
        publishDeadline := now + minTimeBetweenPublish;
      }
    }

    // ---------- Peers and their records ----------

    /** A routable peer counts as new to the timer, whether or not it was known. */
    method SetRoutable(peerId: PeerId, now: Timestamp)
      modifies this, providerCache
      ensures E.Step(old(Told()), E.Call(Event(Op.SetRoutable(peerId), {}), NO_DELTA, []), Told())
      ensures Subscriptions() == old(Subscriptions())
      ensures Timer() == P.Step(old(Timer()), now, P.NewPeer(old(subnetIds) != []))
    {
      providerCache.SetRoutable(peerId);
      PublishForNewPeer(now);
    }

    /** The loss is announced even for a peer that was not known. */
    method SetUnroutable(peerId: PeerId)
      modifies this, providerCache
      ensures E.Step(old(Told()), E.Call(Event(Op.SetUnroutable(peerId), {}), NO_DELTA, []), Told())
      ensures Subscriptions() == old(Subscriptions())
      ensures Timer() == old(Timer())
    {
      providerCache.SetUnroutable(peerId);
      outbox := outbox + [E.Removed(peerId)];
    }

    /** The record's fate is announced; a peer heard for the first time counts as new to the timer. */
    method HandleProviderRecord(record: ProviderRecord, now: Timestamp) returns (ghost call: E.Call)
      modifies this, providerCache
      ensures call.Call? && call.event.op == Add(record)
      ensures E.Step(old(Told()), call, Told())
      ensures Step(old(Told()).cache, call.event, Told().cache)
      ensures Subscriptions() == old(Subscriptions())
      ensures Timer() ==
        if record.peerId in old(providerCache.routablePeers) && record.peerId !in old(providerCache.peerTimestamps)
        then P.Step(old(Timer()), now, P.NewPeer(old(subnetIds) != []))
        else old(Timer())
    {
      ghost var evicted;
      var result;
      result, evicted := providerCache.AddProvider(record);
      var publish := false;
      call := E.Call(Event(Add(record), evicted), NO_DELTA, []);
      match result {
        case None =>
          outbox := outbox + [E.Skipped(record.peerId)];
        case Some(delta) =>
          call := E.Call(Event(Add(record), evicted), delta, []);
          if !(delta.IsEmpty() && !delta.isNew) {
            publish := delta.isNew;
            outbox := outbox + [E.Updated(record.peerId, delta)];
          }
      }
      if publish {
        PublishForNewPeer(now);
      }
    }

    /** Only subscribers to the membership topic count as new to the timer. */
    method HandleSubscriber(topic: T.TopicHash, now: Timestamp)
      modifies this
      ensures Told() == old(Told()) && Subscriptions() == old(Subscriptions())
      ensures Timer() == if topic == T.MembershipTopic(networkName)
        then P.Step(old(Timer()), now, P.NewPeer(old(subnetIds) != [])) else old(Timer())
    {
      if topic == T.MembershipTopic(networkName) {
        PublishForNewPeer(now);
      }
    }

    /**
     The topic alone decides who gets a message. `record` is what its data decodes to as a provider
     record, if it does, and `isVote` whether it decodes as a vote.
     */
    method HandleMessage(topic: T.TopicHash, record: Option<ProviderRecord>, isVote: bool, now: Timestamp)
      returns (ghost call: Option<E.Call>)
      modifies this, providerCache
      ensures match T.Dispatch(networkName, old(Subscriptions()), topic)
              case ToMembership =>
                && (call.Some? <==> record.Some?)
                && (call.Some? ==> call.value.Call? && call.value.event.op == Add(record.value))
              case ToVotes => call == if isVote then Some(E.Pass(E.ReceivedVote)) else None
              case ToPreemptive(s) => call == Some(E.Pass(E.ReceivedPreemptive(s)))
              case Unknown => call == None
      ensures if call.Some? then E.Step(old(Told()), call.value, Told()) else Told() == old(Told())
      ensures Subscriptions() == old(Subscriptions())
      ensures Timer() ==
        if topic == T.MembershipTopic(networkName) && record.Some?
          && record.value.peerId in old(providerCache.routablePeers)
          && record.value.peerId !in old(providerCache.peerTimestamps)
        then P.Step(old(Timer()), now, P.NewPeer(old(subnetIds) != []))
        else old(Timer())
    {
      call := None;
      if topic == T.MembershipTopic(networkName) {
        if record.Some? {
          ghost var made := HandleProviderRecord(record.value, now);
          call := Some(made);
        }
      } else if topic in votingTopics {
        if isVote {
          outbox := outbox + [E.ReceivedVote];
          call := Some(E.Pass(E.ReceivedVote));
        }
      } else if topic in preemptiveTopics {
        outbox := outbox + [E.ReceivedPreemptive(preemptiveTopics[topic])];
        call := Some(E.Pass(E.ReceivedPreemptive(preemptiveTopics[topic])));
      }
    }

    /** Every peer whose last record is older than the maximum age is forgotten, and announced once. */
    method PruneMembership(now: Timestamp) returns (ghost call: E.Call)
      modifies this, providerCache
      ensures call.Call? && call.event == Event(Expire(Earlier(now, maxProviderAge)), {})
      ensures E.Step(old(Told()), call, Told())
      ensures Subscriptions() == old(Subscriptions())
      ensures Timer() == old(Timer())
    {
      var cutoff := Earlier(now, maxProviderAge);
      var pruned := providerCache.PruneProviders(cutoff);
      call := E.Call(Event(Expire(cutoff), {}), NO_DELTA, pruned);
      for i := 0 to |pruned|
        modifies this`outbox
        invariant outbox == old(outbox) + E.Removals(pruned[..i])
      {
        outbox := outbox + [E.Removed(pruned[i])];
      }
      assert pruned[..|pruned|] == pruned;
    }

    /** Emit an event if there is one; otherwise, when the interval fires, publish and prune. */
    method Poll(publishOk: bool, now: Timestamp) returns (event: Option<E.Notice>, ghost call: Option<E.Call>)
      modifies this, providerCache
      ensures Subscriptions() == old(Subscriptions())
      ensures event.Some? <==> old(outbox) != []
      ensures event.Some? ==> event.value == old(outbox)[0] && emitted == old(emitted) + [event.value]
      ensures call.Some? <==> old(outbox) == [] && old(publishDeadline) <= now
      ensures if call.Some? then E.Step(old(Told()), call.value, Told()) else Told() == old(Told())
      ensures call.Some? ==> call.value.Call? && call.value.event == Event(Expire(Earlier(now, maxProviderAge)), {})
      ensures Timer() == if call.Some? then P.Step(old(Timer()), now, if publishOk then P.Published else P.TickFailed)
                         else old(Timer())
    {
      event, call := None, None;
      if outbox != [] {
        event := Some(outbox[0]);
        emitted, outbox := emitted + [outbox[0]], outbox[1..];
        return;
      }
      if publishDeadline <= now {
        publishDeadline := publishDeadline + publishPeriod;
        var published := PublishMembership(publishOk, now);
        ghost var made := PruneMembership(now);
        call := Some(made);
      }
    }
  }
}
