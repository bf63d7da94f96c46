/**
 The gossip topics of the membership behaviour: which topic belongs to which subnet, and how the
 sets of subscribed topics follow the provided and the pinned subnets when subscribing may fail.
 */
module Topics {
  import opened Primitives

  /** Hashes are taken to be injective and distinct between the two kinds of topic. */
  datatype TopicHash = Ident(name: string) | Sha256(name: string)

  const PUBSUB_MEMBERSHIP := "/ipc/membership"
  const PUBSUB_VOTES := "/ipc/ipld/votes"
  const PUBSUB_PREEMPTIVE := "/ipc/ipld/pre-emptive"

  /** Replaces "/" with "_". */
  function Flatten(s: string): (r: string)
    ensures |r| == |s|
  {
    seq(|s|, i requires 0 <= i < |s| => if s[i] == '/' then '_' else s[i])
  }

  function MembershipTopic(network: string): TopicHash {
    Ident(PUBSUB_MEMBERSHIP + "/" + network)
  }

  function VotingTopic(network: string, s: SubnetId): TopicHash {
    Sha256(PUBSUB_VOTES + "/" + Flatten(network) + "/" + Flatten(s.path))
  }

  function PreemptiveTopic(network: string, s: SubnetId): TopicHash {
    Sha256(PUBSUB_PREEMPTIVE + "/" + Flatten(network) + "/" + Flatten(s.path))
  }

  /** Two subnets get different topics of both kinds. */
  predicate Distinguishes(ids: set<SubnetId>) {
    forall a, b :: a in ids && b in ids && a != b ==> Flatten(a.path) != Flatten(b.path)
  }

  lemma SuffixesEqual(prefix: string, x: string, y: string)
    ensures prefix + x == prefix + y <==> x == y
  {
    assert (prefix + x)[|prefix|..] == x;
    assert (prefix + y)[|prefix|..] == y;
  }

  /** Both kinds of topic clash exactly when the flattened subnet names do. */
  lemma TopicsClashIff(network: string, a: SubnetId, b: SubnetId)
    ensures VotingTopic(network, a) == VotingTopic(network, b) <==> Flatten(a.path) == Flatten(b.path)
    ensures PreemptiveTopic(network, a) == PreemptiveTopic(network, b) <==> Flatten(a.path) == Flatten(b.path)
  {
    SuffixesEqual(PUBSUB_VOTES + "/" + Flatten(network) + "/", Flatten(a.path), Flatten(b.path));
    SuffixesEqual(PUBSUB_PREEMPTIVE + "/" + Flatten(network) + "/", Flatten(a.path), Flatten(b.path));
  }

  /** Two names are flattened to the same exactly if they differ at most in "/" against "_". */
  lemma FlattenedEqualIff(a: string, b: string)
    ensures '/' !in Flatten(a)
    ensures Flatten(a) == Flatten(b) <==>
      |a| == |b| && forall i :: 0 <= i < |a| ==> a[i] == b[i] || (a[i] in "/_" && b[i] in "/_")
  {
    if Flatten(a) == Flatten(b) {
      assert |a| == |b|;
      forall i | 0 <= i < |a|
        ensures a[i] == b[i] || (a[i] in "/_" && b[i] in "/_")
      {
        assert Flatten(a)[i] == Flatten(b)[i];
      }
    }
    if |a| == |b| && forall i :: 0 <= i < |a| ==> a[i] == b[i] || (a[i] in "/_" && b[i] in "/_") {
      forall i | 0 <= i < |a|
        ensures Flatten(a)[i] == Flatten(b)[i]
      {
        assert a[i] in "/_" ==> Flatten(a)[i] == '_';
        assert b[i] in "/_" ==> Flatten(b)[i] == '_';
      }
    }
  }

  /** A "/" tells where the first of two parts without one ends. */
  lemma PartsEqual(a: string, x: string, b: string, y: string)
    requires '/' !in a && '/' !in b
    ensures a + "/" + x == b + "/" + y <==> a == b && x == y
  {
    var s, t := a + "/" + x, b + "/" + y;
    assert s[|a|] == '/' && t[|b|] == '/';
    assert forall k :: 0 <= k < |a| ==> s[k] == a[k];
    assert forall k :: 0 <= k < |b| ==> t[k] == b[k];
    if s == t {
      assert a == s[..|a|] && b == t[..|b|];
      assert x == s[|a| + 1..] && y == t[|b| + 1..];
    }
  }

  /** Topics of two networks are the same exactly if both the flattened networks and the flattened subnets are. */
  lemma NetworksClashIff(n1: string, a: SubnetId, n2: string, b: SubnetId)
    ensures VotingTopic(n1, a) == VotingTopic(n2, b) <==>
      Flatten(n1) == Flatten(n2) && Flatten(a.path) == Flatten(b.path)
    ensures PreemptiveTopic(n1, a) == PreemptiveTopic(n2, b) <==>
      Flatten(n1) == Flatten(n2) && Flatten(a.path) == Flatten(b.path)
    ensures VotingTopic(n1, a) != PreemptiveTopic(n2, b)
    ensures MembershipTopic(n1) == MembershipTopic(n2) <==> n1 == n2
  {
    var x, y := Flatten(n1) + "/" + Flatten(a.path), Flatten(n2) + "/" + Flatten(b.path);
    FlattenedEqualIff(n1, n2);
    FlattenedEqualIff(n2, n1);
    PartsEqual(Flatten(n1), Flatten(a.path), Flatten(n2), Flatten(b.path));
    NameOf(PUBSUB_VOTES, n1, a);
    NameOf(PUBSUB_VOTES, n2, b);
    NameOf(PUBSUB_PREEMPTIVE, n1, a);
    NameOf(PUBSUB_PREEMPTIVE, n2, b);
    SuffixesEqual(PUBSUB_VOTES + "/", x, y);
    SuffixesEqual(PUBSUB_PREEMPTIVE + "/", x, y);
    SuffixesEqual(PUBSUB_MEMBERSHIP + "/", n1, n2);
    TopicKindsDiffer(n1, a);
    TopicKindsDiffer(n2, b);
  }

  lemma NameOf(kind: string, network: string, s: SubnetId)
    ensures kind + "/" + Flatten(network) + "/" + Flatten(s.path)
         == (kind + "/") + (Flatten(network) + "/" + Flatten(s.path))
  {
  }

  /** Flattening loses nothing on names without underscores. */
  lemma FlattenInjective(a: string, b: string)
    requires '_' !in a && '_' !in b
    requires Flatten(a) == Flatten(b)
    ensures a == b
  {
    forall i | 0 <= i < |a|
      ensures a[i] == b[i]
    {
      assert Flatten(a)[i] == Flatten(b)[i];
    }
  }

  lemma NoUnderscoresDistinguishes(ids: set<SubnetId>)
    requires forall s :: s in ids ==> '_' !in s.path
    ensures Distinguishes(ids)
  {
    forall a, b | a in ids && b in ids && a != b
      ensures Flatten(a.path) != Flatten(b.path)
    {
      if Flatten(a.path) == Flatten(b.path) {
        FlattenInjective(a.path, b.path);
        assert false;
      }
    }
  }

  /** Names of voting topics differ from names of pre-emptive ones where "votes" and "pre-emptive" start. */
  predicate IsVotingName(t: TopicHash) {
    t.Sha256? && |t.name| > 10 && t.name[10] == 'v'
  }

  lemma TopicKindsDiffer(network: string, s: SubnetId)
    ensures IsVotingName(VotingTopic(network, s)) && !IsVotingName(PreemptiveTopic(network, s))
  {
  }

  // ---------- Subscriptions ----------

  datatype Subscriptions = Subscriptions(
    provided: seq<SubnetId>,
    voting: set<TopicHash>,
    preemptive: map<TopicHash, SubnetId>,
    pinned: set<SubnetId>)

  /** Calls with the outcome of gossipsub: whether it accepts, or how many calls it accepts in a row. */
  datatype Op =
    | SetProvided(ids: seq<SubnetId>, accepted: nat)
    | AddProvided(id: SubnetId, ok: bool)
    | RemoveProvided(id: SubnetId, ok: bool)
    | Pin(id: SubnetId, ok: bool)
    | Unpin(id: SubnetId, ok: bool)

  function Excluding(xs: seq<SubnetId>, ys: seq<SubnetId>): (r: seq<SubnetId>)
    ensures forall x :: x in r <==> x in xs && x !in ys
  {
    if xs == [] then [] else
      Excluding(xs[..|xs| - 1], ys) + (if xs[|xs| - 1] in ys then [] else [xs[|xs| - 1]])
  }

  lemma ExcludingStep(xs: seq<SubnetId>, ys: seq<SubnetId>, i: nat)
    requires i < |xs|
    ensures Excluding(xs[..i + 1], ys) == Excluding(xs[..i], ys) + (if xs[i] in ys then [] else [xs[i]])
  {
    assert xs[..i + 1][..i] == xs[..i];
  }

  /** What is left of a prefix is a prefix of what is left of the whole. */
  lemma {:induction false} ExcludingPrefix(xs: seq<SubnetId>, ys: seq<SubnetId>, i: nat)
    requires i <= |xs|
    ensures Excluding(xs[..i], ys) <= Excluding(xs, ys)
    decreases |xs| - i
  {
    if i == |xs| {
      assert xs[..i] == xs;
    } else {
      ExcludingPrefix(xs, ys, i + 1);
      ExcludingStep(xs, ys, i);
    }
  }

  /** A refusal while something is left to do stops short of the whole. */
  lemma ExcludingStopsShort(xs: seq<SubnetId>, ys: seq<SubnetId>, i: nat)
    requires i < |xs| && xs[i] !in ys
    ensures |Excluding(xs[..i], ys)| < |Excluding(xs, ys)|
    ensures Excluding(xs, ys)[..|Excluding(xs[..i], ys)|] == Excluding(xs[..i], ys)
  {
    ExcludingStep(xs, ys, i);
    ExcludingPrefix(xs, ys, i + 1);
    ProperPrefix(Excluding(xs[..i], ys), xs[i], Excluding(xs, ys));
  }

  lemma ProperPrefix(xs: seq<SubnetId>, x: SubnetId, whole: seq<SubnetId>)
    requires xs + [x] <= whole
    ensures |xs| < |whole| && whole[..|xs|] == xs
  {
  }

  function VotingTopics(network: string, ids: set<SubnetId>): set<TopicHash> {
    set s | s in ids :: VotingTopic(network, s)
  }

  /** The subnets left, dropped or joined by the first `n` of the calls that change the provided subnets. */
  function Dropped(gone: seq<SubnetId>, n: nat): set<SubnetId> {
    ToSet(gone[..Min(n, |gone|)])
  }

  function Joined(gone: seq<SubnetId>, added: seq<SubnetId>, n: nat): set<SubnetId> {
    if n <= |gone| then {} else ToSet(added[..Min(n - |gone|, |added|)])
  }

  predicate Fails(st: Subscriptions, op: Op) {
    op.SetProvided? && op.accepted < |Excluding(st.provided, op.ids)| + |Excluding(op.ids, st.provided)|
  }

  function Step(network: string, st: Subscriptions, op: Op): Subscriptions {
    match op
    case SetProvided(ids, accepted) =>
      var gone, added := Excluding(st.provided, ids), Excluding(ids, st.provided);
      st.(provided := if Fails(st, op) then [] else ids,
          voting := st.voting - VotingTopics(network, Dropped(gone, accepted))
                              + VotingTopics(network, Joined(gone, added, accepted)))
    case AddProvided(id, ok) =>
      if id in st.provided || !ok then st
      else st.(provided := st.provided + [id], voting := st.voting + {VotingTopic(network, id)})
    case RemoveProvided(id, ok) =>
      if id !in st.provided || !ok then st
      else st.(provided := Excluding(st.provided, [id]), voting := st.voting - {VotingTopic(network, id)})
    case Pin(id, ok) =>
      if !ok then st
      else st.(pinned := st.pinned + {id}, preemptive := st.preemptive[PreemptiveTopic(network, id) := id])
    case Unpin(id, ok) =>
      if !ok then st
      else st.(pinned := st.pinned - {id}, preemptive := st.preemptive - {PreemptiveTopic(network, id)})
  }

  /** A change of the provided subnets that is refused while unsubscribing, and one that gets beyond that. */
  lemma SetProvidedInStages(network: string, st: Subscriptions, to: seq<SubnetId>, accepted: nat)
    ensures var gone, added := Excluding(st.provided, to), Excluding(to, st.provided);
      var left := st.voting - VotingTopics(network, Dropped(gone, accepted));
      Step(network, st, SetProvided(to, accepted)) ==
        if accepted < |gone| then st.(provided := [], voting := left)
        else st.(provided := if accepted - |gone| < |added| then [] else to,
                 voting := left + VotingTopics(network, Dropped(added, accepted - |gone|)))
  {
    var gone, added := Excluding(st.provided, to), Excluding(to, st.provided);
    var left := st.voting - VotingTopics(network, Dropped(gone, accepted));
    assert left + VotingTopics(network, {}) == left;
    assert accepted == |gone| ==> Dropped(added, 0) == {};
  }

  function PreemptiveTopics(network: string, ids: set<SubnetId>): set<TopicHash> {
    set s | s in ids :: PreemptiveTopic(network, s)
  }

  function Mentioned(op: Op): set<SubnetId> {
    if op.SetProvided? then ToSet(op.ids) else {op.id}
  }

  /** The remembered pre-emptive topics are exactly those of the pinned subnets, each with its own subnet. */
  predicate PreemptiveExact(network: string, st: Subscriptions) {
    && st.preemptive.Keys == PreemptiveTopics(network, st.pinned)
    && forall s :: s in st.pinned && PreemptiveTopic(network, s) in st.preemptive ==>
         st.preemptive[PreemptiveTopic(network, s)] == s
  }

  /** Every provided subnet has its voting topic subscribed. */
  predicate VotingCovers(network: string, st: Subscriptions) {
    VotingTopics(network, ToSet(st.provided)) <= st.voting
  }

  /** Exactly the voting topics of the provided subnets are subscribed. */
  predicate VotingExact(network: string, st: Subscriptions) {
    st.voting == VotingTopics(network, ToSet(st.provided))
  }

  /** The ids in play, and that voting topics are nothing else. */
  ghost predicate Within(st: Subscriptions, ids: set<SubnetId>) {
    && ToSet(st.provided) <= ids && st.pinned <= ids
    && forall t :: t in st.voting ==> IsVotingName(t)
  }

  const NONE := Subscriptions([], {}, map[], {})

  function After(network: string, ops: seq<Op>): Subscriptions {
    if ops == [] then NONE else
      Step(network, After(network, ops[..|ops| - 1]), ops[|ops| - 1])
  }

  // ---------- Preservation ----------

  lemma OtherTopics(network: string, ids: set<SubnetId>, st: Subscriptions, id: SubnetId)
    requires Distinguishes(ids) && st.pinned <= ids && id in ids
    ensures forall s :: s in st.pinned ==> (PreemptiveTopic(network, s) == PreemptiveTopic(network, id) <==> s == id)
  {
    forall s | s in st.pinned
      ensures PreemptiveTopic(network, s) == PreemptiveTopic(network, id) <==> s == id
    {
      TopicsClashIff(network, s, id);
    }
  }

  lemma PinKeepsExact(network: string, ids: set<SubnetId>, st: Subscriptions, id: SubnetId)
    requires Distinguishes(ids) && st.pinned <= ids && id in ids && PreemptiveExact(network, st)
    ensures PreemptiveExact(network, Step(network, st, Pin(id, true)))
  {
    OtherTopics(network, ids, st, id);
    assert PreemptiveTopics(network, st.pinned + {id})
        == PreemptiveTopics(network, st.pinned) + {PreemptiveTopic(network, id)};
  }

  lemma UnpinKeepsExact(network: string, ids: set<SubnetId>, st: Subscriptions, id: SubnetId)
    requires Distinguishes(ids) && st.pinned <= ids && id in ids && PreemptiveExact(network, st)
    ensures PreemptiveExact(network, Step(network, st, Unpin(id, true)))
  {
    OtherTopics(network, ids, st, id);
    assert PreemptiveTopics(network, st.pinned - {id})
        == PreemptiveTopics(network, st.pinned) - {PreemptiveTopic(network, id)};
  }

  lemma PreemptiveAfter(network: string, ids: set<SubnetId>, st: Subscriptions, op: Op)
    requires Distinguishes(ids) && Within(st, ids) && Mentioned(op) <= ids
    requires PreemptiveExact(network, st)
    ensures PreemptiveExact(network, Step(network, st, op))
  {
    if op.Pin? && op.ok {
      assert op.id in Mentioned(op);
      PinKeepsExact(network, ids, st, op.id);
    } else if op.Unpin? && op.ok {
      assert op.id in Mentioned(op);
      UnpinKeepsExact(network, ids, st, op.id);
    }
  }

  /** Where topics tell subnets apart, taking topics commutes with set operations. */
  lemma TopicsOfDifference(network: string, ids: set<SubnetId>, xs: set<SubnetId>, ys: set<SubnetId>)
    requires Distinguishes(ids) && xs <= ids && ys <= ids
    ensures VotingTopics(network, xs - ys) == VotingTopics(network, xs) - VotingTopics(network, ys)
  {
    forall t | t in VotingTopics(network, xs - ys)
      ensures t !in VotingTopics(network, ys)
    {
      var x :| x in xs - ys && t == VotingTopic(network, x);
      forall y | y in ys
        ensures VotingTopic(network, y) != t
      {
        TopicsClashIff(network, x, y);
      }
    }
  }

  lemma TopicsOfUnion(network: string, xs: set<SubnetId>, ys: set<SubnetId>)
    ensures VotingTopics(network, xs + ys) == VotingTopics(network, xs) + VotingTopics(network, ys)
  {
  }

  lemma TopicsOfOne(network: string, s: SubnetId)
    ensures VotingTopics(network, {s}) == {VotingTopic(network, s)}
  {
  }

  /** The topics to change grow by one with each subnet that is not kept. */
  lemma OneMoreTopic(network: string, xs: seq<SubnetId>, ys: seq<SubnetId>, i: nat)
    requires i < |xs| && xs[i] !in ys
    ensures VotingTopics(network, ToSet(Excluding(xs[..i + 1], ys)))
         == VotingTopics(network, ToSet(Excluding(xs[..i], ys))) + {VotingTopic(network, xs[i])}
  {
  }

  lemma VotingTopicsHaveVotingNames(network: string, xs: set<SubnetId>)
    ensures forall t :: t in VotingTopics(network, xs) ==> IsVotingName(t)
  {
  }

  /** Dropping some topics and joining others turns the topics of one set of subnets into those of another. */
  lemma Switched(network: string, ids: set<SubnetId>, voting: set<TopicHash>, from: set<SubnetId>,
                 dropped: set<SubnetId>, joined: set<SubnetId>)
    requires Distinguishes(ids) && from <= ids && dropped <= ids
    ensures var voting' := voting - VotingTopics(network, dropped) + VotingTopics(network, joined);
      && (VotingTopics(network, from) <= voting ==> VotingTopics(network, from - dropped + joined) <= voting')
      && (VotingTopics(network, from) == voting ==> VotingTopics(network, from - dropped + joined) == voting')
      && ((forall t :: t in voting ==> IsVotingName(t)) ==> (forall t :: t in voting' ==> IsVotingName(t)))
  {
    TopicsOfDifference(network, ids, from, dropped);
    TopicsOfUnion(network, from - dropped, joined);
    VotingTopicsHaveVotingNames(network, joined);
  }

  lemma SetProvidedAfter(network: string, ids: set<SubnetId>, st: Subscriptions, to: seq<SubnetId>, accepted: nat)
    requires Distinguishes(ids) && Within(st, ids) && ToSet(to) <= ids
    requires VotingCovers(network, st)
    ensures var op := SetProvided(to, accepted); var st' := Step(network, st, op);
      && VotingCovers(network, st') && Within(st', ids)
      && (VotingExact(network, st) && !Fails(st, op) ==> VotingExact(network, st'))
  {
    var gone, added := Excluding(st.provided, to), Excluding(to, st.provided);
    var dropped, joined := Dropped(gone, accepted), Joined(gone, added, accepted);
    Switched(network, ids, st.voting, ToSet(st.provided), dropped, joined);
    if Fails(st, SetProvided(to, accepted)) {
      assert VotingTopics(network, ToSet([])) == {};
    } else {
      assert gone[..Min(accepted, |gone|)] == gone;
      assert accepted > |gone| ==> added[..Min(accepted - |gone|, |added|)] == added;
      assert ToSet(st.provided) - dropped + joined == ToSet(to);
    }
  }

  lemma VotingAfter(network: string, ids: set<SubnetId>, st: Subscriptions, op: Op)
    requires Distinguishes(ids) && Within(st, ids) && Mentioned(op) <= ids
    requires VotingCovers(network, st)
    ensures VotingCovers(network, Step(network, st, op))
    ensures Within(Step(network, st, op), ids)
    ensures VotingExact(network, st) && !Fails(st, op) ==> VotingExact(network, Step(network, st, op))
  {
    var from := ToSet(st.provided);
    match op
    case SetProvided(to, accepted) => SetProvidedAfter(network, ids, st, to, accepted);
    case AddProvided(id, _) =>
      assert ToSet(st.provided + [id]) == from - {} + {id};
      TopicsOfOne(network, id);
      Switched(network, ids, st.voting, from, {}, {id});
    case RemoveProvided(id, _) =>
      assert ToSet(Excluding(st.provided, [id])) == from - {id} + {};
      TopicsOfOne(network, id);
      Switched(network, ids, st.voting, from, {id}, {});
    case Pin(_, _) =>
    case Unpin(_, _) =>
  }

  /**
   In every run, whatever gossipsub refuses, the topics follow the subnets, given that topic names
   tell the subnets in play apart. Only a refused change of all provided subnets leaves voting
   topics behind.
   */
  lemma {:induction false} TopicsFollowSubnets(network: string, ids: set<SubnetId>, ops: seq<Op>)
    requires Distinguishes(ids)
    requires Over(ops, ids)
    ensures PreemptiveExact(network, After(network, ops))
    ensures VotingCovers(network, After(network, ops))
    ensures Within(After(network, ops), ids)
    ensures (forall i :: 0 <= i < |ops| ==> !Fails(After(network, ops[..i]), ops[i])) ==>
      VotingExact(network, After(network, ops))
  {
    if ops != [] {
      var n := |ops| - 1;
      var st, op := After(network, ops[..n]), ops[n];
      TopicsFollowSubnets(network, ids, ops[..n]);
      PreemptiveAfter(network, ids, st, op);
      VotingAfter(network, ids, st, op);
      if forall i :: 0 <= i < |ops| ==> !Fails(After(network, ops[..i]), ops[i]) {
        forall i | 0 <= i < n
          ensures !Fails(After(network, ops[..n][..i]), ops[..n][i])
        {
          assert ops[..n][..i] == ops[..i];
        }
      }
    }
  }

  /** Telling subnets apart is also necessary: any two that clash can be played against each other. */
  lemma ClashBreaksPins(network: string, a: SubnetId, b: SubnetId)
    requires a != b && Flatten(a.path) == Flatten(b.path)
    ensures !PreemptiveExact(network, After(network, [Pin(a, true)] + [Pin(b, true)]))
  {
  }

  lemma ClashBreaksVotes(network: string, a: SubnetId, b: SubnetId)
    requires a != b && Flatten(a.path) == Flatten(b.path)
    ensures var adds := [AddProvided(a, true)] + [AddProvided(b, true)];
      !VotingCovers(network, After(network, adds + [RemoveProvided(a, true)]))
  {
    TopicsClashIff(network, a, b);
    var adds := [AddProvided(a, true)] + [AddProvided(b, true)];
    AfterMore(network, [], AddProvided(a, true));
    assert [] + [AddProvided(a, true)] == [AddProvided(a, true)];
    AfterMore(network, [AddProvided(a, true)], AddProvided(b, true));
    AfterMore(network, adds, RemoveProvided(a, true));
    var st := After(network, adds + [RemoveProvided(a, true)]);
    assert b in st.provided && VotingTopic(network, b) !in st.voting;
    assert VotingTopic(network, b) in VotingTopics(network, ToSet(st.provided));
  }

  predicate Over(ops: seq<Op>, ids: set<SubnetId>) {
    forall i :: 0 <= i < |ops| ==> Mentioned(ops[i]) <= ids
  }

  /** The topics follow the subnets in all runs exactly when no two of the subnets have clashing names. */
  lemma TopicsFollowSubnetsIff(network: string, ids: set<SubnetId>)
    ensures Distinguishes(ids) <==>
      forall ops :: Over(ops, ids) ==>
        PreemptiveExact(network, After(network, ops)) && VotingCovers(network, After(network, ops))
  {
    if Distinguishes(ids) {
      forall ops | Over(ops, ids)
        ensures PreemptiveExact(network, After(network, ops)) && VotingCovers(network, After(network, ops))
      {
        TopicsFollowSubnets(network, ids, ops);
      }
    } else {
      var a, b :| a in ids && b in ids && a != b && Flatten(a.path) == Flatten(b.path);
      ClashBreaksPins(network, a, b);
      assert Over([Pin(a, true)] + [Pin(b, true)], ids);
    }
  }

  lemma AfterMore(network: string, ops: seq<Op>, op: Op)
    ensures After(network, ops + [op]) == Step(network, After(network, ops), op)
  {
  }

  // ---------- The subnets follow the calls ----------

  /** The call was carried out and leaves the subnet provided. */
  ghost predicate Provides(network: string, ops: seq<Op>, i: int, s: SubnetId)
    requires 0 <= i < |ops|
  {
    || ops[i] == AddProvided(s, true)
    || (ops[i].SetProvided? && s in ops[i].ids && !Fails(After(network, ops[..i]), ops[i]))
  }

  /** The call leaves the subnet not provided, be it because a change of all subnets was refused. */
  ghost predicate GivesUp(network: string, ops: seq<Op>, i: int, s: SubnetId)
    requires 0 <= i < |ops|
  {
    || ops[i] == RemoveProvided(s, true)
    || (ops[i].SetProvided? && (s !in ops[i].ids || Fails(After(network, ops[..i]), ops[i])))
  }

  ghost predicate ProvidedSince(network: string, ops: seq<Op>, i: int, s: SubnetId) {
    && 0 <= i < |ops| && Provides(network, ops, i, s)
    && forall j :: i < j < |ops| ==> !GivesUp(network, ops, j, s)
  }

  lemma ProvidedSinceMore(network: string, ops: seq<Op>, op: Op, i: int, s: SubnetId)
    requires 0 <= i < |ops|
    ensures ProvidedSince(network, ops + [op], i, s) <==>
      ProvidedSince(network, ops, i, s) && !GivesUp(network, ops + [op], |ops|, s)
  {
    var more := ops + [op];
    forall j | 0 <= j < |ops|
      ensures more[j] == ops[j] && more[..j] == ops[..j]
      ensures Provides(network, more, j, s) <==> Provides(network, ops, j, s)
      ensures GivesUp(network, more, j, s) <==> GivesUp(network, ops, j, s)
    {
    }
  }

  /** In every run, a subnet is provided exactly if some call made it so and no call has given it up since. */
  lemma {:induction false} ProvidedIff(network: string, ops: seq<Op>, s: SubnetId)
    ensures s in After(network, ops).provided <==> exists i :: ProvidedSince(network, ops, i, s)
  {
    if ops != [] {
      var n := |ops| - 1;
      var before, op := ops[..n], ops[n];
      assert before + [op] == ops;
      ProvidedIff(network, before, s);
      forall i | 0 <= i < n {
        ProvidedSinceMore(network, before, op, i, s);
      }
      assert ProvidedSince(network, ops, n, s) <==> Provides(network, ops, n, s);
      if i :| ProvidedSince(network, before, i, s) {
        assert ProvidedSince(network, ops, i, s) <==> !GivesUp(network, ops, n, s);
      }
    }
  }

  ghost predicate PinnedSince(ops: seq<Op>, i: int, s: SubnetId) {
    && 0 <= i < |ops| && ops[i] == Pin(s, true)
    && forall j :: i < j < |ops| ==> ops[j] != Unpin(s, true)
  }

  /** In every run, a subnet is pinned exactly if some call pinned it and no call has unpinned it since. */
  lemma {:induction false} PinnedIff(network: string, ops: seq<Op>, s: SubnetId)
    ensures s in After(network, ops).pinned <==> exists i :: PinnedSince(ops, i, s)
  {
    if ops != [] {
      var n := |ops| - 1;
      var before, op := ops[..n], ops[n];
      assert before + [op] == ops;
      PinnedIff(network, before, s);
      if i :| PinnedSince(before, i, s) {
        assert PinnedSince(ops, i, s) <==> op != Unpin(s, true);
      }
      assert PinnedSince(ops, n, s) <==> op == Pin(s, true);
      forall i | PinnedSince(ops, i, s) && i < n
        ensures PinnedSince(before, i, s)
      {
      }
    }
  }

  /**
   A change that gossipsub cuts short leaves no topic behind exactly when it got to unsubscribe
   from all and no further.
   */
  lemma FailedSetProvidedExactIff(
    network: string, ids: set<SubnetId>, st: Subscriptions, to: seq<SubnetId>, accepted: nat)
    requires Distinguishes(ids) && Within(st, ids) && ToSet(to) <= ids
    requires VotingExact(network, st) && Fails(st, SetProvided(to, accepted))
    ensures VotingExact(network, Step(network, st, SetProvided(to, accepted))) <==>
      var gone := Excluding(st.provided, to);
      accepted <= |gone| && forall s :: s in st.provided ==> s in gone[..accepted]
  {
    var gone, added := Excluding(st.provided, to), Excluding(to, st.provided);
    var dropped, joined := Dropped(gone, accepted), Joined(gone, added, accepted);
    var left := ToSet(st.provided) - dropped + joined;
    Switched(network, ids, st.voting, ToSet(st.provided), dropped, joined);
    assert VotingExact(network, Step(network, st, SetProvided(to, accepted))) <==> VotingTopics(network, left) == {};
    if left != {} {
      var s :| s in left;
      assert VotingTopic(network, s) in VotingTopics(network, left);
    }
    if accepted > |gone| {
      assert added[0] in joined;
    } else {
      assert left == ToSet(st.provided) - ToSet(gone[..accepted]);
      assert left == {} <==> forall s :: s in st.provided ==> s in gone[..accepted] by {
        if left == {} {
          forall s | s in st.provided
            ensures s in gone[..accepted]
          {
            assert s !in left;
          }
        }
      }
    }
  }

  /** Giving up the only provided subnet against a refusal: nothing is provided, but its topic stays. */
  lemma RefusalLeavesTopic(network: string, a: SubnetId)
    ensures var st := After(network, [AddProvided(a, true)] + [SetProvided([], 0)]);
      st.provided == [] && VotingTopic(network, a) in st.voting && !VotingExact(network, st)
  {
    AfterMore(network, [], AddProvided(a, true));
    AfterMore(network, [AddProvided(a, true)], SetProvided([], 0));
    assert [] + [AddProvided(a, true)] == [AddProvided(a, true)];
    var st := After(network, [AddProvided(a, true)]);
    assert st.provided == [a] && Excluding([a], []) == [a];
  }

  // ---------- Dispatch of messages ----------

  datatype Route = ToMembership | ToVotes | ToPreemptive(subnetId: SubnetId) | Unknown

  function Dispatch(network: string, st: Subscriptions, t: TopicHash): Route {
    if t == MembershipTopic(network) then ToMembership
    else if t in st.voting then ToVotes
    else if t in st.preemptive then ToPreemptive(st.preemptive[t])
    else Unknown
  }

  /** In every run, messages reach the handler of the subnet they were published for, and no other. */
  lemma MessagesReachTheirSubnet(network: string, ids: set<SubnetId>, ops: seq<Op>, s: SubnetId)
    requires Distinguishes(ids) && s in ids
    requires Over(ops, ids)
    ensures Dispatch(network, After(network, ops), MembershipTopic(network)) == ToMembership
    ensures var st := After(network, ops);
      && (s in st.provided ==> Dispatch(network, st, VotingTopic(network, s)) == ToVotes)
      && Dispatch(network, st, PreemptiveTopic(network, s)) == if s in st.pinned then ToPreemptive(s) else Unknown
  {
    TopicsFollowSubnets(network, ids, ops);
    TopicKindsDiffer(network, s);
    var st, t := After(network, ops), PreemptiveTopic(network, s);
    if t in st.preemptive {
      var r :| r in st.pinned && t == PreemptiveTopic(network, r);
      TopicsClashIff(network, r, s);
      assert r in ids;
    }
  }
}
