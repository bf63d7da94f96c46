/** Buffering of self-identified peers until the bootstrap of the routing table has finished. */
module Discovery {
  import opened Primitives

  type Address(==, !new)

  /** What a peer says about itself; `speaks` tells whether our discovery protocol is among its protocols. */
  datatype Info = Info(peerId: PeerId, speaks: bool, listenAddrs: seq<Address>)

  datatype Event =
    | Identified(info: Info)
    | BootstrapStep(last: bool)

  /** An address handed to the routing table. */
  datatype Entry = Entry(peerId: PeerId, address: Address)

  // ---------- The reference ----------

  /** The infos that arrived from peers speaking our protocol. */
  function InfosOf(events: seq<Event>): (r: seq<Info>)
    ensures forall x :: x in r ==> x.speaks
  {
    if events == [] then [] else
      var e := events[|events| - 1];
      InfosOf(events[..|events| - 1]) + (if e.Identified? && e.info.speaks then [e.info] else [])
  }

  function Speaking(infos: seq<Info>): (r: seq<Info>)
    ensures (forall x :: x in infos ==> x.speaks) ==> r == infos
  {
    if infos == [] then [] else
      var x := infos[|infos| - 1];
      Speaking(infos[..|infos| - 1]) + (if x.speaks then [x] else [])
  }

  predicate Mentions(infos: seq<Info>, p: PeerId) {
    exists i :: 0 <= i < |infos| && infos[i].peerId == p
  }

  /** The first info of each peer, in order of arrival. */
  function FirstPerPeer(infos: seq<Info>): (r: seq<Info>)
    ensures forall p :: Mentions(r, p) <==> Mentions(infos, p)
    ensures forall i, j :: 0 <= i < j < |r| ==> r[i].peerId != r[j].peerId
    ensures forall x :: x in r ==> x in infos
  {
    if infos == [] then [] else
      var before, x := FirstPerPeer(infos[..|infos| - 1]), infos[|infos| - 1];
      assert infos[..|infos| - 1] + [x] == infos;
      MentionsMore(infos[..|infos| - 1], x);
      if Mentions(before, x.peerId) then before
      else
        MentionsMore(before, x);
        before + [x]
  }

  lemma MentionsMore(infos: seq<Info>, x: Info)
    ensures forall p :: Mentions(infos + [x], p) <==> Mentions(infos, p) || x.peerId == p
  {
    forall p
      ensures Mentions(infos + [x], p) <==> Mentions(infos, p) || x.peerId == p
    {
      assert (infos + [x])[|infos|] == x;
      if Mentions(infos, p) {
        var i :| 0 <= i < |infos| && infos[i].peerId == p;
        assert (infos + [x])[i] == infos[i];
      }
    }
  }

  function Take(infos: seq<Info>, n: nat): seq<Info> {
    if |infos| <= n then infos else infos[..n]
  }

  /** Those who get in while bootstrapping: the first `target` peers that speak our protocol, as they first came. */
  function Kept(events: seq<Event>, target: nat): seq<Info> {
    Take(FirstPerPeer(InfosOf(events)), target)
  }

  function Entries(infos: seq<Info>): seq<Entry> {
    if infos == [] then [] else
      Entries(infos[..|infos| - 1]) + EntriesOf(infos[|infos| - 1])
  }

  function EntriesOf(info: Info): seq<Entry> {
    seq(|info.listenAddrs|, i requires 0 <= i < |info.listenAddrs| => Entry(info.peerId, info.listenAddrs[i]))
  }

  lemma EntriesMore(infos: seq<Info>, x: Info)
    ensures Entries(infos + [x]) == Entries(infos) + EntriesOf(x)
    ensures Entries(Speaking(infos + [x])) == Entries(Speaking(infos)) + (if x.speaks then EntriesOf(x) else [])
  {
    assert (infos + [x])[..|infos|] == infos;
    var spoken := Speaking(infos);
    assert (spoken + [x])[..|spoken|] == spoken;
    assert spoken + [] == spoken && Entries(spoken) + [] == Entries(spoken);
  }

  // ---------- The code ----------

  datatype State = State(buffer: Option<seq<Info>>, routed: seq<Entry>)

  function Accept(target: nat, st: State, info: Info): State {
    if !info.speaks then st
    else if st.buffer.Some? then
      if |st.buffer.value| < target && !Mentions(st.buffer.value, info.peerId)
      then st.(buffer := Some(st.buffer.value + [info]))
      else st
    else st.(routed := st.routed + EntriesOf(info))
  }

  function Step(target: nat, st: State, e: Event): State {
    match e
    case Identified(info) => Accept(target, st, info)
    case BootstrapStep(last) =>
      if !last || st.buffer.None? then st
      else State(None, st.routed + Entries(Speaking(st.buffer.value)))
  }

  function After(target: nat, events: seq<Event>): State {
    if events == [] then State(Some([]), []) else
      Step(target, After(target, events[..|events| - 1]), events[|events| - 1])
  }

  class Behaviour {
    const targetConnections: nat
    var bootstrapBuffer: Option<seq<Info>>
    /** The addresses handed to Kademlia so far. */
    var routed: seq<Entry>

    function Current(): State
      reads this
    {
      State(bootstrapBuffer, routed)
    }

    /** With seeds to bootstrap from, infos are buffered at first. */
    constructor (targetConnections: nat, hasSeeds: bool)
      ensures this.targetConnections == targetConnections
      ensures Current() == State(if hasSeeds then Some([]) else None, [])
    {
      this.targetConnections := targetConnections;
      bootstrapBuffer := if hasSeeds then Some([]) else None;
      routed := [];
    }

    /** An identified peer that speaks our protocol is buffered or routed, depending on whether bootstrap is over. */
    method AddIdentified(info: Info)
      modifies this
      ensures Current() == Accept(targetConnections, old(Current()), info)
    {
      if info.speaks {
        if bootstrapBuffer.Some? {
          if |bootstrapBuffer.value| < targetConnections && !Mentions(bootstrapBuffer.value, info.peerId) {
            bootstrapBuffer := Some(bootstrapBuffer.value + [info]);
          }
        } else {
          for i := 0 to |info.listenAddrs|
            invariant bootstrapBuffer == old(bootstrapBuffer)
            invariant routed == old(routed) + EntriesOf(info)[..i]
          {
            routed := routed + [Entry(info.peerId, info.listenAddrs[i])];
          }
        }
      }
    }

    /** The last step of the bootstrap lets those in who were kept. */
    method OnBootstrapProgress(last: bool)
      modifies this
      ensures Current() == Step(targetConnections, old(Current()), BootstrapStep(last))
    {
      if last && bootstrapBuffer.Some? {
        var buffer := bootstrapBuffer.value;
        bootstrapBuffer := None;
        for i := 0 to |buffer|
          invariant bootstrapBuffer == None
          invariant routed == old(routed) + Entries(Speaking(buffer[..i]))
        {
          assert buffer[..i + 1] == buffer[..i] + [buffer[i]];
          EntriesMore(buffer[..i], buffer[i]);
          Regroup(old(routed), Entries(Speaking(buffer[..i])), EntriesOf(buffer[i]));
          AddIdentified(buffer[i]);
        }
        assert buffer[..|buffer|] == buffer;
      }
    }
  }

  lemma Regroup<T>(a: seq<T>, b: seq<T>, c: seq<T>)
    ensures (a + b) + c == a + (b + c)
    ensures a + (b + []) == a + b
  {
  }

  // ---------- Whole runs ----------

  lemma AfterMore(target: nat, events: seq<Event>, e: Event)
    ensures After(target, events + [e]) == Step(target, After(target, events), e)
  {
  }

  predicate HasFinished(events: seq<Event>) {
    exists i :: 0 <= i < |events| && events[i] == BootstrapStep(true)
  }

  lemma FinishedMore(events: seq<Event>, e: Event)
    ensures HasFinished(events + [e]) <==> HasFinished(events) || e == BootstrapStep(true)
  {
    assert (events + [e])[|events|] == e;
    if HasFinished(events) {
      var i :| 0 <= i < |events| && events[i] == BootstrapStep(true);
      assert (events + [e])[i] == events[i];
    }
  }

  lemma TakeMore(infos: seq<Info>, x: Info, n: nat)
    ensures Take(infos + [x], n) == if |infos| < n then Take(infos, n) + [x] else Take(infos, n)
  {
  }

  lemma InfosMore(events: seq<Event>, e: Event)
    ensures InfosOf(events + [e]) == InfosOf(events) + (if e.Identified? && e.info.speaks then [e.info] else [])
  {
  }

  lemma KeptMore(events: seq<Event>, e: Event, target: nat)
    ensures var kept := Kept(events, target);
      Kept(events + [e], target) ==
        if e.Identified? && e.info.speaks && |kept| < target && !Mentions(kept, e.info.peerId)
        then kept + [e.info] else kept
  {
    var infos := InfosOf(events);
    InfosMore(events, e);
    if e.Identified? && e.info.speaks {
      assert (infos + [e.info])[..|infos|] == infos;
      TakeMore(FirstPerPeer(infos), e.info, target);
    } else {
      assert infos + [] == infos;
    }
  }

  /**
   Until the bootstrap has finished, nothing reaches the routing table, and the buffer holds
   exactly the first comers: one info per peer, as it first came, no more than the target.
   */
  lemma {:induction false} NothingRoutedBeforeBootstrap(target: nat, events: seq<Event>)
    requires !HasFinished(events)
    ensures After(target, events) == State(Some(Kept(events, target)), [])
  {
    if events != [] {
      var n := |events| - 1;
      var before, e := events[..n], events[n];
      assert before + [e] == events;
      FinishedMore(before, e);
      NothingRoutedBeforeBootstrap(target, before);
      KeptMore(before, e, target);
      AfterMore(target, before, e);
    }
  }

  lemma FlushRoutesKept(target: nat, before: seq<Event>)
    requires !HasFinished(before)
    ensures After(target, before + [BootstrapStep(true)]) == State(None, Entries(Kept(before, target)))
  {
    AfterMore(target, before, BootstrapStep(true));
    NothingRoutedBeforeBootstrap(target, before);
    assert [] + Entries(Kept(before, target)) == Entries(Kept(before, target));
    KeptIsBounded(target, before);
    assert Speaking(Kept(before, target)) == Kept(before, target);
  }

  /**
   Once it has finished, exactly those kept have been routed, in order of arrival and once, followed
   by whatever arrived since; later bootstrap steps change nothing.
   */
  lemma {:induction false} RoutedAfterBootstrap(target: nat, before: seq<Event>, after: seq<Event>)
    requires !HasFinished(before)
    ensures After(target, before + [BootstrapStep(true)] + after)
         == State(None, Entries(Kept(before, target)) + Entries(InfosOf(after)))
    decreases |after|
  {
    var done := before + [BootstrapStep(true)];
    if after == [] {
      assert done + after == done;
      FlushRoutesKept(target, before);
    } else {
      var n := |after| - 1;
      var e := after[n];
      RoutedAfterBootstrap(target, before, after[..n]);
      assert done + after == (done + after[..n]) + [e] && after == after[..n] + [e];
      AfterMore(target, done + after[..n], e);
      InfosMore(after[..n], e);
      if e.Identified? && e.info.speaks {
        EntriesMore(InfosOf(after[..n]), e.info);
        Regroup(Entries(Kept(before, target)), Entries(InfosOf(after[..n])), EntriesOf(e.info));
      } else {
        assert InfosOf(after) == InfosOf(after[..n]);
      }
    }
  }

  /** Whom a flood can get in: at most `target` peers, none twice, all speaking our protocol. */
  lemma KeptIsBounded(target: nat, events: seq<Event>)
    ensures |Kept(events, target)| <= target
    ensures forall i, j :: 0 <= i < j < |Kept(events, target)| ==>
      Kept(events, target)[i].peerId != Kept(events, target)[j].peerId
    ensures forall x :: x in Kept(events, target) ==> x.speaks && x in InfosOf(events)
    ensures |FirstPerPeer(InfosOf(events))| <= target ==>
      forall p :: Mentions(Kept(events, target), p) <==> Mentions(InfosOf(events), p)
  {
  }

  // ---------- What is routed ----------

  /** Some info is from the peer and lists the address. */
  ghost predicate Advertised(infos: seq<Info>, p: PeerId, a: Address) {
    exists i :: 0 <= i < |infos| && infos[i].peerId == p && a in infos[i].listenAddrs
  }

  function TotalAddresses(infos: seq<Info>): nat {
    if infos == [] then 0 else TotalAddresses(infos[..|infos| - 1]) + |infos[|infos| - 1].listenAddrs|
  }

  lemma AdvertisedMore(infos: seq<Info>, x: Info, p: PeerId, a: Address)
    ensures Advertised(infos + [x], p, a) <==> Advertised(infos, p, a) || (x.peerId == p && a in x.listenAddrs)
  {
    assert (infos + [x])[|infos|] == x;
    if Advertised(infos, p, a) {
      var i :| 0 <= i < |infos| && infos[i].peerId == p && a in infos[i].listenAddrs;
      assert (infos + [x])[i] == infos[i];
    }
  }

  lemma EntriesOfHas(info: Info, p: PeerId, a: Address)
    ensures Entry(p, a) in EntriesOf(info) <==> info.peerId == p && a in info.listenAddrs
    ensures |EntriesOf(info)| == |info.listenAddrs|
  {
    if info.peerId == p && a in info.listenAddrs {
      var i :| 0 <= i < |info.listenAddrs| && info.listenAddrs[i] == a;
      assert EntriesOf(info)[i] == Entry(p, a);
    }
  }

  lemma {:induction false} EntriesHave(infos: seq<Info>, p: PeerId, a: Address)
    ensures Entry(p, a) in Entries(infos) <==> Advertised(infos, p, a)
    ensures |Entries(infos)| == TotalAddresses(infos)
  {
    if infos != [] {
      var init, x := infos[..|infos| - 1], infos[|infos| - 1];
      assert infos == init + [x];
      EntriesHave(init, p, a);
      EntriesOfHas(x, p, a);
      AdvertisedMore(init, x, p, a);
    }
  }

  /**
   After the bootstrap an address of a peer is in the routing table exactly if an info that was
   kept, or arrived since, is from that peer and lists it; each listed address is routed once.
   */
  lemma RoutedIff(target: nat, before: seq<Event>, after: seq<Event>, p: PeerId, a: Address)
    requires !HasFinished(before)
    ensures var routed := After(target, before + [BootstrapStep(true)] + after).routed;
      && (Entry(p, a) in routed <==> Advertised(Kept(before, target), p, a) || Advertised(InfosOf(after), p, a))
      && |routed| == TotalAddresses(Kept(before, target)) + TotalAddresses(InfosOf(after))
  {
    RoutedAfterBootstrap(target, before, after);
    EntriesHave(Kept(before, target), p, a);
    EntriesHave(InfosOf(after), p, a);
  }
}
