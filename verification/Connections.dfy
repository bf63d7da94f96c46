/**
 Bookkeeping of connections: how many peers we are connected to, and which address each of them
 is accounted under.
 */
module Connections {
  import opened Primitives

  // ---------- Addresses ----------

  datatype Protocol =
    | Ip4(ip: nat)
    | Ip6(ip: nat)
    | Tcp(port: nat)
    | Udp(port: nat)
    | P2p(peerId: PeerId)
    | Other(name: string)

  type Multiaddr = seq<Protocol>

  predicate IsIp(c: Protocol) {
    c.Ip4? || c.Ip6?
  }

  /** Parts that change when the same host connects again. */
  predicate IsEphemeral(c: Protocol) {
    c.Tcp? || c.Udp? || c.P2p?
  }

  /** The address without its ephemeral parts. */
  function Lasting(addr: Multiaddr): Multiaddr {
    if addr == [] then [] else
      Lasting(addr[..|addr| - 1]) + (if IsEphemeral(addr[|addr| - 1]) then [] else [addr[|addr| - 1]])
  }

  predicate HasIp(addr: Multiaddr) {
    exists c :: c in addr && IsIp(c)
  }

  function LastIp(addr: Multiaddr): (c: Protocol)
    requires HasIp(addr)
    ensures c in addr && IsIp(c)
  {
    if IsIp(addr[|addr| - 1]) then addr[|addr| - 1] else LastIp(addr[..|addr| - 1])
  }

  lemma OneMorePart(addr: Multiaddr, c: Protocol)
    ensures Lasting(addr + [c]) == Lasting(addr) + (if IsEphemeral(c) then [] else [c])
    ensures HasIp(addr + [c]) <==> HasIp(addr) || IsIp(c)
    ensures HasIp(addr + [c]) ==> LastIp(addr + [c]) == if IsIp(c) then c else LastIp(addr)
  {
  }

  /** Just the last IP component if there is one, and otherwise the lasting parts in order. */
  function NonEphemeral(addr: Multiaddr): Multiaddr {
    if HasIp(addr) then [LastIp(addr)] else Lasting(addr)
  }

  function Reversed(addr: Multiaddr): Multiaddr {
    if addr == [] then [] else Reversed(addr[1..]) + [addr[0]]
  }

  method Reverse(addr: Multiaddr) returns (r: Multiaddr)
    ensures r == Reversed(addr)
  {
    r := [];
    for i := 0 to |addr|
      invariant r == Reversed(addr[|addr| - i..])
    {
      var j := |addr| - i - 1;
      assert addr[j..][1..] == addr[j + 1..];
      r := r + [addr[j]];
    }
  }

  lemma {:induction false} ReversedAppend(a: Multiaddr, b: Multiaddr)
    ensures Reversed(a + b) == Reversed(b) + Reversed(a)
  {
    if a == [] {
      assert a + b == b;
    } else {
      assert (a + b)[1..] == a[1..] + b;
      ReversedAppend(a[1..], b);
    }
  }

  /** Taking a part off the end and putting it on the reversed pile changes nothing. */
  lemma KeepOne(rest: Multiaddr, c: Protocol, keep: Multiaddr)
    ensures rest + [c] + Reversed(keep) == rest + Reversed(keep + [c])
  {
    ReversedAppend(keep, [c]);
    assert Reversed([c]) == [c];
  }

  /** Keep just the parts of an address that would stay the same on another connection from the same host. */
  method SelectNonEphemeral(address: Multiaddr) returns (r: Multiaddr)
    ensures r == NonEphemeral(address)
  {
    var addr, keep := address, [];
    while addr != []
      invariant Lasting(addr) + Reversed(keep) == Lasting(address)
      invariant HasIp(addr) <==> HasIp(address)
      invariant HasIp(address) ==> LastIp(addr) == LastIp(address)
      decreases |addr|
    {
      var proto, rest := addr[|addr| - 1], addr[..|addr| - 1];
      assert addr == rest + [proto];
      OneMorePart(rest, proto);
      addr := rest;
      if IsIp(proto) {
        keep := [proto];
        r := Reverse(keep);
        return;
      }
      if !IsEphemeral(proto) {
        KeepOne(Lasting(rest), proto, keep);
        keep := keep + [proto];
      }
    }
    r := Reverse(keep);
  }

  lemma {:induction false} LastingKeepsIps(addr: Multiaddr)
    ensures HasIp(Lasting(addr)) <==> HasIp(addr)
    ensures HasIp(addr) ==> LastIp(Lasting(addr)) == LastIp(addr)
    ensures Lasting(Lasting(addr)) == Lasting(addr)
  {
    if addr != [] {
      var init, c := addr[..|addr| - 1], addr[|addr| - 1];
      LastingKeepsIps(init);
      assert addr == init + [c];
      OneMorePart(init, c);
      if IsEphemeral(c) {
        assert Lasting(addr) == Lasting(init);
      } else {
        assert Lasting(addr) == Lasting(init) + [c];
        OneMorePart(Lasting(init), c);
      }
    }
  }

  /** Addresses that differ only in ephemeral parts are accounted as one, and the choice is final. */
  lemma EphemeralPartsDoNotMatter(a: Multiaddr, b: Multiaddr)
    requires Lasting(a) == Lasting(b)
    ensures NonEphemeral(a) == NonEphemeral(b)
    ensures NonEphemeral(NonEphemeral(a)) == NonEphemeral(a)
  {
    LastingKeepsIps(a);
    LastingKeepsIps(b);
    if HasIp(a) {
      assert LastIp(a) in [LastIp(a)];
    }
  }

  /** What is left of an address names no port and no peer; the parts are the address's own, and none else is lost. */
  lemma {:induction false} LastingIs(addr: Multiaddr, c: Protocol)
    ensures c in Lasting(addr) <==> c in addr && !c.Tcp? && !c.Udp? && !c.P2p?
    ensures c.Ip4? || c.Ip6? || c.Other? ==> multiset(Lasting(addr))[c] == multiset(addr)[c]
  {
    if addr != [] {
      LastingIs(addr[..|addr| - 1], c);
      assert addr == addr[..|addr| - 1] + [addr[|addr| - 1]];
    }
  }

  /**
   The address that an inbound connection is accounted under is a single IP address if there is
   one, and otherwise exactly the parts that are not a port or a peer ID; it never has one of those.
   */
  lemma NonEphemeralIs(addr: Multiaddr, c: Protocol)
    ensures c in NonEphemeral(addr) ==> c in addr && !c.Tcp? && !c.Udp? && !c.P2p?
    ensures (exists x :: x in addr && (x.Ip4? || x.Ip6?)) ==>
      |NonEphemeral(addr)| == 1 && (NonEphemeral(addr)[0].Ip4? || NonEphemeral(addr)[0].Ip6?)
    ensures (forall x :: x in addr ==> !x.Ip4? && !x.Ip6?) ==>
      (c in NonEphemeral(addr) <==> c in addr && !c.Tcp? && !c.Udp? && !c.P2p?)
  {
    LastingIs(addr, c);
    if x :| x in addr && (x.Ip4? || x.Ip6?) {
      assert IsIp(x);
    }
  }

  /** The two addresses differ only in ports and peer IDs: without those they are the same, in the same order. */
  predicate SameHost(a: Multiaddr, b: Multiaddr)
    decreases |a| + |b|
  {
    if a != [] && (a[|a| - 1].Tcp? || a[|a| - 1].Udp? || a[|a| - 1].P2p?) then SameHost(a[..|a| - 1], b)
    else if b != [] && (b[|b| - 1].Tcp? || b[|b| - 1].Udp? || b[|b| - 1].P2p?) then SameHost(a, b[..|b| - 1])
    else if a == [] || b == [] then a == b
    else a[|a| - 1] == b[|b| - 1] && SameHost(a[..|a| - 1], b[..|b| - 1])
  }

  lemma {:induction false} SameHostLasts(a: Multiaddr, b: Multiaddr)
    requires SameHost(a, b)
    ensures Lasting(a) == Lasting(b)
    decreases |a| + |b|
  {
    if a != [] && IsEphemeral(a[|a| - 1]) {
      SameHostLasts(a[..|a| - 1], b);
    } else if b != [] && IsEphemeral(b[|b| - 1]) {
      SameHostLasts(a, b[..|b| - 1]);
    } else if a != [] && b != [] {
      SameHostLasts(a[..|a| - 1], b[..|b| - 1]);
    }
  }

  // ---------- Connections ----------

  datatype Endpoint = Dialer(address: Multiaddr) | Listener(sendBackAddr: Multiaddr)

  /** The swarm says how many other connections to the peer were open, or remain. */
  datatype Event =
    | Established(peerId: PeerId, other: nat, endpoint: Endpoint)
    | Closed(peerId: PeerId, remaining: nat)

  function AccountedAddress(endpoint: Endpoint): Multiaddr {
    match endpoint
    case Dialer(address) => address
    case Listener(addr) => NonEphemeral(addr)
  }

  /** How many connections to a peer are open. */
  function Open(events: seq<Event>, p: PeerId): int {
    if events == [] then 0 else
      var e := events[|events| - 1];
      Open(events[..|events| - 1], p) + (if e.peerId != p then 0 else if e.Established? then 1 else -1)
  }

  /** The swarm reports truthfully: the numbers in the events are the numbers of connections. */
  predicate Truthful(events: seq<Event>) {
    forall i :: 0 <= i < |events| ==>
      var e := events[i];
      if e.Established? then e.other == Open(events[..i], e.peerId)
      else e.remaining == Open(events[..i], e.peerId) - 1
  }

  /** The connection that the current session of a peer began with. */
  ghost predicate BeginsSession(events: seq<Event>, p: PeerId, i: int) {
    && 0 <= i < |events|
    && events[i].Established? && events[i].peerId == p
    && Open(events[..i], p) == 0
    && forall j :: i < j <= |events| ==> Open(events[..j], p) > 0
  }

  /** `None` once the counter would have gone below zero. */
  function Count(n: Option<nat>, e: Event): Option<nat> {
    if n.None? then None
    else match e
      case Established(_, other, _) => if other == 0 then Some(n.value + 1) else n
      case Closed(_, remaining) => if remaining != 0 then n else if n.value == 0 then None else Some(n.value - 1)
  }

  function CountAfter(events: seq<Event>): Option<nat> {
    if events == [] then Some(0) else Count(CountAfter(events[..|events| - 1]), events[|events| - 1])
  }

  function Record(addresses: map<PeerId, Multiaddr>, e: Event): map<PeerId, Multiaddr> {
    match e
    case Established(p, other, endpoint) => if other == 0 then addresses[p := AccountedAddress(endpoint)] else addresses
    case Closed(p, remaining) => if remaining == 0 then addresses - {p} else addresses
  }

  function AddressesAfter(events: seq<Event>): map<PeerId, Multiaddr> {
    if events == [] then map[] else Record(AddressesAfter(events[..|events| - 1]), events[|events| - 1])
  }

  /** The discovery behaviour's count of the peers it is connected to. */
  class ConnectionCounter {
    var numConnections: Option<nat>

    constructor ()
      ensures numConnections == Some(0)
    {
      numConnections := Some(0);
    }

    method OnSwarmEvent(e: Event)
      modifies this
      ensures numConnections == Count(old(numConnections), e)
    {
      if numConnections.None? {
        return;
      }
      match e {
        case Established(_, other, _) =>
          if other == 0 {
            numConnections := Some(numConnections.value + 1);
          }
        case Closed(_, remaining) =>
          if remaining == 0 {
            numConnections := if numConnections.value == 0 then None else Some(numConnections.value - 1);
          }
      }
    }
  }

  /** The content behaviour's record of the addresses that peers connected from. */
  class AddressBook {
    var peerAddresses: map<PeerId, Multiaddr>

    constructor ()
      ensures peerAddresses == map[]
    {
      peerAddresses := map[];
    }

    method OnSwarmEvent(e: Event)
      modifies this
      ensures peerAddresses == Record(old(peerAddresses), e)
    {
      match e {
        case Established(peerId, other, endpoint) =>
          if other == 0 {
            var addr;
            match endpoint {
              case Dialer(address) => addr := address;
              case Listener(sendBackAddr) => addr := SelectNonEphemeral(sendBackAddr);
            }
            peerAddresses := peerAddresses[peerId := addr];
          }
        case Closed(peerId, remaining) =>
          if remaining == 0 {
            peerAddresses := peerAddresses - {peerId};
          }
      }
    }
  }

  lemma TruthfulPrefix(events: seq<Event>, n: nat)
    requires Truthful(events) && n <= |events|
    ensures Truthful(events[..n])
  {
    forall i | 0 <= i < n
      ensures events[..n][..i] == events[..i]
    {
    }
  }

  lemma {:induction false} OpenIsCount(events: seq<Event>, p: PeerId)
    requires Truthful(events)
    ensures Open(events, p) >= 0
    ensures Open(events, p) > 0 <==> p in AddressesAfter(events)
  {
    if events != [] {
      var n := |events| - 1;
      TruthfulPrefix(events, n);
      OpenIsCount(events[..n], p);
      OpenIsCount(events[..n], events[n].peerId);
    }
  }

  /** The counter never underflows and is the number of peers with an address, which are those with a connection. */
  lemma {:induction false} CountsConnectedPeers(events: seq<Event>)
    requires Truthful(events)
    ensures CountAfter(events) == Some(|AddressesAfter(events).Keys|)
    ensures forall p :: p in AddressesAfter(events) <==> Open(events, p) > 0
  {
    forall p {
      OpenIsCount(events, p);
    }
    if events != [] {
      var n := |events| - 1;
      var before, e := AddressesAfter(events[..n]), events[n];
      TruthfulPrefix(events, n);
      CountsConnectedPeers(events[..n]);
      OpenIsCount(events[..n], e.peerId);
      var after := AddressesAfter(events);
      if e.Established? && e.other == 0 {
        assert after.Keys == before.Keys + {e.peerId};
      } else if e.Closed? && e.remaining == 0 {
        assert before.Keys == after.Keys + {e.peerId};
        assert e.peerId in before.Keys;
      }
    }
  }

  lemma SessionGoesOn(events: seq<Event>, p: PeerId, i: int)
    requires events != [] && BeginsSession(events[..|events| - 1], p, i) && Open(events, p) > 0
    ensures BeginsSession(events, p, i)
  {
    var n := |events| - 1;
    assert events[..n][..i] == events[..i];
    forall j | i < j <= |events|
      ensures Open(events[..j], p) > 0
    {
      if j <= n {
        assert events[..n][..j] == events[..j];
      } else {
        assert events[..j] == events;
      }
    }
  }

  /** A connected peer is accounted under the address of the connection its session began with. */
  lemma {:induction false} AccountedByFirstConnection(events: seq<Event>, p: PeerId) returns (i: int)
    requires Truthful(events) && p in AddressesAfter(events)
    ensures BeginsSession(events, p, i)
    ensures AddressesAfter(events)[p] == AccountedAddress(events[i].endpoint)
  {
    var n := |events| - 1;
    var e := events[n];
    TruthfulPrefix(events, n);
    OpenIsCount(events, p);
    if e.Established? && e.peerId == p && e.other == 0 {
      i := n;
      assert events[..n + 1] == events;
    } else {
      i := AccountedByFirstConnection(events[..n], p);
      SessionGoesOn(events, p, i);
    }
  }

  lemma SessionStartUnique(events: seq<Event>, p: PeerId, i: int, j: int)
    requires BeginsSession(events, p, i) && BeginsSession(events, p, j)
    ensures i == j
  {
    var openAtI, openAtJ := Open(events[..i], p), Open(events[..j], p);
  }

  lemma ConnectedIfSession(events: seq<Event>, p: PeerId, i: int)
    requires Truthful(events) && BeginsSession(events, p, i)
    ensures p in AddressesAfter(events)
    ensures AddressesAfter(events)[p] == AccountedAddress(events[i].endpoint)
  {
    assert events[..|events|] == events;
    OpenIsCount(events, p);
    var j := AccountedByFirstConnection(events, p);
    SessionStartUnique(events, p, i, j);
  }

  /** A peer whose session began with a connection that we dialled is accounted under the address dialled. */
  lemma DialledUnderItsAddress(events: seq<Event>, p: PeerId, i: int)
    requires Truthful(events) && BeginsSession(events, p, i) && events[i].endpoint.Dialer?
    ensures p in AddressesAfter(events) && AddressesAfter(events)[p] == events[i].endpoint.address
  {
    ConnectedIfSession(events, p, i);
  }

  /**
   Peers that connected to us from the same host are accounted under the same address, whatever
   their ports and identities, and that address names neither.
   */
  lemma InboundShareAnAccount(events: seq<Event>, p: PeerId, i: int, q: PeerId, j: int)
    requires Truthful(events) && BeginsSession(events, p, i) && BeginsSession(events, q, j)
    requires events[i].endpoint.Listener? && events[j].endpoint.Listener?
    requires SameHost(events[i].endpoint.sendBackAddr, events[j].endpoint.sendBackAddr)
    ensures p in AddressesAfter(events) && q in AddressesAfter(events)
    ensures AddressesAfter(events)[p] == AddressesAfter(events)[q]
    ensures forall c :: c in AddressesAfter(events)[p] ==> !c.Tcp? && !c.Udp? && !c.P2p?
  {
    var a, b := events[i].endpoint.sendBackAddr, events[j].endpoint.sendBackAddr;
    ConnectedIfSession(events, p, i);
    ConnectedIfSession(events, q, j);
    SameHostLasts(a, b);
    EphemeralPartsDoNotMatter(a, b);
    forall c | c in NonEphemeral(a)
      ensures !c.Tcp? && !c.Udp? && !c.P2p?
    {
      NonEphemeralIs(a, c);
    }
  }

  /** An inbound peer is accounted under the last IP address of where it connected from, if there is one. */
  lemma InboundUnderItsIp(events: seq<Event>, p: PeerId, i: int, k: nat)
    requires Truthful(events) && BeginsSession(events, p, i) && events[i].endpoint.Listener?
    requires var a := events[i].endpoint.sendBackAddr;
      && k < |a| && (a[k].Ip4? || a[k].Ip6?)
      && forall l :: k < l < |a| ==> !a[l].Ip4? && !a[l].Ip6?
    ensures p in AddressesAfter(events) && AddressesAfter(events)[p] == [events[i].endpoint.sendBackAddr[k]]
  {
    ConnectedIfSession(events, p, i);
    LastIpIs(events[i].endpoint.sendBackAddr, k);
  }

  lemma {:induction false} LastIpIs(addr: Multiaddr, k: nat)
    requires k < |addr| && IsIp(addr[k]) && forall l :: k < l < |addr| ==> !IsIp(addr[l])
    ensures HasIp(addr) && LastIp(addr) == addr[k]
    decreases |addr|
  {
    assert addr[k] in addr;
    if k < |addr| - 1 {
      LastIpIs(addr[..|addr| - 1], k);
    }
  }
}
