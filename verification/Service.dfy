/**
 The resolver service's query state machine: many requests in flight at once, completions in any
 order, retries through batches of peers, and one reply per request.

 `Step` is the service. `PhaseAfter` follows a single request as if it were alone. The theorems
 say that the service is nothing but all its requests side by side.
 */
module Service {
  import opened Primitives

  /** Identifiers of Bitswap queries and of the one-shot channels that requests are answered on. */
  type QueryId(==, !new)
  type Channel(==, !new)

  /** A query in flight, with the peers that have not been tried yet. */
  datatype Query = Query(cid: Cid, subnetId: SubnetId, fallback: seq<PeerId>, channel: Channel)

  datatype Reply = Reply(channel: Channel, ok: bool)

  datatype Attempt = Attempt(cid: Cid, peers: seq<PeerId>)

  /**
   What the service reacts to. `peers` are the known providers in shuffled order, `connected` those
   with a connection, and `id` what Bitswap will call the attempt that the input leads to, if any.
   */
  datatype Input =
    | Resolve(cid: Cid, subnetId: SubnetId, channel: Channel, peers: seq<PeerId>, connected: set<PeerId>, id: QueryId)
    | Complete(query: QueryId, ok: bool, id: QueryId)

  datatype State = State(queries: map<QueryId, Query>, replies: seq<Reply>, attempts: map<QueryId, Attempt>)

  const IDLE := State(map[], [], map[])

  // ---------- Peers and batches ----------

  function Select(peers: seq<PeerId>, connected: set<PeerId>, yes: bool): (r: seq<PeerId>)
    ensures forall p :: p in r ==> (p in connected) == yes
  {
    if peers == [] then [] else
      Select(peers[..|peers| - 1], connected, yes) +
      (if (peers[|peers| - 1] in connected) == yes then [peers[|peers| - 1]] else [])
  }

  /** Connected peers first, otherwise in the given order. */
  function Prioritised(peers: seq<PeerId>, connected: set<PeerId>): seq<PeerId> {
    Select(peers, connected, true) + Select(peers, connected, false)
  }

  function Now(size: nat, peers: seq<PeerId>): seq<PeerId> {
    peers[..Min(size, |peers|)]
  }

  function Fallback(size: nat, peers: seq<PeerId>): seq<PeerId> {
    peers[Min(size, |peers|)..]
  }

  /** The peers not tried in the first `k` attempts. */
  function Untried(order: seq<PeerId>, size: nat, k: nat): seq<PeerId> {
    if k == 0 then order else Fallback(size, Untried(order, size, k - 1))
  }

  /** The peers of the k-th attempt, counting from 0. */
  function Batch(order: seq<PeerId>, size: nat, k: nat): seq<PeerId> {
    Now(size, Untried(order, size, k))
  }

  // ---------- The service ----------

  function Step(size: nat, st: State, input: Input): State {
    match input
    case Resolve(cid, subnetId, channel, peers, connected, id) =>
      if peers == [] then st.(replies := st.replies + [Reply(channel, false)])
      else
        var order := Prioritised(peers, connected);
        st.(queries := st.queries[id := Query(cid, subnetId, Fallback(size, order), channel)],
            attempts := st.attempts[id := Attempt(cid, Now(size, order))])
    case Complete(query, ok, id) =>
      if query !in st.queries then st
      else
        var q := st.queries[query];
        if ok || q.fallback == [] then
          st.(queries := st.queries - {query}, replies := st.replies + [Reply(q.channel, ok)])
        else
          st.(queries := (st.queries - {query})[id := q.(fallback := Fallback(size, q.fallback))],
              attempts := st.attempts[id := Attempt(q.cid, Now(size, q.fallback))])
  }

  function After(size: nat, inputs: seq<Input>): State {
    if inputs == [] then IDLE else
      Step(size, After(size, inputs[..|inputs| - 1]), inputs[|inputs| - 1])
  }

  // ---------- One request on its own ----------

  /** `ids` are the attempts made so far, the last one in flight while `Trying`. */
  datatype Phase =
    | Unasked
    | Trying(cid: Cid, order: seq<PeerId>, ids: seq<QueryId>)
    | Answered(cid: Cid, order: seq<PeerId>, ids: seq<QueryId>, ok: bool)

  predicate InFlight(ph: Phase, id: QueryId) {
    ph.Trying? && |ph.ids| > 0 && ph.ids[|ph.ids| - 1] == id
  }

  function NextPhase(size: nat, ph: Phase, input: Input, c: Channel): Phase {
    match input
    case Resolve(cid, _, channel, peers, connected, id) =>
      if channel != c || !ph.Unasked? then ph
      else if peers == [] then Answered(cid, [], [], false)
      else Trying(cid, Prioritised(peers, connected), [id])
    case Complete(query, ok, id) =>
      if !InFlight(ph, query) then ph
      else if ok || Untried(ph.order, size, |ph.ids|) == [] then Answered(ph.cid, ph.order, ph.ids, ok)
      else Trying(ph.cid, ph.order, ph.ids + [id])
  }

  function PhaseAfter(size: nat, inputs: seq<Input>, c: Channel): Phase {
    if inputs == [] then Unasked else
      NextPhase(size, PhaseAfter(size, inputs[..|inputs| - 1], c), inputs[|inputs| - 1], c)
  }

  // ---------- The correspondence ----------

  /** Bitswap never reuses an identifier and every request brings its own channel. */
  predicate WellFormed(inputs: seq<Input>) {
    && (forall i, j :: 0 <= i < j < |inputs| ==> inputs[i].id != inputs[j].id)
    && (forall i, j :: 0 <= i < j < |inputs| && inputs[i].Resolve? && inputs[j].Resolve? ==>
          inputs[i].channel != inputs[j].channel)
  }

  /** What was sent on a channel. */
  function Sent(replies: seq<Reply>, c: Channel): seq<bool> {
    if replies == [] then [] else
      Sent(replies[..|replies| - 1], c) +
      (if replies[|replies| - 1].channel == c then [replies[|replies| - 1].ok] else [])
  }

  /** The channel is held by one pending query while its request is being tried, and by none otherwise. */
  ghost predicate Holds(size: nat, queries: map<QueryId, Query>, ph: Phase, c: Channel) {
    && (forall q :: q in queries ==> (queries[q].channel == c <==> InFlight(ph, q)))
    && (ph.Trying? ==>
          && |ph.ids| > 0
          && ph.ids[|ph.ids| - 1] in queries
          && var q := queries[ph.ids[|ph.ids| - 1]];
             q.cid == ph.cid && q.fallback == Untried(ph.order, size, |ph.ids|))
  }

  /** The attempts of the request went to its batches of peers, in order. */
  ghost predicate Logged(size: nat, attempts: map<QueryId, Attempt>, ph: Phase) {
    !ph.Unasked? ==> forall k :: 0 <= k < |ph.ids| ==>
      ph.ids[k] in attempts && attempts[ph.ids[k]] == Attempt(ph.cid, Batch(ph.order, size, k))
  }

  /** The service's state, as far as a channel is concerned, is the phase of its request. */
  ghost predicate Mirrors(size: nat, st: State, ph: Phase, c: Channel) {
    && Holds(size, st.queries, ph, c)
    && Sent(st.replies, c) == (if ph.Answered? then [ph.ok] else [])
    && Logged(size, st.attempts, ph)
  }

  lemma SentMore(replies: seq<Reply>, r: Reply, c: Channel)
    ensures Sent(replies + [r], c) == Sent(replies, c) + (if r.channel == c then [r.ok] else [])
  {
  }

  lemma PrioritisedNonEmpty(peers: seq<PeerId>, connected: set<PeerId>)
    requires peers != []
    ensures Prioritised(peers, connected) != []
  {
  }

  lemma OthersHolding(size: nat, queries: map<QueryId, Query>, ph: Phase, id: QueryId, q: Query, c: Channel)
    requires Holds(size, queries, ph, c) && q.channel != c
    ensures id !in queries ==> Holds(size, queries[id := q], ph, c)
    ensures id in queries && queries[id].channel != c ==> Holds(size, queries - {id}, ph, c)
  {
  }

  lemma OthersLogged(size: nat, attempts: map<QueryId, Attempt>, ph: Phase, id: QueryId, a: Attempt)
    requires Logged(size, attempts, ph) && id !in attempts
    ensures Logged(size, attempts[id := a], ph)
  {
  }

  lemma StartHolds(size: nat, queries: map<QueryId, Query>, ph: Phase, ph': Phase, q: Query, c: Channel)
    requires Holds(size, queries, ph, c) && !ph.Trying?
    requires ph'.Trying? && |ph'.ids| == 1 && ph'.ids[0] !in queries
    requires q.cid == ph'.cid && q.channel == c && q.fallback == Fallback(size, ph'.order)
    ensures Holds(size, queries[ph'.ids[0] := q], ph', c)
  {
    assert Untried(ph'.order, size, 1) == Fallback(size, Untried(ph'.order, size, 0));
  }

  lemma MirrorsAfterRequest(size: nat, st: State, ph: Phase, input: Input, c: Channel)
    requires input.Resolve? && Mirrors(size, st, ph, c)
    requires input.id !in st.queries && input.id !in st.attempts
    requires input.channel == c && ph.Unasked?
    ensures Mirrors(size, Step(size, st, input), NextPhase(size, ph, input, c), c)
  {
    var st', ph' := Step(size, st, input), NextPhase(size, ph, input, c);
    if input.peers == [] {
      SentMore(st.replies, Reply(c, false), c);
    } else {
      StartHolds(size, st.queries, ph, ph', st'.queries[input.id], c);
      assert Untried(ph'.order, size, 0) == ph'.order;
    }
  }

  lemma MirrorsAfterOtherRequest(size: nat, st: State, ph: Phase, input: Input, c: Channel)
    requires input.Resolve? && Mirrors(size, st, ph, c)
    requires input.id !in st.queries && input.id !in st.attempts
    requires input.channel != c
    ensures Mirrors(size, Step(size, st, input), ph, c)
  {
    if input.peers == [] {
      SentMore(st.replies, Reply(input.channel, false), c);
    } else {
      var st' := Step(size, st, input);
      OthersHolding(size, st.queries, ph, input.id, st'.queries[input.id], c);
      OthersLogged(size, st.attempts, ph, input.id, st'.attempts[input.id]);
    }
  }

  lemma RetryHolds(size: nat, queries: map<QueryId, Query>, ph: Phase, spent: QueryId, id: QueryId, c: Channel)
    requires Holds(size, queries, ph, c) && InFlight(ph, spent) && id !in queries
    ensures spent in queries && queries[spent].channel == c
    ensures var q := queries[spent];
      Holds(size, (queries - {spent})[id := q.(fallback := Fallback(size, q.fallback))],
            Trying(ph.cid, ph.order, ph.ids + [id]), c)
  {
  }

  lemma RetryLogged(size: nat, attempts: map<QueryId, Attempt>, ph: Phase, id: QueryId)
    requires ph.Trying? && Logged(size, attempts, ph) && id !in attempts
    ensures Logged(size, attempts[id := Attempt(ph.cid, Batch(ph.order, size, |ph.ids|))],
                   Trying(ph.cid, ph.order, ph.ids + [id]))
  {
  }

  lemma MirrorsAfterOwn(size: nat, st: State, ph: Phase, input: Input, c: Channel)
    requires input.Complete? && Mirrors(size, st, ph, c) && InFlight(ph, input.query)
    requires input.id !in st.queries && input.id !in st.attempts
    ensures Mirrors(size, Step(size, st, input), NextPhase(size, ph, input, c), c)
  {
    RetryHolds(size, st.queries, ph, input.query, input.id, c);
    if input.ok || st.queries[input.query].fallback == [] {
      SentMore(st.replies, Reply(c, input.ok), c);
    } else {
      RetryLogged(size, st.attempts, ph, input.id);
    }
  }

  lemma MirrorsAfterOther(size: nat, st: State, ph: Phase, input: Input, c: Channel)
    requires input.Complete? && Mirrors(size, st, ph, c) && !InFlight(ph, input.query)
    requires input.id !in st.queries && input.id !in st.attempts
    ensures Mirrors(size, Step(size, st, input), ph, c)
  {
    if input.query in st.queries {
      var q, st' := st.queries[input.query], Step(size, st, input);
      OthersHolding(size, st.queries, ph, input.query, q, c);
      if input.ok || q.fallback == [] {
        SentMore(st.replies, Reply(q.channel, input.ok), c);
      } else {
        OthersHolding(size, st.queries - {input.query}, ph, input.id, st'.queries[input.id], c);
        OthersLogged(size, st.attempts, ph, input.id, st'.attempts[input.id]);
      }
    }
  }

  // ---------- Freshness along a run ----------

  lemma WellFormedPrefix(inputs: seq<Input>)
    requires inputs != [] && WellFormed(inputs)
    ensures WellFormed(inputs[..|inputs| - 1])
  {
  }

  ghost predicate Used(inputs: seq<Input>, id: QueryId) {
    exists i :: 0 <= i < |inputs| && inputs[i].id == id
  }

  lemma {:induction false} OnlyUsedIds(size: nat, inputs: seq<Input>, id: QueryId)
    requires id in After(size, inputs).queries || id in After(size, inputs).attempts
    ensures Used(inputs, id)
  {
    if inputs != [] {
      var n := |inputs| - 1;
      var st := After(size, inputs[..n]);
      if id == inputs[n].id {
      } else {
        OnlyUsedIds(size, inputs[..n], id);
        var i :| 0 <= i < n && inputs[..n][i].id == id;
        assert inputs[i].id == id;
      }
    }
  }

  lemma {:induction false} UnaskedUntilResolved(size: nat, inputs: seq<Input>, c: Channel)
    requires forall i :: 0 <= i < |inputs| && inputs[i].Resolve? ==> inputs[i].channel != c
    ensures PhaseAfter(size, inputs, c).Unasked?
  {
    if inputs != [] {
      UnaskedUntilResolved(size, inputs[..|inputs| - 1], c);
    }
  }

  /**
   Under any interleaving of requests and completions, known or not, each request proceeds as if
   it were alone, and its channel is in exactly one place: with the one pending query of its
   request, or answered exactly once.
   */
  lemma {:induction false} RequestsProceedIndependently(size: nat, inputs: seq<Input>, c: Channel)
    requires WellFormed(inputs)
    ensures Mirrors(size, After(size, inputs), PhaseAfter(size, inputs, c), c)
  {
    if inputs != [] {
      var n := |inputs| - 1;
      var before, input := inputs[..n], inputs[n];
      var st, ph := After(size, before), PhaseAfter(size, before, c);
      WellFormedPrefix(inputs);
      RequestsProceedIndependently(size, before, c);
      assert input.id !in st.queries && input.id !in st.attempts by {
        if input.id in st.queries || input.id in st.attempts {
          OnlyUsedIds(size, before, input.id);
          assert false;
        }
      }
      if input.Resolve? && input.channel == c {
        assert forall i :: 0 <= i < n ==> before[i] == inputs[i];
        UnaskedUntilResolved(size, before, c);
        MirrorsAfterRequest(size, st, ph, input, c);
      } else if input.Resolve? {
        MirrorsAfterOtherRequest(size, st, ph, input, c);
      } else if InFlight(ph, input.query) {
        MirrorsAfterOwn(size, st, ph, input, c);
      } else {
        MirrorsAfterOther(size, st, ph, input, c);
      }
    }
  }

  /** A channel is held by exactly one query or was answered exactly once, as soon as its request was made. */
  lemma ChannelInOnePlace(size: nat, inputs: seq<Input>, i: nat)
    requires WellFormed(inputs) && i < |inputs| && inputs[i].Resolve?
    ensures var c, st := inputs[i].channel, After(size, inputs);
      var held := set q | q in st.queries && st.queries[q].channel == c;
      |held| + |Sent(st.replies, c)| == 1
  {
    var c, st := inputs[i].channel, After(size, inputs);
    var ph := PhaseAfter(size, inputs, c);
    RequestsProceedIndependently(size, inputs, c);
    AskedOnceResolved(size, inputs, i);
    var held := set q | q in st.queries && st.queries[q].channel == c;
    if ph.Trying? {
      assert held == {ph.ids[|ph.ids| - 1]};
    } else {
      assert held == {};
    }
  }

  lemma {:induction false} AskedOnceResolved(size: nat, inputs: seq<Input>, i: nat)
    requires i < |inputs| && inputs[i].Resolve?
    ensures !PhaseAfter(size, inputs, inputs[i].channel).Unasked?
  {
    if i < |inputs| - 1 {
      AskedOnceResolved(size, inputs[..|inputs| - 1], i);
    }
  }

  // ---------- What an answer means ----------

  ghost predicate Completed(inputs: seq<Input>, id: QueryId, ok: bool) {
    exists i :: 0 <= i < |inputs| && inputs[i].Complete? && inputs[i].query == id && inputs[i].ok == ok
  }

  /** The attempts before the last have failed, and each was made while there were peers left to try. */
  ghost predicate Earned(size: nat, inputs: seq<Input>, ph: Phase) {
    !ph.Unasked? ==>
      && (forall k :: 0 <= k < |ph.ids| - 1 ==> Completed(inputs, ph.ids[k], false))
      && (forall k :: 0 <= k < |ph.ids| ==> Untried(ph.order, size, k) != [])
      && (ph.Trying? ==> |ph.ids| > 0)
      && (ph.Answered? && |ph.ids| > 0 ==> Completed(inputs, ph.ids[|ph.ids| - 1], ph.ok))
      && (ph.Answered? && !ph.ok ==> Untried(ph.order, size, |ph.ids|) == [])
      && (ph.Answered? && ph.ok ==> |ph.ids| > 0)
  }

  lemma CompletedMore(inputs: seq<Input>, more: seq<Input>, id: QueryId, ok: bool)
    requires Completed(inputs, id, ok)
    ensures Completed(inputs + more, id, ok)
  {
    var i :| 0 <= i < |inputs| && inputs[i].Complete? && inputs[i].query == id && inputs[i].ok == ok;
    assert (inputs + more)[i] == inputs[i];
  }

  /**
   Success is only sent after an attempt succeeded. Failure is only sent when there were no
   providers, or each of them was in a batch that failed.
   */
  lemma {:induction false} AnswersAreEarned(size: nat, inputs: seq<Input>, c: Channel)
    ensures Earned(size, inputs, PhaseAfter(size, inputs, c))
  {
    if inputs != [] {
      var n := |inputs| - 1;
      var before, input := inputs[..n], inputs[n];
      var ph := PhaseAfter(size, before, c);
      AnswersAreEarned(size, before, c);
      assert inputs == before + [input];
      forall id, ok | Completed(before, id, ok)
        ensures Completed(inputs, id, ok)
      {
        CompletedMore(before, [input], id, ok);
      }
      if input.Complete? {
        assert Completed(inputs, input.query, input.ok);
      } else if input.channel == c && input.peers != [] {
        PrioritisedNonEmpty(input.peers, input.connected);
      }
    }
  }

  // ---------- Batches ----------

  lemma Stride(n: nat, size: nat, k: nat)
    requires k > 0
    ensures var a := Min((k - 1) * size, n); a + Min(size, n - a) == Min(k * size, n)
  {
  }

  lemma DropTwice(order: seq<PeerId>, a: nat, b: nat)
    requires a + b <= |order|
    ensures order[a..][b..] == order[a + b..]
  {
  }

  /** Attempts walk through the order in strides. */
  lemma {:induction false} UntriedIs(order: seq<PeerId>, size: nat, k: nat)
    ensures Untried(order, size, k) == order[Min(k * size, |order|)..]
  {
    if k == 0 {
      assert k * size == 0;
    } else {
      var a := Min((k - 1) * size, |order|);
      UntriedIs(order, size, k - 1);
      Stride(|order|, size, k);
      DropTwice(order, a, Min(size, |order| - a));
    }
  }

  lemma BatchIs(order: seq<PeerId>, size: nat, k: nat)
    ensures k * size <= (k + 1) * size
    ensures Batch(order, size, k) == order[Min(k * size, |order|)..Min((k + 1) * size, |order|)]
    ensures |Batch(order, size, k)| <= size
  {
    UntriedIs(order, size, k);
    MultiplesApart(size, k, k);
  }

  lemma BatchWithin(order: seq<PeerId>, size: nat, k: nat, p: PeerId)
    requires p in Batch(order, size, k)
    ensures p in order
  {
    BatchIs(order, size, k);
  }

  /** No provider is contacted twice for one request. */
  lemma BatchesDisjoint(order: seq<PeerId>, size: nat, j: nat, k: nat, p: PeerId)
    requires NoDuplicates(order) && j < k
    ensures !(p in Batch(order, size, j) && p in Batch(order, size, k))
  {
    BatchIs(order, size, j);
    BatchIs(order, size, k);
    MultiplesApart(size, j, k);
  }

  /** Every provider is still to be tried or was in a batch. */
  lemma {:induction false} BatchesCover(order: seq<PeerId>, size: nat, k: nat, p: PeerId)
    requires p in order && p !in Untried(order, size, k)
    ensures exists j :: 0 <= j < k && p in Batch(order, size, j)
  {
    if p !in Untried(order, size, k - 1) {
      BatchesCover(order, size, k - 1, p);
    } else {
      var u := Untried(order, size, k - 1);
      assert u == Now(size, u) + Fallback(size, u);
      assert p in Batch(order, size, k - 1);
    }
  }

  // ---------- Requests and their answers ----------

  lemma {:induction false} SentHas(replies: seq<Reply>, c: Channel, ok: bool)
    ensures Reply(c, ok) in replies <==> ok in Sent(replies, c)
  {
    if replies != [] {
      var init := replies[..|replies| - 1];
      SentHas(init, c, ok);
      assert replies == init + [replies[|replies| - 1]];
    }
  }

  /** Once asked, a request keeps its CID and the order of its providers. */
  lemma {:induction false} OrderOfRequest(size: nat, inputs: seq<Input>, i: nat)
    requires WellFormed(inputs) && i < |inputs| && inputs[i].Resolve?
    ensures var ph := PhaseAfter(size, inputs, inputs[i].channel);
      && !ph.Unasked? && ph.cid == inputs[i].cid
      && ph.order == Prioritised(inputs[i].peers, inputs[i].connected)
  {
    var before := inputs[..|inputs| - 1];
    WellFormedPrefix(inputs);
    if i < |before| {
      OrderOfRequest(size, before, i);
    } else {
      assert forall k :: 0 <= k < |before| ==> before[k] == inputs[k];
      UnaskedUntilResolved(size, before, inputs[i].channel);
    }
  }

  /** The attempt was made for the request's CID, to peers of which this is one, and it completed like that. */
  ghost predicate Tried(st: State, inputs: seq<Input>, id: QueryId, cid: Cid, p: PeerId, ok: bool) {
    id in st.attempts && st.attempts[id].cid == cid && p in st.attempts[id].peers && Completed(inputs, id, ok)
  }

  lemma NoDuplicatesOf(peers: seq<PeerId>)
    ensures NoDuplicates(peers) <==> forall p :: multiset(peers)[p] <= 1
  {
    if NoDuplicates(peers) {
      forall p
        ensures multiset(peers)[p] <= 1
      {
        CountOfDistinct(peers, p);
      }
    } else {
      var i, j :| 0 <= i < j < |peers| && peers[i] == peers[j];
      assert peers == peers[..j] + peers[j..];
      assert peers[i] in peers[..j] && peers[j] in peers[j..];
      assert multiset(peers)[peers[i]] == multiset(peers[..j])[peers[i]] + multiset(peers[j..])[peers[i]];
    }
  }

  lemma {:induction false} CountOfDistinct(peers: seq<PeerId>, p: PeerId)
    requires NoDuplicates(peers)
    ensures multiset(peers)[p] <= 1
  {
    if peers != [] {
      var init, last := peers[..|peers| - 1], peers[|peers| - 1];
      assert peers == init + [last];
      CountOfDistinct(init, p);
      assert last !in init;
      assert multiset(init)[last] == 0;
    }
  }

  /** No two attempts of a request go to the same peer, if its providers are listed once each. */
  lemma NoPeerTwice(size: nat, inputs: seq<Input>, i: nat, j: nat, k: nat, p: PeerId)
    requires WellFormed(inputs) && i < |inputs| && inputs[i].Resolve? && NoDuplicates(inputs[i].peers)
    requires var ph := PhaseAfter(size, inputs, inputs[i].channel); !ph.Unasked? && j < k < |ph.ids|
    ensures var st, ids := After(size, inputs), PhaseAfter(size, inputs, inputs[i].channel).ids;
      && ids[j] in st.attempts && ids[k] in st.attempts
      && !(p in st.attempts[ids[j]].peers && p in st.attempts[ids[k]].peers)
  {
    hide After, PhaseAfter, Prioritised, Batch;
    var ph := PhaseAfter(size, inputs, inputs[i].channel);
    RequestsProceedIndependently(size, inputs, inputs[i].channel);
    OrderOfRequest(size, inputs, i);
    PrioritisedKeepsAll(inputs[i].peers, inputs[i].connected);
    NoDuplicatesOf(inputs[i].peers);
    NoDuplicatesOf(ph.order);
    BatchesDisjoint(ph.order, size, j, k, p);
  }

  lemma FailedBatch(size: nat, inputs: seq<Input>, c: Channel, p: PeerId) returns (k: nat)
    requires var ph := PhaseAfter(size, inputs, c); ph.Answered? && !ph.ok && p in ph.order
    ensures var ph := PhaseAfter(size, inputs, c);
      k < |ph.ids| && p in Batch(ph.order, size, k) && Completed(inputs, ph.ids[k], false)
  {
    var ph := PhaseAfter(size, inputs, c);
    AnswersAreEarned(size, inputs, c);
    BatchesCover(ph.order, size, |ph.ids|, p);
    k :| 0 <= k < |ph.ids| && p in Batch(ph.order, size, k);
    assert Completed(inputs, ph.ids[k], false);
  }

  /** When a request is told that it failed, each of its providers was in an attempt that failed. */
  lemma FailureMeansAllFailed(size: nat, inputs: seq<Input>, i: nat, p: PeerId)
    requires WellFormed(inputs) && i < |inputs| && inputs[i].Resolve?
    requires Reply(inputs[i].channel, false) in After(size, inputs).replies
    requires p in inputs[i].peers
    ensures exists id :: Tried(After(size, inputs), inputs, id, inputs[i].cid, p, false)
  {
    var c, st := inputs[i].channel, After(size, inputs);
    var ph := PhaseAfter(size, inputs, c);
    RequestsProceedIndependently(size, inputs, c);
    SentHas(st.replies, c, false);
    OrderOfRequest(size, inputs, i);
    PrioritisedHas(inputs[i].peers, inputs[i].connected, p);
    var k := FailedBatch(size, inputs, c, p);
    assert Tried(st, inputs, ph.ids[k], inputs[i].cid, p, false);
  }

  /** When a request is told that it succeeded, an attempt for its CID, made to its providers only, has succeeded. */
  lemma SuccessMeansOneSucceeded(size: nat, inputs: seq<Input>, i: nat) returns (id: QueryId)
    requires WellFormed(inputs) && i < |inputs| && inputs[i].Resolve?
    requires Reply(inputs[i].channel, true) in After(size, inputs).replies
    ensures id in After(size, inputs).attempts && After(size, inputs).attempts[id].cid == inputs[i].cid
    ensures forall p :: p in After(size, inputs).attempts[id].peers ==> p in inputs[i].peers
    ensures Completed(inputs, id, true)
  {
    hide After, PhaseAfter, Prioritised, Batch, WellFormed;
    var c, st := inputs[i].channel, After(size, inputs);
    var ph := PhaseAfter(size, inputs, c);
    RequestsProceedIndependently(size, inputs, c);
    SentHas(st.replies, c, true);
    OrderOfRequest(size, inputs, i);
    AnswersAreEarned(size, inputs, c);
    var k := |ph.ids| - 1;
    id := ph.ids[k];
    forall p | p in Batch(ph.order, size, k)
      ensures p in inputs[i].peers
    {
      BatchWithin(ph.order, size, k, p);
      PrioritisedHas(inputs[i].peers, inputs[i].connected, p);
    }
  }

  lemma CeilingUnique(n: nat, m: nat, k: nat)
    requires m >= 1 && n <= k * m && (k > 0 ==> (k - 1) * m < n)
    ensures k == (n + m - 1) / m
  {
    if k > 0 {
      MultiplesApart(m, k - 1, k);
    }
    QuotientUnique(n + m - 1, m, k);
  }

  lemma NobodyLeftIff(order: seq<PeerId>, size: nat, k: nat)
    ensures Untried(order, size, k) == [] <==> |order| <= k * size
  {
    UntriedIs(order, size, k);
  }

  /** The number of batches that an order of peers is divided into. */
  function Batches(size: nat, order: seq<PeerId>): nat
    requires size >= 1
  {
    (|order| + size - 1) / size
  }

  /** An order is used up after as many attempts as it has batches, and not before. */
  lemma UsedUpIff(size: nat, order: seq<PeerId>, k: nat)
    requires size >= 1 && (k > 0 ==> Untried(order, size, k - 1) != [])
    ensures k <= Batches(size, order)
    ensures Untried(order, size, k) == [] <==> k == Batches(size, order)
  {
    NobodyLeftIff(order, size, k);
    NobodyLeftIff(order, size, Batches(size, order));
    CeilingCovers(|order|, size);
    if k > 0 {
      NobodyLeftIff(order, size, k - 1);
      CeilingAtLeast(|order|, size, k);
    }
    if |order| <= k * size {
      CeilingUnique(|order|, size, k);
    }
  }

  lemma CeilingCovers(n: nat, m: nat)
    requires m >= 1
    ensures n <= (n + m - 1) / m * m
  {
    var q := (n + m - 1) / m;
    assert n + m - 1 == q * m + (n + m - 1) % m;
  }

  lemma CeilingAtLeast(n: nat, m: nat, k: nat)
    requires m >= 1 && k > 0 && (k - 1) * m < n
    ensures k <= (n + m - 1) / m
  {
    CeilingCovers(n, m);
    MultiplesApart(m, (n + m - 1) / m, k - 1);
  }

  /**
   A failing completion of the attempt in flight is answered if and only if every batch has been
   tried by then; otherwise one more attempt is made. Without room in a batch, the latter always.
   */
  lemma FailingAnswersIff(size: nat, inputs: seq<Input>, input: Input, c: Channel)
    requires WellFormed(inputs + [input])
    requires input.Complete? && !input.ok && InFlight(PhaseAfter(size, inputs, c), input.query)
    ensures var ph, st := PhaseAfter(size, inputs, c), After(size, inputs + [input]);
      var gaveUp := size >= 1 && |ph.ids| == Batches(size, ph.order);
      && Sent(st.replies, c) == (if gaveUp then [false] else [])
      && (!gaveUp ==> input.id in st.queries && st.queries[input.id].channel == c)
  {
    var ph, all := PhaseAfter(size, inputs, c), inputs + [input];
    assert all[..|inputs|] == inputs;
    RequestsProceedIndependently(size, all, c);
    AnswersAreEarned(size, inputs, c);
    if size >= 1 {
      UsedUpIff(size, ph.order, |ph.ids|);
    } else {
      WithoutBatches(ph.order, |ph.ids|);
      WithoutBatches(ph.order, |ph.ids| - 1);
    }
  }

  /** A successful completion of the attempt in flight is answered at once, and the channel is free. */
  lemma SuccessAnswers(size: nat, inputs: seq<Input>, input: Input, c: Channel)
    requires WellFormed(inputs + [input])
    requires input.Complete? && input.ok && InFlight(PhaseAfter(size, inputs, c), input.query)
    ensures var st := After(size, inputs + [input]);
      && Sent(st.replies, c) == [true]
      && forall q :: q in st.queries ==> st.queries[q].channel != c
  {
    var all := inputs + [input];
    assert all[..|inputs|] == inputs;
    RequestsProceedIndependently(size, all, c);
  }

  /** A request without providers is told so at once, and one with providers is tried first. */
  lemma AnsweredAtOnceIff(size: nat, inputs: seq<Input>, input: Input)
    requires WellFormed(inputs + [input]) && input.Resolve?
    ensures var st := After(size, inputs + [input]);
      && Sent(st.replies, input.channel) == (if input.peers == [] then [false] else [])
      && (input.peers != [] ==>
            && input.id in st.queries && st.queries[input.id].channel == input.channel
            && input.id in st.attempts && st.attempts[input.id].cid == input.cid)
  {
    var all := inputs + [input];
    assert all[..|inputs|] == inputs;
    assert all[|inputs|] == input;
    assert forall i :: 0 <= i < |inputs| ==> inputs[i] == all[i];
    UnaskedUntilResolved(size, inputs, input.channel);
    RequestsProceedIndependently(size, all, input.channel);
  }

  /** A request never takes more attempts than there are batches, and fails after exactly as many. */
  lemma FailingTakesEveryBatch(size: nat, inputs: seq<Input>, c: Channel)
    requires size >= 1
    requires !PhaseAfter(size, inputs, c).Unasked?
    ensures var ph := PhaseAfter(size, inputs, c);
      && |ph.ids| <= Batches(size, ph.order)
      && (ph.Answered? && !ph.ok ==> |ph.ids| == Batches(size, ph.order))
  {
    var ph := PhaseAfter(size, inputs, c);
    AnswersAreEarned(size, inputs, c);
    UsedUpIff(size, ph.order, |ph.ids|);
  }

  lemma WithoutBatches(order: seq<PeerId>, k: nat)
    ensures Untried(order, 0, k) == order
  {
    UntriedIs(order, 0, k);
    assert k * 0 == 0;
  }

  /** With empty batches no run ever tells a request with providers that it failed. */
  lemma NeverGivesUpWithoutBatches(inputs: seq<Input>, i: nat)
    requires WellFormed(inputs) && i < |inputs| && inputs[i].Resolve? && inputs[i].peers != []
    ensures Reply(inputs[i].channel, false) !in After(0, inputs).replies
  {
    var c := inputs[i].channel;
    var ph := PhaseAfter(0, inputs, c);
    RequestsProceedIndependently(0, inputs, c);
    SentHas(After(0, inputs).replies, c, false);
    OrderOfRequest(0, inputs, i);
    PrioritisedNonEmpty(inputs[i].peers, inputs[i].connected);
    AnswersAreEarned(0, inputs, c);
    WithoutBatches(ph.order, |ph.ids|);
  }

  /** With a positive batch size every failure shortens the fallback; with size 0 it never does. */
  lemma FallbackShrinksIff(order: seq<PeerId>, size: nat, k: nat)
    requires Untried(order, size, k) != []
    ensures size >= 1 ==> |Untried(order, size, k + 1)| < |Untried(order, size, k)|
    ensures size == 0 ==> Untried(order, size, k + 1) == Untried(order, size, k)
  {
  }

  // ---------- Priorities ----------

  /** Prioritising reorders the peers and no more. */
  lemma PrioritisedKeepsAll(peers: seq<PeerId>, connected: set<PeerId>)
    ensures multiset(Prioritised(peers, connected)) == multiset(peers)
  {
    SelectSplits(peers, connected);
  }

  lemma {:induction false} SelectKeepsOrder(peers: seq<PeerId>, connected: set<PeerId>, yes: bool, i: nat, j: nat)
    returns (k: nat, l: nat)
    requires i < j < |peers| && (peers[i] in connected) == (peers[j] in connected) == yes
    ensures var r := Select(peers, connected, yes); k < l < |r| && r[k] == peers[i] && r[l] == peers[j]
  {
    var n := |peers| - 1;
    var init := peers[..n];
    if j < n {
      k, l := SelectKeepsOrder(init, connected, yes, i, j);
    } else {
      k := SelectHas(init, connected, yes, i);
      l := |Select(init, connected, yes)|;
    }
  }

  lemma {:induction false} SelectHas(peers: seq<PeerId>, connected: set<PeerId>, yes: bool, i: nat) returns (k: nat)
    requires i < |peers| && (peers[i] in connected) == yes
    ensures var r := Select(peers, connected, yes); k < |r| && r[k] == peers[i]
  {
    var n := |peers| - 1;
    if i < n {
      k := SelectHas(peers[..n], connected, yes, i);
    } else {
      k := |Select(peers[..n], connected, yes)|;
    }
  }

  /** Among the connected, and among the others, the shuffled order decides. */
  lemma PrioritisedIsStable(peers: seq<PeerId>, connected: set<PeerId>, i: nat, j: nat) returns (k: nat, l: nat)
    requires i < j < |peers| && (peers[i] in connected <==> peers[j] in connected)
    ensures var order := Prioritised(peers, connected);
      k < l < |order| && order[k] == peers[i] && order[l] == peers[j]
  {
    k, l := SelectKeepsOrder(peers, connected, peers[i] in connected, i, j);
    if peers[i] !in connected {
      k, l := k + |Select(peers, connected, true)|, l + |Select(peers, connected, true)|;
    }
  }

  lemma PrioritisedHas(peers: seq<PeerId>, connected: set<PeerId>, p: PeerId)
    ensures p in Prioritised(peers, connected) <==> p in peers
  {
    PrioritisedKeepsAll(peers, connected);
    assert p in peers <==> p in multiset(peers);
    assert p in Prioritised(peers, connected) <==> p in multiset(Prioritised(peers, connected));
  }

  lemma {:induction false} SelectSplits(peers: seq<PeerId>, connected: set<PeerId>)
    ensures multiset(Select(peers, connected, true)) + multiset(Select(peers, connected, false)) == multiset(peers)
  {
    if peers != [] {
      var init, p := peers[..|peers| - 1], peers[|peers| - 1];
      SelectSplits(init, connected);
      assert peers == init + [p];
    }
  }

  /** No connected peer is in a later batch than an unconnected one. */
  lemma ConnectedPeersFirst(
    peers: seq<PeerId>, connected: set<PeerId>, size: nat, j: nat, k: nat, p: PeerId, q: PeerId)
    requires var order := Prioritised(peers, connected); p in Batch(order, size, j) && q in Batch(order, size, k)
    requires p in connected && q !in connected
    ensures j <= k
  {
    var order := Prioritised(peers, connected);
    BatchIs(order, size, j);
    BatchIs(order, size, k);
    var a := |Select(peers, connected, true)|;
    assert forall i :: 0 <= i < |order| ==> (order[i] in connected <==> i < a) by {
      forall i | 0 <= i < |order|
        ensures order[i] in connected <==> i < a
      {
        if i < a {
          assert order[i] in Select(peers, connected, true);
        } else {
          assert order[i] in Select(peers, connected, false);
        }
      }
    }
    MultiplesApart(size, k, j);
  }

  // ---------- The code ----------

  class ResolverService {
    const maxPeersPerQuery: nat
    var queries: map<QueryId, Query>
    var replies: seq<Reply>
    var attempts: map<QueryId, Attempt>

    function Current(): State
      reads this
    {
      State(queries, replies, attempts)
    }

    constructor (maxPeersPerQuery: nat)
      ensures Current() == IDLE && this.maxPeersPerQuery == maxPeersPerQuery
    {
      this.maxPeersPerQuery := maxPeersPerQuery;
      queries, replies, attempts := map[], [], map[];
    }

    /** The first group is as large as the limit allows, and the second is the rest. */
    method SplitPeersForQuery(peers: seq<PeerId>) returns (batch: seq<PeerId>, fallback: seq<PeerId>)
      ensures batch + fallback == peers && |batch| <= maxPeersPerQuery
      ensures fallback != [] ==> |batch| == maxPeersPerQuery
    {
      var size := if maxPeersPerQuery <= |peers| then maxPeersPerQuery else |peers|;
      batch, fallback := peers[..size], peers[size..];
    }

    static method Partition(peers: seq<PeerId>, connected: set<PeerId>) returns (yes: seq<PeerId>, no: seq<PeerId>)
      ensures yes == Select(peers, connected, true) && no == Select(peers, connected, false)
    {
      yes, no := [], [];
      for i := 0 to |peers|
        invariant yes == Select(peers[..i], connected, true) && no == Select(peers[..i], connected, false)
      {
        assert peers[..i + 1][..i] == peers[..i];
        if peers[i] in connected {
          yes := yes + [peers[i]];
        } else {
          no := no + [peers[i]];
        }
      }
      assert peers[..|peers|] == peers;
    }

    /** A step of the machine for a request. */
    method StartQuery(cid: Cid, subnetId: SubnetId, channel: Channel,
                      peers: seq<PeerId>, connected: set<PeerId>, id: QueryId)
      modifies this
      ensures Current() == Step(maxPeersPerQuery, old(Current()), Resolve(cid, subnetId, channel, peers, connected, id))
    {
      if peers == [] {
        replies := replies + [Reply(channel, false)];
      } else {
        var near, known := Partition(peers, connected);
        var batch, fallback := SplitPeersForQuery(near + known);
        SplitIsNowAndFallback(maxPeersPerQuery, near + known, batch, fallback);
        attempts := attempts[id := Attempt(cid, batch)];
        queries := queries[id := Query(cid, subnetId, fallback, channel)];
      }
    }

    /** A step of the machine for a completion; one that belongs to no query is ignored. */
    method HandleComplete(query: QueryId, ok: bool, id: QueryId)
      modifies this
      ensures Current() == Step(maxPeersPerQuery, old(Current()), Complete(query, ok, id))
    {
      if query in queries {
        var q := queries[query];
        queries := queries - {query};
        ResolveQuery(q, ok, id);
      }
    }

    /** Either the channel is answered or one more attempt is made, never both. */
    method ResolveQuery(query: Query, ok: bool, id: QueryId)
      modifies this
      ensures replies == old(replies) + (if ok || query.fallback == [] then [Reply(query.channel, ok)] else [])
      ensures queries == if ok || query.fallback == [] then old(queries)
                         else old(queries)[id := query.(fallback := Fallback(maxPeersPerQuery, query.fallback))]
      ensures attempts == if ok || query.fallback == [] then old(attempts)
                          else old(attempts)[id := Attempt(query.cid, Now(maxPeersPerQuery, query.fallback))]
    {
      if ok || query.fallback == [] {
        replies := replies + [Reply(query.channel, ok)];
      } else {
        var batch, fallback := SplitPeersForQuery(query.fallback);
        SplitIsNowAndFallback(maxPeersPerQuery, query.fallback, batch, fallback);
        attempts := attempts[id := Attempt(query.cid, batch)];
        queries := queries[id := query.(fallback := fallback)];
      }
    }
  }

  lemma SplitIsNowAndFallback(size: nat, peers: seq<PeerId>, batch: seq<PeerId>, fallback: seq<PeerId>)
    requires batch + fallback == peers && |batch| <= size
    requires fallback != [] ==> |batch| == size
    ensures batch == Now(size, peers) && fallback == Fallback(size, peers)
  {
  }
}
