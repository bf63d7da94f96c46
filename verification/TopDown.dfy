/**
 Top-down checkpointing as a protocol between a parent chain, a child chain and any number of
 agents that poll both and submit checkpoints to the child.

 Chains are append-only and have one tipset per height. The child's gateway is known by its
 contract: it executes submitted checkpoints in increasing order of epoch, and the last executed
 epoch, the applied nonce and the applied messages change together.
 */
module TopDown {
  import opened Primitives

  type Msg(==, !new)
  type Account(==, !new)
  type AgentId(==, !new)

  /** The child's gateway at one of its tipsets. */
  datatype Gateway = Gateway(initialized: bool, lastExecuted: nat, appliedNonce: nat, applied: seq<Msg>)

  datatype Checkpoint = Checkpoint(epoch: nat, msgs: seq<Msg>)

  datatype Submission = Submission(account: Account, checkpoint: Checkpoint)

  /** The heads an agent read, and the epoch it is to submit: one period after the last executed one. */
  datatype View = View(parentHead: nat, childTip: nat, epoch: nat)

  /** Where an agent is in its loop. `todo` are the accounts still to be served in this round. */
  datatype Agent =
    | Polling
    | SawParent(parentHead: nat)
    | Serving(view: View, validators: set<Account>, todo: seq<Account>)
    | CatchingUp(view: View, validators: set<Account>, account: Account, todo: seq<Account>)
    | CatchUpSawParent(view: View, validators: set<Account>, account: Account, todo: seq<Account>, parentHead: nat)
    | Stopped

  /**
   `parent[h]` are the messages for the child that the parent has committed up to height `h`, by
   nonce, and `validators[h]` the child's validators according to the parent at that height;
   `child[i]` is the gateway at the i-th tipset of the child.
   */
  datatype World = World(
    parent: seq<seq<Msg>>,
    validators: seq<set<Account>>,
    child: seq<Gateway>,
    submitted: set<Submission>,
    agents: map<AgentId, Agent>)

  datatype Params = Params(genesis: nat, period: nat, accounts: seq<Account>)

  // ---------- Steps ----------

  predicate Init(ps: Params, w: World) {
    && w.parent != [] && AppendOnly(w.parent) && |w.validators| == |w.parent|
    && |w.child| == 1 && w.child[0] == Gateway(w.child[0].initialized, ps.genesis, 0, [])
    && w.submitted == {} && w.agents == map[]
  }

  predicate AppendOnly(parent: seq<seq<Msg>>) {
    forall i, j :: 0 <= i <= j < |parent| ==> parent[i] <= parent[j]
  }

  function MessagesFrom(log: seq<Msg>, nonce: nat): seq<Msg> {
    if nonce <= |log| then log[nonce..] else []
  }

  /** The checkpoint for a view: the messages at its epoch's tipset, from the nonce at its child tipset. */
  function CheckpointFor(w: World, v: View): Checkpoint
    requires v.epoch < |w.parent| && v.childTip < |w.child|
  {
    Checkpoint(v.epoch, MessagesFrom(w.parent[v.epoch], w.child[v.childTip].appliedNonce))
  }

  function Look(ps: Params, w: World, parentHead: nat): View
    requires w.child != []
  {
    View(parentHead, |w.child| - 1, w.child[|w.child| - 1].lastExecuted + ps.period)
  }

  /** A submission may be lost before it is pushed, pushed without success, or succeed. */
  predicate Submits(w: World, account: Account, v: View, pushed: bool, w': World) {
    && v.epoch < |w.parent| && v.childTip < |w.child|
    && w' == w.(agents := w'.agents,
                submitted := w.submitted + if pushed then {Submission(account, CheckpointFor(w, v))} else {})
  }

  predicate Reads(w: World, w': World) {
    w' == w.(agents := w'.agents)
  }

  /**
   What the world does to an agent as it moves: the submission that it may make succeeds or fails,
   pushed to the chain or not, or the agent is stopped.
   */
  datatype Result = Succeeded | Failed(pushed: bool) | Interrupted

  /** An agent's next move, from `a` to `a'`. */
  predicate Moves(ps: Params, w: World, a: Agent, r: Result, a': Agent, w': World)
    requires w.parent != [] && w.child != []
  {
    match a
    case Stopped => a' == Polling && Reads(w, w')
    case Polling => a' == SawParent(|w.parent| - 1) && Reads(w, w')
    case SawParent(parentHead) =>
      && Reads(w, w')
      && var v := Look(ps, w, parentHead);
         if w.child[v.childTip].initialized && parentHead >= v.epoch
         then parentHead < |w.validators| && a' == Serving(v, w.validators[parentHead], ps.accounts)
         else a' == Polling
    case Serving(v, validators, todo) =>
      if todo == [] then a' == Polling && Reads(w, w')
      else if todo[0] !in validators then a' == Serving(v, validators, todo[1..]) && Reads(w, w')
      else
        if r.Failed? then a' == Serving(v, validators, todo[1..]) && Submits(w, todo[0], v, r.pushed, w')
        else a' == CatchingUp(v, validators, todo[0], todo[1..]) && Submits(w, todo[0], v, true, w')
    case CatchingUp(v, validators, account, todo) =>
      a' == CatchUpSawParent(v, validators, account, todo, |w.parent| - 1) && Reads(w, w')
    case CatchUpSawParent(v, validators, account, todo, parentHead) =>
      var fresher := Look(ps, w, parentHead);
      if parentHead < fresher.epoch then a' == Serving(v, validators, todo) && Reads(w, w')
      else
        if r.Failed? then a' == Serving(v, validators, todo) && Submits(w, account, fresher, r.pushed, w')
        else a' == CatchingUp(v, validators, account, todo) && Submits(w, account, fresher, true, w')
  }

  datatype Event =
    | ParentGrows
    | ChildGrows
    | ChildExecutes(submission: Submission)
    | AgentMoves(id: AgentId, result: Result)

  predicate Step(ps: Params, w: World, e: Event, w': World) {
    && w.parent != [] && w.child != []
    && Happens(ps, w, e, w')
  }

  predicate Happens(ps: Params, w: World, e: Event, w': World)
    requires w.parent != [] && w.child != []
  {
    var head := w.child[|w.child| - 1];
    match e
    case ParentGrows =>
      && |w'.parent| == |w.parent| + 1 && w.parent <= w'.parent
      && w.parent[|w.parent| - 1] <= w'.parent[|w.parent|]
      && |w'.validators| == |w.validators| + 1 && w.validators <= w'.validators
      && w' == w.(parent := w'.parent, validators := w'.validators)
    case ChildGrows =>
      exists initialized ::
        && (head.initialized ==> initialized)
        && w' == w.(child := w.child + [head.(initialized := initialized)])
    case ChildExecutes(s) =>
      var cp := s.checkpoint;
      && s in w.submitted && head.lastExecuted < cp.epoch
      && w' == w.(child := w.child + [Gateway(
           head.initialized, cp.epoch, head.appliedNonce + |cp.msgs|, head.applied + cp.msgs)])
    case AgentMoves(id, r) =>
      var a := if id in w.agents then w.agents[id] else Stopped;
      && id in w'.agents && w'.agents == w.agents[id := w'.agents[id]]
      && if r.Interrupted? then w'.agents[id] == Stopped && Reads(w, w') else Moves(ps, w, a, r, w'.agents[id], w')
  }

  // ---------- What every step keeps ----------

  /** How many messages were delivered by the time an epoch was executed. */
  function NonceAfter(ps: Params, parent: seq<seq<Msg>>, epoch: nat): nat {
    if epoch == ps.genesis || epoch >= |parent| then 0 else |parent[epoch]|
  }

  /** The one list of messages that a checkpoint for an epoch may carry. */
  function Due(ps: Params, parent: seq<seq<Msg>>, epoch: nat): seq<Msg>
    requires ps.period <= epoch < |parent|
  {
    MessagesFrom(parent[epoch], NonceAfter(ps, parent, epoch - ps.period))
  }

  /** The gateway has applied exactly what the parent had committed by the last executed epoch. */
  predicate Delivered(ps: Params, parent: seq<seq<Msg>>, g: Gateway) {
    && g.appliedNonce == |g.applied|
    && if g.lastExecuted == ps.genesis then g.applied == []
       else g.lastExecuted < |parent| && g.applied == parent[g.lastExecuted]
  }

  predicate ChildInv(ps: Params, parent: seq<seq<Msg>>, child: seq<Gateway>) {
    && child != []
    && (forall i :: 0 <= i < |child| ==> Delivered(ps, parent, child[i]) && ps.genesis <= child[i].lastExecuted)
    && forall i, j :: 0 <= i <= j < |child| ==>
         child[j].lastExecuted == child[i].lastExecuted || child[i].lastExecuted + ps.period <= child[j].lastExecuted
  }

  /** The epoch follows, by one period, one that was last executed at some tipset of the child. */
  ghost predicate Follows(ps: Params, child: seq<Gateway>, epoch: nat) {
    exists i :: 0 <= i < |child| && epoch == child[i].lastExecuted + ps.period
  }

  ghost predicate Justified(ps: Params, w: World, cp: Checkpoint) {
    && Follows(ps, w.child, cp.epoch)
    && ps.period <= cp.epoch < |w.parent|
    && cp.msgs == Due(ps, w.parent, cp.epoch)
  }

  predicate ViewInv(ps: Params, w: World, v: View) {
    && v.childTip < |w.child| && v.parentHead < |w.parent|
    && v.epoch == w.child[v.childTip].lastExecuted + ps.period
    && v.epoch <= v.parentHead
  }

  predicate AgentInv(ps: Params, w: World, a: Agent) {
    && (a.Serving? || a.CatchingUp? || a.CatchUpSawParent? ==> ViewInv(ps, w, a.view))
    && (a.SawParent? || a.CatchUpSawParent? ==> a.parentHead < |w.parent|)
  }

  ghost predicate Inv(ps: Params, w: World) {
    && w.parent != [] && AppendOnly(w.parent) && |w.validators| == |w.parent|
    && ChildInv(ps, w.parent, w.child)
    && (forall s :: s in w.submitted ==> Justified(ps, w, s.checkpoint))
    && forall id :: id in w.agents ==> AgentInv(ps, w, w.agents[id])
  }

  lemma InitInv(ps: Params, w: World)
    requires Init(ps, w)
    ensures Inv(ps, w)
  {
  }

  // ---------- Agents ----------

  lemma LookedAt(ps: Params, w: World, parentHead: nat)
    requires Inv(ps, w) && parentHead < |w.parent|
    ensures var v := Look(ps, w, parentHead); v.epoch <= parentHead ==> ViewInv(ps, w, v)
  {
  }

  /** A checkpoint built from any view, however stale, carries the messages due at its epoch. */
  lemma ViewsAreJustified(ps: Params, w: World, v: View)
    requires Inv(ps, w) && ViewInv(ps, w, v)
    ensures v.epoch < |w.parent| && Justified(ps, w, CheckpointFor(w, v))
  {
  }

  lemma InvAfterSubmits(ps: Params, w: World, account: Account, v: View, pushed: bool, w': World, id: AgentId)
    requires Inv(ps, w) && ViewInv(ps, w, v) && Submits(w, account, v, pushed, w')
    requires id in w'.agents && w'.agents == w.agents[id := w'.agents[id]]
    requires AgentInv(ps, w, w'.agents[id])
    ensures Inv(ps, w')
  {
    ViewsAreJustified(ps, w, v);
  }

  lemma InvAfterReads(ps: Params, w: World, w': World, id: AgentId)
    requires Inv(ps, w) && Reads(w, w')
    requires id in w'.agents && w'.agents == w.agents[id := w'.agents[id]]
    requires AgentInv(ps, w, w'.agents[id])
    ensures Inv(ps, w')
  {
  }

  lemma InvAfterSubmission(ps: Params, w: World, account: Account, v: View, w': World, id: AgentId)
    requires Inv(ps, w) && ViewInv(ps, w, v)
    requires Submits(w, account, v, true, w') || Submits(w, account, v, false, w')
    requires id in w'.agents && w'.agents == w.agents[id := w'.agents[id]]
    requires AgentInv(ps, w, w'.agents[id])
    ensures Inv(ps, w')
  {
    if Submits(w, account, v, true, w') {
      InvAfterSubmits(ps, w, account, v, true, w', id);
    } else {
      InvAfterSubmits(ps, w, account, v, false, w', id);
    }
  }

  /** A move either reads, or submits from a view that the invariant covers. */
  lemma MovesReadOrSubmit(ps: Params, w: World, a: Agent, r: Result, a': Agent, w': World)
    requires Inv(ps, w) && AgentInv(ps, w, a) && Moves(ps, w, a, r, a', w')
    ensures AgentInv(ps, w, a')
    ensures Reads(w, w') ||
      exists x, v :: ViewInv(ps, w, v) && (Submits(w, x, v, true, w') || Submits(w, x, v, false, w'))
  {
    if a.SawParent? || a.CatchUpSawParent? {
      LookedAt(ps, w, a.parentHead);
    }
    if a.Serving? && !Reads(w, w') {
      assert ViewInv(ps, w, a.view);
      assert Submits(w, a.todo[0], a.view, true, w') || Submits(w, a.todo[0], a.view, false, w');
    } else if a.CatchUpSawParent? && !Reads(w, w') {
      var fresher := Look(ps, w, a.parentHead);
      assert ViewInv(ps, w, fresher);
      assert Submits(w, a.account, fresher, true, w') || Submits(w, a.account, fresher, false, w');
    }
  }

  lemma InvAfterAgent(ps: Params, w: World, id: AgentId, r: Result, w': World)
    requires Inv(ps, w) && Step(ps, w, AgentMoves(id, r), w')
    ensures Inv(ps, w')
  {
    var a := if id in w.agents then w.agents[id] else Stopped;
    if !r.Interrupted? {
      MovesReadOrSubmit(ps, w, a, r, w'.agents[id], w');
    }
    if Reads(w, w') {
      InvAfterReads(ps, w, w', id);
    } else {
      var x, v :| ViewInv(ps, w, v) && (Submits(w, x, v, true, w') || Submits(w, x, v, false, w'));
      InvAfterSubmission(ps, w, x, v, w', id);
    }
  }

  // ---------- Chains ----------

  lemma InvAfterParent(ps: Params, w: World, w': World)
    requires Inv(ps, w) && Step(ps, w, ParentGrows, w')
    ensures Inv(ps, w')
  {
    var n := |w.parent|;
    assert forall i :: 0 <= i < n ==> w'.parent[i] == w.parent[i];
    forall i, j | 0 <= i <= j < n + 1
      ensures w'.parent[i] <= w'.parent[j]
    {
      if j == n && i < n {
        assert w.parent[i] <= w.parent[n - 1];
      }
    }
    forall s | s in w'.submitted
      ensures Justified(ps, w', s.checkpoint)
    {
      assert Justified(ps, w, s.checkpoint);
    }
    forall x | x in w'.agents
      ensures AgentInv(ps, w', w'.agents[x])
    {
      assert AgentInv(ps, w, w.agents[x]);
    }
  }

  /** A new child tipset keeps the invariant if its gateway is in step with the parent and the child's past. */
  lemma InvAfterTipset(ps: Params, w: World, g: Gateway, w': World)
    requires Inv(ps, w) && w' == w.(child := w.child + [g])
    requires Delivered(ps, w.parent, g)
    requires var head := w.child[|w.child| - 1];
      g.lastExecuted == head.lastExecuted || g.lastExecuted == head.lastExecuted + ps.period
    ensures Inv(ps, w')
  {
    var n := |w.child|;
    assert forall i :: 0 <= i < n ==> w'.child[i] == w.child[i];
    forall i, j | 0 <= i <= j < n + 1
      ensures w'.child[j].lastExecuted == w'.child[i].lastExecuted
           || w'.child[i].lastExecuted + ps.period <= w'.child[j].lastExecuted
    {
      if j == n && i < n {
        assert w.child[n - 1].lastExecuted == w.child[i].lastExecuted
            || w.child[i].lastExecuted + ps.period <= w.child[n - 1].lastExecuted;
      }
    }
    forall s | s in w'.submitted
      ensures Justified(ps, w', s.checkpoint)
    {
      var cp := s.checkpoint;
      assert Justified(ps, w, cp);
      var i :| 0 <= i < |w.child| && cp.epoch == w.child[i].lastExecuted + ps.period;
      assert w'.child[i] == w.child[i];
    }
    forall x | x in w'.agents
      ensures AgentInv(ps, w', w'.agents[x])
    {
      assert AgentInv(ps, w, w.agents[x]);
    }
  }

  /** Whatever is executed next is the epoch one period on, and brings the child up to that epoch. */
  lemma ExecutesNextEpoch(ps: Params, w: World, s: Submission)
    requires Inv(ps, w) && s in w.submitted && w.child[|w.child| - 1].lastExecuted < s.checkpoint.epoch
    ensures var head, cp := w.child[|w.child| - 1], s.checkpoint;
      && cp.epoch == head.lastExecuted + ps.period
      && cp.epoch < |w.parent|
      && head.applied + cp.msgs == w.parent[cp.epoch]
  {
  }

  lemma InvAfter(ps: Params, w: World, e: Event, w': World)
    requires Inv(ps, w) && Step(ps, w, e, w')
    ensures Inv(ps, w')
  {
    var head := w.child[|w.child| - 1];
    assert Delivered(ps, w.parent, head);
    match e
    case ParentGrows => InvAfterParent(ps, w, w');
    case AgentMoves(id, r) => InvAfterAgent(ps, w, id, r, w');
    case ChildGrows => InvAfterTipset(ps, w, w'.child[|w.child|], w');
    case ChildExecutes(s) =>
      ExecutesNextEpoch(ps, w, s);
      InvAfterTipset(ps, w, w'.child[|w.child|], w');
  }

  // ---------- Whole runs ----------

  ghost predicate Run(ps: Params, worlds: seq<World>, events: seq<Event>) {
    && |worlds| == |events| + 1
    && Init(ps, worlds[0])
    && forall i {:trigger events[i]} :: 0 <= i < |events| ==> Step(ps, worlds[i], events[i], worlds[i + 1])
  }

  lemma {:induction false} InvHolds(ps: Params, worlds: seq<World>, events: seq<Event>, i: nat)
    requires Run(ps, worlds, events) && i <= |events|
    ensures Inv(ps, worlds[i])
  {
    if i == 0 {
      InitInv(ps, worlds[0]);
    } else {
      InvHolds(ps, worlds, events, i - 1);
      InvAfter(ps, worlds[i - 1], events[i - 1], worlds[i]);
    }
  }

  lemma {:induction false} SubmissionsStay(ps: Params, worlds: seq<World>, events: seq<Event>, i: nat, j: nat)
    requires Run(ps, worlds, events) && i <= j <= |events|
    ensures worlds[i].submitted <= worlds[j].submitted
    ensures worlds[i].child <= worlds[j].child
  {
    if i < j {
      SubmissionsStay(ps, worlds, events, i, j - 1);
      var e := events[j - 1];
      NothingTakenBack(ps, worlds[j - 1], e, worlds[j]);
    }
  }

  lemma NothingTakenBack(ps: Params, w: World, e: Event, w': World)
    ensures Step(ps, w, e, w') ==> w.submitted <= w'.submitted && w.child <= w'.child
  {
  }

  /**
   All checkpoints ever submitted for one epoch, by any agents at any times and however stale
   their view, carry the same messages, and none is submitted before its epoch is on the parent.
   */
  lemma CheckpointsAreDeterministic(
    ps: Params, worlds: seq<World>, events: seq<Event>, i: nat, j: nat, s1: Submission, s2: Submission)
    requires Run(ps, worlds, events) && i <= |events| && j <= |events|
    requires s1 in worlds[i].submitted && s2 in worlds[j].submitted && s1.checkpoint.epoch == s2.checkpoint.epoch
    ensures s1.checkpoint == s2.checkpoint
    ensures s1.checkpoint.epoch < |worlds[i].parent|
  {
    var last := |events|;
    InvHolds(ps, worlds, events, i);
    InvHolds(ps, worlds, events, last);
    SubmissionsStay(ps, worlds, events, i, last);
    SubmissionsStay(ps, worlds, events, j, last);
    assert Justified(ps, worlds[i], s1.checkpoint);
    assert Justified(ps, worlds[last], s1.checkpoint) && Justified(ps, worlds[last], s2.checkpoint);
  }

  /**
   At every tipset of the child, the messages applied so far are exactly those the parent had
   committed by the last executed epoch: a prefix of the parent's log, in order, none lost or
   repeated, growing from tipset to tipset.
   */
  lemma DeliveryIsExact(ps: Params, worlds: seq<World>, events: seq<Event>, i: nat, k: nat, l: nat)
    requires Run(ps, worlds, events) && i <= |events| && k <= l < |worlds[i].child|
    ensures var w := worlds[i];
      && Delivered(ps, w.parent, w.child[k])
      && w.parent != [] && w.child[k].applied <= w.parent[|w.parent| - 1]
      && w.child[k].applied <= w.child[l].applied
  {
    InvHolds(ps, worlds, events, i);
    var w := worlds[i];
    assert Delivered(ps, w.parent, w.child[k]) && Delivered(ps, w.parent, w.child[l]);
    if w.child[k].lastExecuted != ps.genesis {
      assert w.parent[w.child[k].lastExecuted] <= w.parent[|w.parent| - 1];
      assert w.child[k].lastExecuted <= w.child[l].lastExecuted;
      assert w.parent[w.child[k].lastExecuted] <= w.parent[w.child[l].lastExecuted];
    }
  }

  /** Epochs are executed one period after another; none is skipped. */
  lemma EpochsAreConsecutive(ps: Params, worlds: seq<World>, events: seq<Event>, i: nat)
    requires Run(ps, worlds, events) && i < |events| && events[i].ChildExecutes?
    ensures var w := worlds[i];
      events[i].submission.checkpoint.epoch == w.child[|w.child| - 1].lastExecuted + ps.period
  {
    InvHolds(ps, worlds, events, i);
    ExecutesNextEpoch(ps, worlds[i], events[i].submission);
  }

  // ---------- Who submits ----------

  /** By the parent at the view's head the account is a validator, and by the view the child is initialised. */
  predicate MayServe(ps: Params, w: World, account: Account, v: View) {
    && ViewInv(ps, w, v) && v.parentHead < |w.validators|
    && account in ps.accounts && account in w.validators[v.parentHead]
    && w.child[v.childTip].initialized
  }

  /** The account was entitled by a view of an epoch no later than the one it submitted. */
  ghost predicate Entitled(ps: Params, w: World, s: Submission) {
    exists v :: MayServe(ps, w, s.account, v) && v.epoch <= s.checkpoint.epoch
  }

  /** The agent works through its accounts with the validators it read, and serves those only. */
  predicate AgentServes(ps: Params, w: World, a: Agent) {
    && (a.Serving? || a.CatchingUp? || a.CatchUpSawParent? ==>
          && ViewInv(ps, w, a.view) && a.view.parentHead < |w.validators|
          && a.validators == w.validators[a.view.parentHead]
          && w.child[a.view.childTip].initialized
          && forall x :: x in a.todo ==> x in ps.accounts)
    && (a.CatchingUp? || a.CatchUpSawParent? ==> MayServe(ps, w, a.account, a.view))
  }

  ghost predicate ServesInv(ps: Params, w: World) {
    && (forall s :: s in w.submitted ==> Entitled(ps, w, s))
    && forall id :: id in w.agents ==> AgentServes(ps, w, w.agents[id])
  }

  /** Chains only grow, so what was entitled stays so. */
  lemma EntitledLater(ps: Params, w: World, w': World)
    requires |w.validators| == |w.parent| <= |w'.parent| && w.validators <= w'.validators && w.child <= w'.child
    ensures forall s :: Entitled(ps, w, s) ==> Entitled(ps, w', s)
    ensures forall a :: AgentServes(ps, w, a) ==> AgentServes(ps, w', a)
  {
    forall account, v | MayServe(ps, w, account, v)
      ensures MayServe(ps, w', account, v)
    {
    }
    forall s | Entitled(ps, w, s)
      ensures Entitled(ps, w', s)
    {
      var v :| MayServe(ps, w, s.account, v) && v.epoch <= s.checkpoint.epoch;
      assert MayServe(ps, w', s.account, v);
    }
  }

  lemma MoveServes(ps: Params, w: World, a: Agent, r: Result, a': Agent, w': World)
    requires Inv(ps, w) && AgentInv(ps, w, a) && AgentServes(ps, w, a) && Moves(ps, w, a, r, a', w')
    ensures AgentServes(ps, w, a')
    ensures forall s :: s in w'.submitted && s !in w.submitted ==> Entitled(ps, w, s)
  {
    if a.SawParent? || a.CatchUpSawParent? {
      LookedAt(ps, w, a.parentHead);
    }
    if a.Serving? && a.todo != [] && a.todo[0] in a.validators {
      assert a.todo[0] in a.todo;
      assert MayServe(ps, w, a.todo[0], a.view);
    }
    if a.CatchUpSawParent? {
      assert MayServe(ps, w, a.account, a.view);
      assert a.view.epoch <= Look(ps, w, a.parentHead).epoch;
    }
  }

  lemma ServesAfterAgent(ps: Params, w: World, id: AgentId, r: Result, w': World)
    requires Inv(ps, w) && ServesInv(ps, w) && Step(ps, w, AgentMoves(id, r), w')
    ensures ServesInv(ps, w')
  {
    var a := if id in w.agents then w.agents[id] else Stopped;
    if !r.Interrupted? {
      MoveServes(ps, w, a, r, w'.agents[id], w');
    }
    MoveKeepsChains(ps, w, id, r, w');
    hide Inv, Step, Entitled, AgentServes, MayServe;
    EntitledLater(ps, w, w');
  }

  lemma MoveKeepsChains(ps: Params, w: World, id: AgentId, r: Result, w': World)
    requires Step(ps, w, AgentMoves(id, r), w')
    ensures w' == w.(agents := w'.agents, submitted := w'.submitted)
  {
  }

  lemma ServesAfterChains(ps: Params, w: World, e: Event, w': World)
    requires Inv(ps, w) && ServesInv(ps, w) && Step(ps, w, e, w') && !e.AgentMoves?
    ensures ServesInv(ps, w')
  {
    ChainsGrow(ps, w, e, w');
    hide Inv, Step, Entitled, AgentServes;
    EntitledLater(ps, w, w');
  }

  lemma ChainsGrow(ps: Params, w: World, e: Event, w': World)
    requires Inv(ps, w) && Step(ps, w, e, w') && !e.AgentMoves?
    ensures |w.validators| == |w.parent| <= |w'.parent| && w.validators <= w'.validators && w.child <= w'.child
    ensures w'.agents == w.agents && w'.submitted == w.submitted
  {
  }

  lemma {:induction false} ServesHolds(ps: Params, worlds: seq<World>, events: seq<Event>, i: nat)
    requires Run(ps, worlds, events) && i <= |events|
    ensures ServesInv(ps, worlds[i])
  {
    if i > 0 {
      hide Step;
      InvHolds(ps, worlds, events, i - 1);
      ServesHolds(ps, worlds, events, i - 1);
      var e := events[i - 1];
      if e.AgentMoves? {
        ServesAfterAgent(ps, worlds[i - 1], e.id, e.result, worlds[i]);
      } else {
        ServesAfterChains(ps, worlds[i - 1], e, worlds[i]);
      }
    }
  }

  /**
   In every run, whoever submits is one of the agent's accounts and, at the parent tipset that its
   round began with, a validator of the child, and the child was initialised by then.
   */
  lemma SubmittersAreEntitled(ps: Params, worlds: seq<World>, events: seq<Event>, i: nat, s: Submission)
    returns (v: View)
    requires Run(ps, worlds, events) && i <= |events| && s in worlds[i].submitted
    ensures v.parentHead < |worlds[i].validators| && v.childTip < |worlds[i].child|
    ensures s.account in ps.accounts && s.account in worlds[i].validators[v.parentHead]
    ensures worlds[i].child[v.childTip].initialized
    ensures worlds[i].child[v.childTip].lastExecuted + ps.period <= s.checkpoint.epoch
  {
    ServesHolds(ps, worlds, events, i);
    assert Entitled(ps, worlds[i], s);
    v :| MayServe(ps, worlds[i], s.account, v) && v.epoch <= s.checkpoint.epoch;
  }
}
