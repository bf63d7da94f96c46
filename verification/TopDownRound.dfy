/**
 What one agent submits in a round of top-down checkpointing: from when it has seen the parent's
 head until it polls again, while the parent stands still and no other agent moves.
 */
module TopDownRound {
  import opened Primitives
  import opened TopDown

  // ---------- Epochs and checkpoints ----------

  function LastExecuted(w: World): nat
    requires w.child != []
  {
    w.child[|w.child| - 1].lastExecuted
  }

  /** The child's validators by the parent's head. */
  function Validators(w: World): set<Account> {
    if 0 < |w.parent| <= |w.validators| then w.validators[|w.parent| - 1] else {}
  }

  /** The k-th epoch that is due after what is executed. */
  function EpochAfter(ps: Params, w: World, k: nat): nat
    requires w.child != []
  {
    Periods(LastExecuted(w), ps.period, k)
  }

  function LagInPeriods(ps: Params, w: World): nat
    requires w.parent != [] && w.child != [] && ps.period > 0
  {
    var head, last := |w.parent| - 1, LastExecuted(w);
    if head < last then 0 else (head - last) / ps.period
  }

  /** The one checkpoint that may be submitted for that epoch. */
  function CheckpointAt(ps: Params, w: World, k: nat): Checkpoint
    requires w.child != []
  {
    var epoch := EpochAfter(ps, w, k);
    Checkpoint(epoch, if ps.period <= epoch < |w.parent| then Due(ps, w.parent, epoch) else [])
  }

  /** The first `x` checkpoints that are due, for one account. */
  ghost function Checkpoints(ps: Params, w: World, account: Account, x: nat): set<Submission>
    requires w.child != []
  {
    if x == 0 then {} else Checkpoints(ps, w, account, x - 1) + {Submission(account, CheckpointAt(ps, w, x))}
  }

  /** One checkpoint for each of the accounts that is a validator. */
  ghost function Votes(accounts: seq<Account>, validators: set<Account>, cp: Checkpoint): set<Submission> {
    set a | a in accounts && a in validators :: Submission(a, cp)
  }

  lemma VotesMore(accounts: seq<Account>, validators: set<Account>, cp: Checkpoint, d: nat)
    requires d < |accounts|
    ensures Votes(accounts[..d + 1], validators, cp) ==
      Votes(accounts[..d], validators, cp) + if accounts[d] in validators then {Submission(accounts[d], cp)} else {}
  {
    assert accounts[..d + 1] == accounts[..d] + [accounts[d]];
  }

  lemma {:induction false} CheckpointsHave(ps: Params, w: World, account: Account, x: nat, s: Submission)
    returns (m: nat)
    requires w.child != [] && s in Checkpoints(ps, w, account, x)
    ensures 1 <= m <= x && s == Submission(account, CheckpointAt(ps, w, m))
  {
    hide CheckpointAt;
    m := x;
    if s in Checkpoints(ps, w, account, x - 1) {
      m := CheckpointsHave(ps, w, account, x - 1, s);
    }
  }

  lemma EpochInjective(ps: Params, w: World, m: nat, n: nat)
    requires w.child != [] && ps.period > 0 && EpochAfter(ps, w, m) == EpochAfter(ps, w, n)
    ensures m == n
  {
    PeriodsOrdered(LastExecuted(w), ps.period, m, n);
    PeriodsOrdered(LastExecuted(w), ps.period, n, m);
  }

  lemma {:induction false} CheckpointsCount(ps: Params, w: World, account: Account, x: nat)
    requires w.child != [] && ps.period > 0
    ensures |Checkpoints(ps, w, account, x)| == x
  {
    hide EpochAfter;
    if x > 0 {
      CheckpointsCount(ps, w, account, x - 1);
      var last := Submission(account, CheckpointAt(ps, w, x));
      if last in Checkpoints(ps, w, account, x - 1) {
        var m := CheckpointsHave(ps, w, account, x - 1, last);
        EpochInjective(ps, w, m, x);
        assert false;
      }
    }
  }

  // ---------- Undisturbed rounds ----------

  /** All that was submitted is executed. */
  predicate AllExecuted(w: World)
    requires w.child != []
  {
    forall s :: s in w.submitted ==> s.checkpoint.epoch <= LastExecuted(w)
  }

  /** The agent has not finished its round, and goes on after a submission only once it is executed. */
  predicate Smooth(w: World, a: Agent)
    requires w.child != []
  {
    !a.Polling? && (a.CatchingUp? ==> AllExecuted(w))
  }

  /** At `i` the agent has an up-to-date view of the parent's head and goes on. */
  predicate Looks(worlds: seq<World>, events: seq<Event>, i: nat, id: AgentId) {
    && i < |events| < |worlds| && events[i] == AgentMoves(id, Succeeded)
    && worlds[i].parent != []
    && id in worlds[i].agents && worlds[i].agents[id] == SawParent(|worlds[i].parent| - 1)
    && id in worlds[i + 1].agents
  }

  /** And it finds something to do. */
  predicate Begins(worlds: seq<World>, events: seq<Event>, i: nat, id: AgentId) {
    Looks(worlds, events, i, id) && worlds[i + 1].agents[id].Serving?
  }

  /** Nothing but this agent's smooth and successful moves and new tipsets of the child happen until `j`. */
  predicate Undisturbed(ps: Params, worlds: seq<World>, events: seq<Event>, i: nat, j: nat, id: AgentId) {
    && i < j <= |events| < |worlds|
    && forall l {:trigger events[l]} :: i < l < j ==>
         || events[l].ChildGrows? || events[l].ChildExecutes?
         || (events[l] == AgentMoves(id, Succeeded) && worlds[l].child != []
             && id in worlds[l].agents && id in worlds[l + 1].agents
             && Smooth(worlds[l], worlds[l].agents[id]))
  }

  /** The f-th account is the first that is a validator. */
  predicate FirstValidator(ps: Params, validators: set<Account>, f: nat) {
    && f < |ps.accounts| && ps.accounts[f] in validators
    && forall i :: 0 <= i < f ==> ps.accounts[i] !in validators
  }

  // ---------- What holds during a round ----------

  /**
   The round so far: `d` accounts were dealt with, `x` checkpoints submitted for the first
   validator, and `e` epochs executed.
   */
  datatype Round = Round(ps: Params, start: World, validators: set<Account>, f: nat, d: nat, x: nat, e: nat) {
    ghost predicate Valid() {
      && ps.period > 0 && Inv(ps, start) && FirstValidator(ps, validators, f)
      && d <= |ps.accounts| && (x == 0 <==> d <= f) && e <= (if x == 0 then 1 else x)
    }

    function Epoch(k: nat): nat
      requires start.child != []
    {
      EpochAfter(ps, start, k)
    }

    /** Everything submitted is executed, and nothing more is due. */
    predicate Finished()
      requires start.child != []
    {
      e == x && |start.parent| <= Epoch(x + 1)
    }

    ghost function Submitted(): set<Submission>
      requires start.child != [] && f < |ps.accounts| && d <= |ps.accounts|
    {
      Checkpoints(ps, start, ps.accounts[f], x) + Votes(ps.accounts[..d], validators, CheckpointAt(ps, start, 1))
    }

    ghost predicate Chains(w: World)
      requires start.child != [] && f < |ps.accounts| && d <= |ps.accounts|
    {
      && Inv(ps, w) && w.parent == start.parent && start.child <= w.child
      && w.submitted == start.submitted + Submitted()
      && LastExecuted(w) == Epoch(e)
    }

    predicate At(a: Agent)
      requires start.parent != [] && start.child != [] && f < |ps.accounts| && d <= |ps.accounts|
    {
      match a
      case Serving(v, vs, todo) =>
        && v == Look(ps, start, |start.parent| - 1) && vs == validators && todo == ps.accounts[d..]
        && (x > 0 ==> Finished())
      case CatchingUp(v, vs, account, todo) =>
        && v == Look(ps, start, |start.parent| - 1) && vs == validators && todo == ps.accounts[d..]
        && x > 0 && (account == ps.accounts[f] || Finished())
      case CatchUpSawParent(v, vs, account, todo, parentHead) =>
        && v == Look(ps, start, |start.parent| - 1) && vs == validators && todo == ps.accounts[d..]
        && x > 0 && (account == ps.accounts[f] || Finished())
        && parentHead == |start.parent| - 1 && e == x
      case Polling => d == |ps.accounts| && Finished()
      case _ => false
    }

    ghost predicate Holds(w: World, a: Agent) {
      Valid() && Chains(w) && At(a)
    }
  }

  /** A checkpoint built from a view of the k-th epoch is the one for that epoch. */
  lemma BuildsCheckpoint(round: Round, w: World, v: View, k: nat)
    requires round.Valid() && Inv(round.ps, w) && w.parent == round.start.parent
    requires ViewInv(round.ps, w, v) && v.epoch == round.Epoch(k)
    ensures v.epoch < |w.parent| && CheckpointFor(w, v) == CheckpointAt(round.ps, round.start, k)
  {
    ViewsAreJustified(round.ps, w, v);
  }

  /** The round's own view stays good for the first epoch. */
  lemma FirstView(round: Round, w: World)
    requires round.Valid() && Inv(round.ps, w) && w.parent == round.start.parent && round.start.child <= w.child
    requires var v := Look(round.ps, round.start, |round.start.parent| - 1); v.epoch <= v.parentHead
    ensures var v := Look(round.ps, round.start, |round.start.parent| - 1);
      v.epoch == round.Epoch(1) && ViewInv(round.ps, w, v)
  {
    var tip := |round.start.child| - 1;
    assert w.child[tip] == round.start.child[tip];
    assert Periods(LastExecuted(round.start), round.ps.period, 0) == LastExecuted(round.start);
  }

  /** The next epoch to execute is the next of the round. */
  lemma NextOfRound(round: Round, w: World)
    requires round.Valid() && round.Chains(w)
    ensures LastExecuted(w) + round.ps.period == round.Epoch(round.e + 1) == EpochAfter(round.ps, w, 1)
  {
    assert Periods(LastExecuted(w), round.ps.period, 0) == LastExecuted(w);
    assert Periods(LastExecuted(w), round.ps.period, 1) == LastExecuted(w) + round.ps.period;
  }

  /** Nothing was submitted beyond the epoch after those executed at the start, except by the round itself. */
  lemma NothingBeyond(round: Round, s: Submission, k: nat)
    requires round.Valid() && s in round.start.submitted + round.Submitted() && s.checkpoint.epoch == round.Epoch(k)
    ensures k <= (if round.x == 0 then 1 else round.x)
  {
    var ps, start := round.ps, round.start;
    if s in start.submitted {
      assert Justified(ps, start, s.checkpoint);
      var i :| 0 <= i < |start.child| && s.checkpoint.epoch == start.child[i].lastExecuted + ps.period;
      assert start.child[i].lastExecuted <= LastExecuted(start);
      assert Periods(LastExecuted(start), ps.period, 0) == LastExecuted(start);
      assert round.Epoch(1) == LastExecuted(start) + ps.period;
      PeriodsOrdered(LastExecuted(start), ps.period, 1, k);
    } else if s in Checkpoints(ps, start, ps.accounts[round.f], round.x) {
      var m := CheckpointsHave(ps, start, ps.accounts[round.f], round.x, s);
      EpochInjective(ps, start, k, m);
    } else {
      EpochInjective(ps, start, k, 1);
    }
  }

  lemma AfterChildExecutes(round: Round, w: World, s: Submission, w': World, a: Agent)
    requires round.Holds(w, a) && Step(round.ps, w, ChildExecutes(s), w')
    ensures round.(e := round.e + 1).Holds(w', a)
  {
    hide EpochAfter, Checkpoints, Votes, Inv;
    InvAfter(round.ps, w, ChildExecutes(s), w');
    ExecutionIsNext(round, w, s, w');
    NothingBeyond(round, s, round.e + 1);
  }

  lemma ExecutionIsNext(round: Round, w: World, s: Submission, w': World)
    requires round.Valid() && round.Chains(w) && Step(round.ps, w, ChildExecutes(s), w')
    ensures s in w.submitted && s.checkpoint.epoch == round.Epoch(round.e + 1) && LastExecuted(w') == s.checkpoint.epoch
    ensures w'.parent == w.parent && w.child <= w'.child && w'.submitted == w.submitted && w'.agents == w.agents
  {
    hide Inv, Checkpoints, Votes, CheckpointAt, EpochAfter, Step;
    ExecutionAppends(round.ps, w, s, w');
    ExecutesNextEpoch(round.ps, w, s);
    NextOfRound(round, w);
  }

  lemma ExecutionAppends(ps: Params, w: World, s: Submission, w': World)
    requires Step(ps, w, ChildExecutes(s), w')
    ensures w.child != [] && s in w.submitted && LastExecuted(w) < s.checkpoint.epoch
    ensures w'.child != [] && LastExecuted(w') == s.checkpoint.epoch
    ensures w'.parent == w.parent && w.child <= w'.child && w'.submitted == w.submitted && w'.agents == w.agents
  {
  }

  lemma AfterChildGrows(round: Round, w: World, w': World, a: Agent)
    requires round.Holds(w, a) && Step(round.ps, w, ChildGrows, w')
    ensures round.Holds(w', a)
  {
    hide EpochAfter, Checkpoints, Votes, Inv;
    InvAfter(round.ps, w, ChildGrows, w');
  }

  // ---------- Moves of the agent ----------

  lemma AfterSkipping(round: Round, w: World, id: AgentId, w': World) returns (next: Round)
    requires id in w.agents && round.Holds(w, w.agents[id]) && Step(round.ps, w, AgentMoves(id, Succeeded), w')
    requires Smooth(w, w.agents[id])
    requires var a := w.agents[id]; a.Serving? && a.todo != [] && a.todo[0] !in a.validators
    ensures next == round.(d := next.d, x := next.x) && next.Holds(w', w'.agents[id])
  {
    hide EpochAfter, Checkpoints, Votes, Inv, CheckpointAt;
    InvAfterAgent(round.ps, w, id, Succeeded, w');
    next := round.(d := round.d + 1);
    RestOf(round.ps.accounts, round.d);
    VotesMore(round.ps.accounts, round.validators, CheckpointAt(round.ps, round.start, 1), round.d);
  }

  /** What serving a validator submits. */
  lemma ServingSubmits(round: Round, w: World, id: AgentId, w': World)
    requires id in w.agents && round.Holds(w, w.agents[id]) && Step(round.ps, w, AgentMoves(id, Succeeded), w')
    requires Smooth(w, w.agents[id])
    requires var a := w.agents[id]; a.Serving? && a.todo != [] && a.todo[0] in a.validators
    ensures var a := w.agents[id];
      && w'.agents[id] == CatchingUp(a.view, a.validators, a.todo[0], a.todo[1..])
      && w'.submitted == w.submitted + {Submission(a.todo[0], CheckpointAt(round.ps, round.start, 1))}
      && w'.parent == w.parent && w'.child == w.child
  {
    hide Checkpoints, Votes, CheckpointAt;
    var a := w.agents[id];
    assert AgentInv(round.ps, w, a);
    FirstView(round, w);
    BuildsCheckpoint(round, w, a.view, 1);
  }

  lemma AfterFirstVote(round: Round, w: World, id: AgentId, w': World) returns (next: Round)
    requires id in w.agents && round.Holds(w, w.agents[id]) && Step(round.ps, w, AgentMoves(id, Succeeded), w')
    requires Smooth(w, w.agents[id])
    requires var a := w.agents[id]; a.Serving? && a.todo != [] && a.todo[0] in a.validators && round.x == 0
    ensures next == round.(d := next.d, x := next.x) && next.Holds(w', w'.agents[id])
  {
    hide EpochAfter, Votes, Inv, CheckpointAt, Step, Smooth;
    InvAfterAgent(round.ps, w, id, Succeeded, w');
    ServingSubmits(round, w, id, w');
    RestOf(round.ps.accounts, round.d);
    assert round.d == round.f;
    next := round.(d := round.d + 1, x := 1);
    var account, cp := round.ps.accounts[round.f], CheckpointAt(round.ps, round.start, 1);
    assert Checkpoints(round.ps, round.start, account, 0) == {};
    assert Checkpoints(round.ps, round.start, account, 1) == {Submission(account, cp)};
    VotesMore(round.ps.accounts, round.validators, cp, round.d);
  }

  lemma AfterFurtherVote(round: Round, w: World, id: AgentId, w': World) returns (next: Round)
    requires id in w.agents && round.Holds(w, w.agents[id]) && Step(round.ps, w, AgentMoves(id, Succeeded), w')
    requires Smooth(w, w.agents[id])
    requires var a := w.agents[id]; a.Serving? && a.todo != [] && a.todo[0] in a.validators && round.x > 0
    ensures next == round.(d := next.d, x := next.x) && next.Holds(w', w'.agents[id])
  {
    hide EpochAfter, Checkpoints, Votes, Inv, CheckpointAt, Step, Smooth;
    InvAfterAgent(round.ps, w, id, Succeeded, w');
    ServingSubmits(round, w, id, w');
    next := round.(d := round.d + 1);
    RestOf(round.ps.accounts, round.d);
    VotesMore(round.ps.accounts, round.validators, CheckpointAt(round.ps, round.start, 1), round.d);
  }

  lemma AfterLastAccount(round: Round, w: World, id: AgentId, w': World)
    requires id in w.agents && round.Holds(w, w.agents[id]) && Step(round.ps, w, AgentMoves(id, Succeeded), w')
    requires Smooth(w, w.agents[id])
    requires var a := w.agents[id]; a.Serving? && a.todo == []
    ensures round.Holds(w', w'.agents[id])
  {
    hide EpochAfter, Checkpoints, Votes, Inv, CheckpointAt;
    InvAfterAgent(round.ps, w, id, Succeeded, w');
  }

  lemma LookingReads(ps: Params, w: World, id: AgentId, w': World)
    requires id in w.agents && w.agents[id].CatchingUp? && Step(ps, w, AgentMoves(id, Succeeded), w')
    ensures w' == w.(agents := w'.agents) && w.parent != []
    ensures var a := w.agents[id];
      w'.agents[id] == CatchUpSawParent(a.view, a.validators, a.account, a.todo, |w.parent| - 1)
  {
  }

  /** Once all that was submitted is executed, the round has executed as much as it has submitted. */
  lemma ExecutedAll(round: Round, w: World)
    requires round.Valid() && round.Chains(w) && round.x > 0 && AllExecuted(w)
    ensures round.e == round.x
  {
    hide Inv, Votes;
    WithinParent(round.ps, round.start);
    var last := Submission(round.ps.accounts[round.f], CheckpointAt(round.ps, round.start, round.x));
    assert last in Checkpoints(round.ps, round.start, round.ps.accounts[round.f], round.x);
    assert last in w.submitted;
    PeriodsOrdered(LastExecuted(round.start), round.ps.period, round.e, round.x);
  }

  lemma AfterLooking(round: Round, w: World, id: AgentId, w': World)
    requires id in w.agents && round.Holds(w, w.agents[id]) && Step(round.ps, w, AgentMoves(id, Succeeded), w')
    requires Smooth(w, w.agents[id])
    requires w.agents[id].CatchingUp?
    ensures round.Holds(w', w'.agents[id])
  {
    hide EpochAfter, Checkpoints, Votes, Inv, CheckpointAt, Step;
    InvAfterAgent(round.ps, w, id, Succeeded, w');
    LookingReads(round.ps, w, id, w');
    ExecutedAll(round, w);
  }

  /** What catching up submits, if anything. */
  lemma CatchingUpSubmits(round: Round, w: World, id: AgentId, w': World)
    requires id in w.agents && round.Holds(w, w.agents[id]) && Step(round.ps, w, AgentMoves(id, Succeeded), w')
    requires Smooth(w, w.agents[id])
    requires w.agents[id].CatchUpSawParent?
    ensures var a := w.agents[id];
      && w'.parent == w.parent && w'.child == w.child
      && if |w.parent| <= round.Epoch(round.x + 1)
         then w'.submitted == w.submitted && w'.agents[id] == Serving(a.view, a.validators, a.todo)
         else
           && w'.agents[id] == CatchingUp(a.view, a.validators, a.account, a.todo)
           && w'.submitted == w.submitted + {Submission(a.account, CheckpointAt(round.ps, round.start, round.x + 1))}
  {
    hide Inv, Checkpoints, Votes, CheckpointAt, EpochAfter;
    var a := w.agents[id];
    WithinParent(round.ps, w);
    NextOfRound(round, w);
    if round.Epoch(round.x + 1) < |w.parent| {
      var fresher := Look(round.ps, w, a.parentHead);
      LookedAt(round.ps, w, a.parentHead);
      BuildsCheckpoint(round, w, fresher, round.x + 1);
    }
  }

  lemma AfterCatchingUp(round: Round, w: World, id: AgentId, w': World) returns (next: Round)
    requires id in w.agents && round.Holds(w, w.agents[id]) && Step(round.ps, w, AgentMoves(id, Succeeded), w')
    requires Smooth(w, w.agents[id])
    requires w.agents[id].CatchUpSawParent?
    ensures next == round.(d := next.d, x := next.x) && next.Holds(w', w'.agents[id])
  {
    hide EpochAfter, Votes, Inv, CheckpointAt, Step, Smooth;
    InvAfterAgent(round.ps, w, id, Succeeded, w');
    CatchingUpSubmits(round, w, id, w');
    next := if |w.parent| <= round.Epoch(round.x + 1) then round else round.(x := round.x + 1);
  }

  lemma AfterMove(round: Round, w: World, id: AgentId, w': World) returns (next: Round)
    requires id in w.agents && round.Holds(w, w.agents[id]) && Step(round.ps, w, AgentMoves(id, Succeeded), w')
    requires Smooth(w, w.agents[id])
    ensures next == round.(d := next.d, x := next.x) && next.Holds(w', w'.agents[id])
  {
    hide Step, Round.Chains;
    var a := w.agents[id];
    next := round;
    if a.CatchUpSawParent? {
      next := AfterCatchingUp(round, w, id, w');
    } else if a.CatchingUp? {
      AfterLooking(round, w, id, w');
    } else if a.todo == [] {
      AfterLastAccount(round, w, id, w');
    } else if a.todo[0] !in a.validators {
      next := AfterSkipping(round, w, id, w');
    } else if round.x == 0 {
      next := AfterFirstVote(round, w, id, w');
    } else {
      next := AfterFurtherVote(round, w, id, w');
    }
  }

  // ---------- Whole rounds ----------

  lemma LagIsPositiveIff(ps: Params, w: World)
    requires w.parent != [] && w.child != [] && ps.period > 0
    ensures LagInPeriods(ps, w) > 0 <==> LastExecuted(w) + ps.period < |w.parent|
  {
    var head, last := |w.parent| - 1, LastExecuted(w);
    if last <= head {
      var lag := head - last;
      assert lag == lag / ps.period * ps.period + lag % ps.period;
      MultiplesApart(ps.period, 0, lag / ps.period);
    }
  }

  /** With an up-to-date view, a round begins exactly if the child is initialised and lags by a period or more. */
  lemma RoundBeginsIff(ps: Params, worlds: seq<World>, events: seq<Event>, i: nat, id: AgentId)
    requires Run(ps, worlds, events) && ps.period > 0 && Looks(worlds, events, i, id)
    ensures worlds[i].child != [] && worlds[i + 1].submitted == worlds[i].submitted
    ensures Begins(worlds, events, i, id) <==>
      worlds[i].child[|worlds[i].child| - 1].initialized && LagInPeriods(ps, worlds[i]) > 0
    ensures !Begins(worlds, events, i, id) ==> worlds[i + 1].agents[id].Polling?
  {
    InvHolds(ps, worlds, events, i);
    assert Step(ps, worlds[i], events[i], worlds[i + 1]);
    LagIsPositiveIff(ps, worlds[i]);
  }

  lemma CheckpointsNone(ps: Params, w: World, account: Account)
    requires w.child != []
    ensures Checkpoints(ps, w, account, 0) == {}
  {
  }

  lemma BeginsServing(ps: Params, w: World, id: AgentId, w': World)
    requires Step(ps, w, AgentMoves(id, Succeeded), w') && id in w.agents && w'.agents[id].Serving?
    requires w.agents[id] == SawParent(|w.parent| - 1)
    ensures |w.parent| - 1 < |w.validators| && w' == w.(agents := w'.agents)
    ensures w'.agents[id] == Serving(Look(ps, w, |w.parent| - 1), Validators(w), ps.accounts)
  {
  }

  lemma RoundStarts(ps: Params, worlds: seq<World>, events: seq<Event>, i: nat, id: AgentId, f: nat)
    returns (round: Round)
    requires Run(ps, worlds, events) && ps.period > 0 && Begins(worlds, events, i, id)
    requires FirstValidator(ps, Validators(worlds[i]), f)
    ensures round == Round(ps, worlds[i], Validators(worlds[i]), f, 0, 0, 0)
    ensures round.Holds(worlds[i + 1], worlds[i + 1].agents[id])
  {
    hide Inv, Checkpoints, CheckpointAt;
    var w, w' := worlds[i], worlds[i + 1];
    InvHolds(ps, worlds, events, i);
    InvHolds(ps, worlds, events, i + 1);
    WithinParent(ps, w);
    WithinParent(ps, w');
    BeginsServing(ps, w, id, w');
    assert Checkpoints(ps, w, ps.accounts[f], 0) == {} by {
      CheckpointsNone(ps, w, ps.accounts[f]);
    }
    round := Round(ps, w, Validators(w), f, 0, 0, 0);
    assert Periods(LastExecuted(w), ps.period, 0) == LastExecuted(w);
    assert Votes(ps.accounts[..0], round.validators, CheckpointAt(ps, w, 1)) == {};
    assert ps.accounts[0..] == ps.accounts;
  }

  lemma ChildMovesNobody(ps: Params, w: World, e: Event, w': World)
    requires Step(ps, w, e, w') && (e.ChildGrows? || e.ChildExecutes?)
    ensures w'.agents == w.agents && w'.submitted == w.submitted
  {
  }

  lemma {:induction false} RoundGoesOn(
    ps: Params, worlds: seq<World>, events: seq<Event>, i: nat, j: nat, id: AgentId, f: nat) returns (round: Round)
    requires Run(ps, worlds, events) && ps.period > 0 && Begins(worlds, events, i, id)
    requires FirstValidator(ps, Validators(worlds[i]), f)
    requires Undisturbed(ps, worlds, events, i, j, id)
    ensures round == Round(ps, worlds[i], Validators(worlds[i]), f, round.d, round.x, round.e)
    ensures id in worlds[j].agents && round.Holds(worlds[j], worlds[j].agents[id])
    decreases j
  {
    hide Step, Round.Holds, Smooth;
    if j == i + 1 {
      round := RoundStarts(ps, worlds, events, i, id, f);
    } else {
      var e := events[j - 1];
      round := RoundGoesOn(ps, worlds, events, i, j - 1, id, f);
      if e.AgentMoves? {
        round := AfterMove(round, worlds[j - 1], id, worlds[j]);
      } else {
        ChildMovesNobody(ps, worlds[j - 1], e, worlds[j]);
        if e.ChildExecutes? {
          AfterChildExecutes(round, worlds[j - 1], e.submission, worlds[j], worlds[j - 1].agents[id]);
          round := round.(e := round.e + 1);
        } else {
          AfterChildGrows(round, worlds[j - 1], worlds[j], worlds[j - 1].agents[id]);
        }
      }
    }
  }

  lemma WithinParent(ps: Params, w: World)
    requires Inv(ps, w)
    ensures w.parent != [] && w.child != [] && |w.validators| == |w.parent|
    ensures ps.genesis <= LastExecuted(w) && (LastExecuted(w) == ps.genesis || LastExecuted(w) < |w.parent|)
  {
    assert Delivered(ps, w.parent, w.child[|w.child| - 1]);
  }

  lemma LagIs(round: Round, w: World)
    requires round.Valid() && round.Chains(w) && round.x > 0 && round.Finished()
    ensures round.x == LagInPeriods(round.ps, round.start)
  {
    hide Inv, Checkpoints, Votes;
    var ps, start := round.ps, round.start;
    WithinParent(ps, w);
    WithinParent(ps, start);
    PeriodsOrdered(LastExecuted(start), ps.period, 0, round.x);
    assert Periods(LastExecuted(start), ps.period, 0) == LastExecuted(start);
    PeriodsThatFit(|start.parent| - 1, LastExecuted(start), ps.period, round.x);
  }

  /**
   In an undisturbed round, in which each submission is executed before the agent looks again, the
   agent submits exactly the checkpoints that were lagging for its first validator, as many as
   there were whole periods of lag, and the first of them for each further validator; and the
   child gets to the last of them.
   */
  lemma RoundSubmits(ps: Params, worlds: seq<World>, events: seq<Event>, i: nat, j: nat, id: AgentId, f: nat)
    requires Run(ps, worlds, events) && ps.period > 0 && Begins(worlds, events, i, id)
    requires FirstValidator(ps, Validators(worlds[i]), f)
    requires Undisturbed(ps, worlds, events, i, j, id) && id in worlds[j].agents && worlds[j].agents[id].Polling?
    ensures worlds[i].child != [] && worlds[j].child != []
    ensures var w, validators, lag := worlds[i], Validators(worlds[i]), LagInPeriods(ps, worlds[i]);
      && worlds[j].submitted == w.submitted +
           (Checkpoints(ps, w, ps.accounts[f], lag) + Votes(ps.accounts, validators, CheckpointAt(ps, w, 1)))
      && |Checkpoints(ps, w, ps.accounts[f], lag)| == lag
      && LastExecuted(worlds[j]) == LastExecuted(w) + lag * ps.period
  {
    hide Step, Checkpoints, Votes, Inv, CheckpointAt;
    var round := RoundGoesOn(ps, worlds, events, i, j, id, f);
    InvHolds(ps, worlds, events, i);
    WithinParent(ps, worlds[i]);
    InvHolds(ps, worlds, events, j);
    WithinParent(ps, worlds[j]);
    LagIs(round, worlds[j]);
    CheckpointsCount(ps, worlds[i], ps.accounts[f], round.x);
    PeriodsIs(LastExecuted(worlds[i]), ps.period, round.x);
    assert ps.accounts[..|ps.accounts|] == ps.accounts;
  }

  // ---------- Rounds without a validator ----------

  /** None of the accounts still to be served is a validator, and none is being served. */
  predicate Idle(a: Agent) {
    a.Polling? || (a.Serving? && forall x :: x in a.todo ==> x !in a.validators)
  }

  lemma IdleAfterMove(ps: Params, w: World, id: AgentId, w': World)
    requires id in w.agents && Idle(w.agents[id]) && Step(ps, w, AgentMoves(id, Succeeded), w')
    requires Smooth(w, w.agents[id])
    ensures w'.submitted == w.submitted && w'.child == w.child && Idle(w'.agents[id])
  {
  }

  lemma NothingToExecute(ps: Params, w: World, e: Event, w': World)
    requires Step(ps, w, e, w') && !e.AgentMoves?
    ensures w.child != [] && w'.child != []
    ensures AllExecuted(w) ==> LastExecuted(w') == LastExecuted(w)
  {
  }

  lemma {:induction false} IdleGoesOn(ps: Params, worlds: seq<World>, events: seq<Event>, i: nat, j: nat, id: AgentId)
    requires Run(ps, worlds, events) && Begins(worlds, events, i, id)
    requires forall x :: x in ps.accounts ==> x !in Validators(worlds[i])
    requires Undisturbed(ps, worlds, events, i, j, id)
    ensures id in worlds[j].agents && Idle(worlds[j].agents[id]) && worlds[j].submitted == worlds[i].submitted
    ensures worlds[i].child != [] && worlds[j].child != []
    ensures AllExecuted(worlds[i]) ==> LastExecuted(worlds[j]) == LastExecuted(worlds[i])
    decreases j
  {
    if j == i + 1 {
      assert Step(ps, worlds[i], events[i], worlds[i + 1]);
    } else {
      var e := events[j - 1];
      IdleGoesOn(ps, worlds, events, i, j - 1, id);
      hide Step, Smooth, Idle;
      if e.AgentMoves? {
        IdleAfterMove(ps, worlds[j - 1], id, worlds[j]);
      } else {
        ChildMovesNobody(ps, worlds[j - 1], e, worlds[j]);
        NothingToExecute(ps, worlds[j - 1], e, worlds[j]);
      }
    }
  }

  /** An undisturbed round submits nothing at all if none of the agent's accounts is a validator. */
  lemma NothingSubmittedWithoutValidators(
    ps: Params, worlds: seq<World>, events: seq<Event>, i: nat, j: nat, id: AgentId)
    requires Run(ps, worlds, events) && Begins(worlds, events, i, id)
    requires forall x :: x in ps.accounts ==> x !in Validators(worlds[i])
    requires Undisturbed(ps, worlds, events, i, j, id)
    ensures worlds[j].submitted == worlds[i].submitted
    ensures worlds[i].child != [] && worlds[j].child != []
    ensures AllExecuted(worlds[i]) ==> LastExecuted(worlds[j]) == LastExecuted(worlds[i])
  {
    IdleGoesOn(ps, worlds, events, i, j, id);
  }

  // ---------- Rounds with failures ----------

  /** The account has submitted for the epoch. */
  ghost predicate Voted(w: World, account: Account, epoch: nat) {
    exists s :: s in w.submitted && s.account == account && s.checkpoint.epoch == epoch
  }

  /** Until `j`, the agent is not stopped, has not finished its round, and whatever it submits is pushed. */
  predicate Attended(worlds: seq<World>, events: seq<Event>, i: nat, j: nat, id: AgentId) {
    && i < j <= |events| < |worlds|
    && forall l {:trigger events[l]} :: i < l < j && events[l].AgentMoves? && events[l].id == id ==>
         && !events[l].result.Interrupted? && (events[l].result.Failed? ==> events[l].result.pushed)
         && id in worlds[l].agents && !worlds[l].agents[id].Polling?
  }

  /** Of a round's accounts, `d` have had their turn, and the validators among them have voted. */
  ghost predicate HadTurn(ps: Params, w: World, a: Agent, epoch: nat, validators: set<Account>, d: nat) {
    && d <= |ps.accounts|
    && (a.Serving? || a.CatchingUp? || a.CatchUpSawParent? ==>
          a.view.epoch == epoch && a.validators == validators && a.todo == ps.accounts[d..])
    && (a.Serving? || a.CatchingUp? || a.CatchUpSawParent? || (a.Polling? && d == |ps.accounts|))
    && forall k :: 0 <= k < d && ps.accounts[k] in validators ==> Voted(w, ps.accounts[k], epoch)
  }

  lemma TurnAfterMove(ps: Params, w: World, id: AgentId, r: Result, w': World,
                      epoch: nat, validators: set<Account>, d: nat) returns (d': nat)
    requires Step(ps, w, AgentMoves(id, r), w') && !r.Interrupted? && (r.Failed? ==> r.pushed)
    requires id in w.agents && !w.agents[id].Polling? && HadTurn(ps, w, w.agents[id], epoch, validators, d)
    ensures id in w'.agents && HadTurn(ps, w', w'.agents[id], epoch, validators, d')
  {
    var a := w.agents[id];
    d' := d;
    VotesStay(ps, w, AgentMoves(id, r), w');
    if a.Serving? && a.todo != [] {
      RestOf(ps.accounts, d);
      d' := d + 1;
      if a.todo[0] in validators {
        assert Submission(a.todo[0], CheckpointFor(w, a.view)) in w'.submitted;
      }
    }
  }

  lemma VotesStay(ps: Params, w: World, e: Event, w': World)
    requires Step(ps, w, e, w')
    ensures forall x, epoch :: Voted(w, x, epoch) ==> Voted(w', x, epoch)
  {
    forall x, epoch | Voted(w, x, epoch)
      ensures Voted(w', x, epoch)
    {
      var s :| s in w.submitted && s.account == x && s.checkpoint.epoch == epoch;
      assert s in w'.submitted;
    }
  }

  lemma OthersUnmoved(ps: Params, w: World, e: Event, w': World, id: AgentId)
    requires Step(ps, w, e, w') && id in w.agents && !(e.AgentMoves? && e.id == id)
    ensures id in w'.agents && w'.agents[id] == w.agents[id]
  {
  }

  lemma {:induction false} TurnsGoOn(ps: Params, worlds: seq<World>, events: seq<Event>, i: nat, j: nat, id: AgentId)
    returns (d: nat)
    requires Run(ps, worlds, events) && Begins(worlds, events, i, id) && Attended(worlds, events, i, j, id)
    ensures id in worlds[j].agents
    ensures HadTurn(ps, worlds[j], worlds[j].agents[id], worlds[i + 1].agents[id].view.epoch, Validators(worlds[i]), d)
    decreases j
  {
    hide Step, HadTurn, Voted;
    if j == i + 1 {
      d := 0;
      TurnsBegin(ps, worlds, events, i, id);
    } else {
      var e, w, w' := events[j - 1], worlds[j - 1], worlds[j];
      d := TurnsGoOn(ps, worlds, events, i, j - 1, id);
      var epoch := worlds[i + 1].agents[id].view.epoch;
      if e.AgentMoves? && e.id == id {
        d := TurnAfterMove(ps, w, id, e.result, w', epoch, Validators(worlds[i]), d);
      } else {
        OthersUnmoved(ps, w, e, w', id);
        VotesStay(ps, w, e, w');
        TurnUnmoved(ps, w, w', w.agents[id], epoch, Validators(worlds[i]), d);
      }
    }
  }

  lemma TurnUnmoved(ps: Params, w: World, w': World, a: Agent, epoch: nat, validators: set<Account>, d: nat)
    requires HadTurn(ps, w, a, epoch, validators, d)
    requires forall x, epoch :: Voted(w, x, epoch) ==> Voted(w', x, epoch)
    ensures HadTurn(ps, w', a, epoch, validators, d)
  {
    hide Voted;
  }

  lemma TurnsBegin(ps: Params, worlds: seq<World>, events: seq<Event>, i: nat, id: AgentId)
    requires Run(ps, worlds, events) && Begins(worlds, events, i, id)
    ensures worlds[i].child != []
    ensures var epoch := LastExecuted(worlds[i]) + ps.period;
      HadTurn(ps, worlds[i + 1], worlds[i + 1].agents[id], epoch, Validators(worlds[i]), 0)
    ensures worlds[i + 1].agents[id].view.epoch == LastExecuted(worlds[i]) + ps.period
  {
    assert Step(ps, worlds[i], events[i], worlds[i + 1]);
    assert ps.accounts[0..] == ps.accounts;
  }

  /**
   Whatever fails and whatever else happens in the meantime: by the time an agent has finished a
   round, each of its accounts that is a validator has submitted for the round's epoch.
   */
  lemma EveryValidatorVotes(
    ps: Params, worlds: seq<World>, events: seq<Event>, i: nat, j: nat, id: AgentId, account: Account)
    requires Run(ps, worlds, events) && Begins(worlds, events, i, id) && Attended(worlds, events, i, j, id)
    requires id in worlds[j].agents && worlds[j].agents[id].Polling?
    requires account in ps.accounts && account in Validators(worlds[i])
    ensures worlds[i].child != [] &&
      Voted(worlds[j], account, LastExecuted(worlds[i]) + ps.period)
  {
    TurnsBegin(ps, worlds, events, i, id);
    var d := TurnsGoOn(ps, worlds, events, i, j, id);
    var k :| 0 <= k < |ps.accounts| && ps.accounts[k] == account;
  }
}
