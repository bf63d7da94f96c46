/**
 What one agent submits in a round of bottom-up checkpointing: from when it has seen the child's
 head until it polls again, while the head stands still and no other agent moves.
 */
module BottomUpRound {
  import opened Primitives
  import opened BottomUp

  // ---------- The submissions of a round ----------

  /** The first `x` epochs due after `n` executed ones, for one account. */
  ghost function Epochs(ps: Params, account: Account, n: nat, x: nat): set<Submission> {
    if x == 0 then {} else Epochs(ps, account, n, x - 1) + {Submission(account, Grid(ps, n + x - 1))}
  }

  /** One epoch for each of the accounts that is a validator. */
  ghost function Votes(accounts: seq<Account>, validators: set<Account>, epoch: nat): set<Submission> {
    set a | a in accounts && a in validators :: Submission(a, epoch)
  }

  lemma {:induction false} EpochsHave(ps: Params, account: Account, n: nat, x: nat, s: Submission) returns (m: nat)
    requires s in Epochs(ps, account, n, x)
    ensures m < x && s == Submission(account, Grid(ps, n + m))
  {
    hide Grid;
    m := x - 1;
    if s in Epochs(ps, account, n, x - 1) {
      m := EpochsHave(ps, account, n, x - 1, s);
    }
  }

  lemma {:induction false} EpochsCount(ps: Params, account: Account, n: nat, x: nat)
    requires ps.period > 0
    ensures |Epochs(ps, account, n, x)| == x
  {
    hide Grid;
    if x > 0 {
      EpochsCount(ps, account, n, x - 1);
      var last := Submission(account, Grid(ps, n + x - 1));
      if last in Epochs(ps, account, n, x - 1) {
        var m := EpochsHave(ps, account, n, x - 1, last);
        GridOrdered(ps, n + m, n + x - 1);
        assert false;
      }
    }
  }

  lemma VotesMore(accounts: seq<Account>, validators: set<Account>, epoch: nat, d: nat)
    requires d < |accounts|
    ensures Votes(accounts[..d + 1], validators, epoch) ==
      Votes(accounts[..d], validators, epoch) +
      if accounts[d] in validators then {Submission(accounts[d], epoch)} else {}
  {
    assert accounts[..d + 1] == accounts[..d] + [accounts[d]];
  }

  // ---------- Undisturbed rounds ----------

  /** All that was submitted is executed. */
  predicate AllExecuted(w: World)
    requires w.executed != []
  {
    forall s :: s in w.submitted ==> s.epoch <= w.executed[|w.executed| - 1]
  }

  /** The agent has not finished its round, and goes on after a submission only once it is executed. */
  predicate Smooth(w: World, a: Agent)
    requires w.executed != []
  {
    !a.Polling? && (a.CatchingUp? ==> AllExecuted(w))
  }

  /** At `i` the agent has an up-to-date view of the child's head and goes on. */
  predicate Looks(worlds: seq<World>, events: seq<Event>, i: nat, id: AgentId, initialized: bool) {
    && i < |events| < |worlds| && events[i] == AgentMoves(id, Succeeded)
    && id in worlds[i].agents && worlds[i].agents[id] == SawChild(worlds[i].childHead, initialized)
    && id in worlds[i + 1].agents
  }

  /** And it finds something to do. */
  predicate Begins(worlds: seq<World>, events: seq<Event>, i: nat, id: AgentId) {
    Looks(worlds, events, i, id, true) && worlds[i + 1].agents[id].Serving?
  }

  /** Nothing but this agent's smooth and successful moves, executions and changes of validators happen until `j`. */
  predicate Undisturbed(ps: Params, worlds: seq<World>, events: seq<Event>, i: nat, j: nat, id: AgentId) {
    && i < j <= |events| < |worlds|
    && forall l {:trigger events[l]} :: i < l < j ==>
         || events[l].Executes? || events[l].ValidatorsChange?
         || (events[l] == AgentMoves(id, Succeeded) && worlds[l].executed != []
             && id in worlds[l].agents && id in worlds[l + 1].agents
             && Smooth(worlds[l], worlds[l].agents[id]))
  }

  /** The f-th account is the first that is a validator. */
  predicate FirstValidator(ps: Params, validators: set<Account>, f: nat) {
    && f < |ps.accounts| && ps.accounts[f] in validators
    && forall i :: 0 <= i < f ==> ps.accounts[i] !in validators
  }

  // ---------- What holds during a round ----------

  /** The round so far: `d` accounts were dealt with, and `x` epochs submitted for the first validator. */
  datatype Round = Round(ps: Params, start: World, validators: set<Account>, f: nat, d: nat, x: nat) {
    function Before(): nat {
      |start.executed|
    }

    ghost predicate Valid() {
      && ps.period > 0 && Inv(ps, start) && FirstValidator(ps, validators, f)
      && d <= |ps.accounts| && (x == 0 <==> d <= f)
    }

    /** Everything submitted is executed, and nothing more is due. */
    predicate Finished(w: World) {
      |w.executed| == Before() + x && w.childHead < Grid(ps, Before() + x)
    }

    ghost function Submitted(): set<Submission>
      requires f < |ps.accounts| && d <= |ps.accounts|
    {
      Epochs(ps, ps.accounts[f], Before(), x) + Votes(ps.accounts[..d], validators, Grid(ps, Before()))
    }

    ghost predicate Chains(w: World)
      requires f < |ps.accounts| && d <= |ps.accounts|
    {
      && Inv(ps, w) && w.childHead == start.childHead
      && w.submitted == start.submitted + Submitted()
      && Before() <= |w.executed| <= Before() + (if x == 0 then 1 else x)
    }

    predicate At(w: World, a: Agent)
      requires f < |ps.accounts| && d <= |ps.accounts|
    {
      match a
      case Serving(v, vs, todo) =>
        && v.epoch == Grid(ps, Before()) && vs == validators && todo == ps.accounts[d..]
        && (x > 0 ==> Finished(w))
      case CatchingUp(v, vs, account, todo) =>
        && v.epoch == Grid(ps, Before()) && vs == validators && todo == ps.accounts[d..]
        && x > 0 && (account == ps.accounts[f] || Finished(w))
      case CatchUpSawChild(v, vs, account, todo, childHead) =>
        && v.epoch == Grid(ps, Before()) && vs == validators && todo == ps.accounts[d..]
        && x > 0 && (account == ps.accounts[f] || Finished(w))
        && childHead == w.childHead && |w.executed| == Before() + x
      case Polling => d == |ps.accounts| && Finished(w)
      case _ => false
    }

    ghost predicate Holds(w: World, a: Agent) {
      Valid() && Chains(w) && At(w, a)
    }
  }

  lemma LastExecuted(ps: Params, w: World)
    requires Inv(ps, w)
    ensures w.executed != [] && w.executed[|w.executed| - 1] == Grid(ps, |w.executed| - 1)
    ensures NextEpoch(ps, w) == Grid(ps, |w.executed|)
  {
    GridStep(ps, |w.executed| - 1);
  }

  lemma GridInjective(ps: Params, m: nat, n: nat)
    requires ps.period > 0 && Grid(ps, m) == Grid(ps, n)
    ensures m == n
  {
    GridOrdered(ps, m, n);
    GridOrdered(ps, n, m);
  }

  /** Nothing was submitted beyond the epoch after those executed at the start, except by the round itself. */
  lemma NothingBeyond(round: Round, s: Submission, k: nat)
    requires round.Valid() && s in round.start.submitted + round.Submitted() && s.epoch == Grid(round.ps, k)
    ensures k < round.Before() + (if round.x == 0 then 1 else round.x)
  {
    hide Grid, Epochs;
    var ps, n := round.ps, round.Before();
    if s in round.start.submitted {
      assert IsDue(ps, round.start, s.epoch);
      var l :| 1 <= l <= n && s.epoch == Grid(ps, l);
      GridInjective(ps, k, l);
    } else if s in Epochs(ps, ps.accounts[round.f], n, round.x) {
      var m := EpochsHave(ps, ps.accounts[round.f], n, round.x, s);
      GridInjective(ps, k, n + m);
    } else {
      GridInjective(ps, k, n);
    }
  }

  lemma AfterExecutes(round: Round, w: World, s: Submission, w': World, a: Agent)
    requires round.Holds(w, a) && Step(round.ps, w, Executes(s), w')
    ensures round.Holds(w', a)
  {
    hide Grid;
    InvAfterExecutes(round.ps, w, s, w');
    ExecutesNext(round.ps, w, s);
    NothingBeyond(round, s, |w.executed|);
  }

  // ---------- Moves of the agent ----------

  lemma AfterSkipping(round: Round, w: World, id: AgentId, w': World) returns (next: Round)
    requires id in w.agents && round.Holds(w, w.agents[id]) && Step(round.ps, w, AgentMoves(id, Succeeded), w')
    requires Smooth(w, w.agents[id])
    requires var a := w.agents[id]; a.Serving? && a.todo != [] && a.todo[0] !in a.validators
    ensures next == round.(d := next.d, x := next.x) && next.Holds(w', w'.agents[id])
  {
    hide Grid, Inv, Epochs, Votes;
    InvAfterAgent(round.ps, w, id, Succeeded, w');
    next := round.(d := round.d + 1);
    RestOf(round.ps.accounts, round.d);
    VotesMore(round.ps.accounts, round.validators, Grid(round.ps, round.Before()), round.d);
  }

  lemma AfterFirstVote(round: Round, w: World, id: AgentId, w': World) returns (next: Round)
    requires id in w.agents && round.Holds(w, w.agents[id]) && Step(round.ps, w, AgentMoves(id, Succeeded), w')
    requires Smooth(w, w.agents[id])
    requires var a := w.agents[id]; a.Serving? && a.todo != [] && a.todo[0] in a.validators && round.x == 0
    ensures next == round.(d := next.d, x := next.x) && next.Holds(w', w'.agents[id])
  {
    hide Grid, Inv, Votes;
    RestOf(round.ps.accounts, round.d);
    InvAfterAgent(round.ps, w, id, Succeeded, w');
    assert round.d == round.f;
    next := round.(d := round.d + 1, x := 1);
    var n, account := round.Before(), round.ps.accounts[round.f];
    assert Epochs(round.ps, account, n, 0) == {};
    assert Epochs(round.ps, account, n, 1) == {Submission(account, Grid(round.ps, n))};
    VotesMore(round.ps.accounts, round.validators, Grid(round.ps, n), round.d);
  }

  lemma AfterFurtherVote(round: Round, w: World, id: AgentId, w': World) returns (next: Round)
    requires id in w.agents && round.Holds(w, w.agents[id]) && Step(round.ps, w, AgentMoves(id, Succeeded), w')
    requires Smooth(w, w.agents[id])
    requires var a := w.agents[id]; a.Serving? && a.todo != [] && a.todo[0] in a.validators && round.x > 0
    ensures next == round.(d := next.d, x := next.x) && next.Holds(w', w'.agents[id])
  {
    hide Grid, Inv, Epochs, Votes;
    InvAfterAgent(round.ps, w, id, Succeeded, w');
    next := round.(d := round.d + 1);
    RestOf(round.ps.accounts, round.d);
    VotesMore(round.ps.accounts, round.validators, Grid(round.ps, round.Before()), round.d);
  }

  lemma AfterLastAccount(round: Round, w: World, id: AgentId, w': World)
    requires id in w.agents && round.Holds(w, w.agents[id]) && Step(round.ps, w, AgentMoves(id, Succeeded), w')
    requires Smooth(w, w.agents[id])
    requires var a := w.agents[id]; a.Serving? && a.todo == []
    ensures round.Holds(w', w'.agents[id])
  {
    hide Grid, Inv, Epochs, Votes;
    InvAfterAgent(round.ps, w, id, Succeeded, w');
  }

  lemma AfterLooking(round: Round, w: World, id: AgentId, w': World)
    requires id in w.agents && round.Holds(w, w.agents[id]) && Step(round.ps, w, AgentMoves(id, Succeeded), w')
    requires Smooth(w, w.agents[id])
    requires w.agents[id].CatchingUp?
    ensures round.Holds(w', w'.agents[id])
  {
    hide Grid, Inv, Votes;
    InvAfterAgent(round.ps, w, id, Succeeded, w');
    var ps, n, x := round.ps, round.Before(), round.x;
    var last := Submission(ps.accounts[round.f], Grid(ps, n + x - 1));
    assert last in Epochs(ps, ps.accounts[round.f], n, x);
    LastExecuted(ps, w);
    GridOrdered(ps, |w.executed| - 1, n + x - 1);
  }

  lemma AfterCatchingUp(round: Round, w: World, id: AgentId, w': World) returns (next: Round)
    requires id in w.agents && round.Holds(w, w.agents[id]) && Step(round.ps, w, AgentMoves(id, Succeeded), w')
    requires Smooth(w, w.agents[id])
    requires w.agents[id].CatchUpSawChild?
    ensures next == round.(d := next.d, x := next.x) && next.Holds(w', w'.agents[id])
  {
    hide Grid, Inv, Votes;
    InvAfterAgent(round.ps, w, id, Succeeded, w');
    LastExecuted(round.ps, w);
    next := if w.childHead < NextEpoch(round.ps, w) then round else round.(x := round.x + 1);
  }

  lemma AfterMove(round: Round, w: World, id: AgentId, w': World) returns (next: Round)
    requires id in w.agents && round.Holds(w, w.agents[id]) && Step(round.ps, w, AgentMoves(id, Succeeded), w')
    requires Smooth(w, w.agents[id])
    ensures next == round.(d := next.d, x := next.x) && next.Holds(w', w'.agents[id])
  {
    hide Step, Round.Chains;
    var a := w.agents[id];
    next := round;
    if a.CatchUpSawChild? {
      next := AfterCatchingUp(round, w, id, w');
    } else if a.CatchingUp? {
      AfterLooking(round, w, id, w');
    } else if a.todo == [] {
      AfterLastAccount(round, w, id, w');
    } else if a.todo[0] !in a.validators {
      next := AfterSkipping(round, w, id, w');
    } else if round.x == 0 {
      next := AfterFirstVote(round, w, id, w');
    } else {
      next := AfterFurtherVote(round, w, id, w');
    }
  }

  // ---------- Whole rounds ----------

  /** With an up-to-date view, a round begins exactly if the child is initialised and lags by a period or more. */
  lemma RoundBeginsIff(ps: Params, worlds: seq<World>, events: seq<Event>, i: nat, id: AgentId, initialized: bool)
    requires Run(ps, worlds, events) && ps.period > 0 && Looks(worlds, events, i, id, initialized)
    ensures worlds[i].executed != [] && worlds[i + 1].submitted == worlds[i].submitted
    ensures Begins(worlds, events, i, id) <==> initialized && LagInPeriods(ps, worlds[i]) > 0
    ensures !Begins(worlds, events, i, id) ==> worlds[i + 1].agents[id].Polling?
  {
    hide Grid;
    InvHolds(ps, worlds, events, i);
    assert Step(ps, worlds[i], events[i], worlds[i + 1]);
    LagIsPositiveIff(ps, worlds[i]);
  }

  lemma LagIsPositiveIff(ps: Params, w: World)
    requires w.executed != [] && ps.period > 0
    ensures LagInPeriods(ps, w) > 0 <==> NextEpoch(ps, w) <= w.childHead
  {
    var last := w.executed[|w.executed| - 1];
    if last <= w.childHead {
      var lag := w.childHead - last;
      assert lag == lag / ps.period * ps.period + lag % ps.period;
      MultiplesApart(ps.period, 0, lag / ps.period);
    }
  }

  lemma RoundStarts(ps: Params, worlds: seq<World>, events: seq<Event>, i: nat, id: AgentId, f: nat)
    returns (round: Round)
    requires Run(ps, worlds, events) && ps.period > 0
    requires Begins(worlds, events, i, id) && FirstValidator(ps, worlds[i].validators, f)
    ensures round == Round(ps, worlds[i], worlds[i].validators, f, 0, 0)
    ensures round.Holds(worlds[i + 1], worlds[i + 1].agents[id])
  {
    hide Grid;
    InvHolds(ps, worlds, events, i);
    InvHolds(ps, worlds, events, i + 1);
    LastExecuted(ps, worlds[i]);
    round := Round(ps, worlds[i], worlds[i].validators, f, 0, 0);
    assert Votes(ps.accounts[..0], worlds[i].validators, Grid(ps, round.Before())) == {};
    assert ps.accounts[0..] == ps.accounts;
  }

  lemma {:induction false} RoundGoesOn(
    ps: Params, worlds: seq<World>, events: seq<Event>, i: nat, j: nat, id: AgentId, f: nat) returns (round: Round)
    requires Run(ps, worlds, events) && ps.period > 0
    requires Begins(worlds, events, i, id) && FirstValidator(ps, worlds[i].validators, f)
    requires Undisturbed(ps, worlds, events, i, j, id)
    ensures round == Round(ps, worlds[i], worlds[i].validators, f, round.d, round.x)
    ensures id in worlds[j].agents && round.Holds(worlds[j], worlds[j].agents[id])
    decreases j
  {
    hide Step, Round.Holds, Smooth;
    if j == i + 1 {
      round := RoundStarts(ps, worlds, events, i, id, f);
    } else {
      var e := events[j - 1];
      round := RoundGoesOn(ps, worlds, events, i, j - 1, id, f);
      if e.Executes? {
        ChainMovesNobody(ps, worlds[j - 1], e, worlds[j]);
        AfterExecutes(round, worlds[j - 1], e.submission, worlds[j], worlds[j - 1].agents[id]);
      } else if e.ValidatorsChange? {
        ChainMovesNobody(ps, worlds[j - 1], e, worlds[j]);
        InvHolds(ps, worlds, events, j);
        AfterChange(round, worlds[j - 1], worlds[j], worlds[j - 1].agents[id]);
      } else {
        round := AfterMove(round, worlds[j - 1], id, worlds[j]);
      }
    }
  }

  lemma ChainMovesNobody(ps: Params, w: World, e: Event, w': World)
    requires Step(ps, w, e, w') && (e.Executes? || e.ValidatorsChange?)
    ensures w'.agents == w.agents && w'.submitted == w.submitted
    ensures e.ValidatorsChange? ==> w' == w.(validators := w'.validators)
  {
  }

  lemma AfterChange(round: Round, w: World, w': World, a: Agent)
    requires round.Holds(w, a) && w' == w.(validators := w'.validators) && Inv(round.ps, w')
    ensures round.Holds(w', a)
  {
  }

  /**
   In an undisturbed round, in which each submission is executed before the agent looks again, the
   agent submits exactly the epochs that were lagging for its first validator, as many as there
   were whole periods of lag, and the first of them for each further validator.
   */
  lemma RoundSubmits(ps: Params, worlds: seq<World>, events: seq<Event>, i: nat, j: nat, id: AgentId, f: nat)
    requires Run(ps, worlds, events) && ps.period > 0
    requires Begins(worlds, events, i, id) && FirstValidator(ps, worlds[i].validators, f)
    requires Undisturbed(ps, worlds, events, i, j, id) && id in worlds[j].agents && worlds[j].agents[id].Polling?
    ensures worlds[i].executed != []
    ensures var w, n, lag := worlds[i], |worlds[i].executed|, LagInPeriods(ps, worlds[i]);
      && worlds[j].submitted ==
           w.submitted + (Epochs(ps, ps.accounts[f], n, lag) + Votes(ps.accounts, w.validators, Grid(ps, n)))
      && |Epochs(ps, ps.accounts[f], n, lag)| == lag
      && |worlds[j].executed| == n + lag
  {
    hide Grid, Step, Epochs, Votes;
    var round := RoundGoesOn(ps, worlds, events, i, j, id, f);
    var w, w' := worlds[i], worlds[j];
    NothingUndone(ps, worlds, events, i, j);
    LastExecuted(ps, w');
    LagIs(ps, w, w');
    EpochsCount(ps, ps.accounts[f], |w.executed|, round.x);
    assert ps.accounts[..|ps.accounts|] == ps.accounts;
  }

  // ---------- Rounds without a validator ----------

  /** None of the accounts still to be served is a validator, and none is being served. */
  predicate Idle(a: Agent) {
    a.Polling? || (a.Serving? && forall x :: x in a.todo ==> x !in a.validators)
  }

  lemma IdleAfterMove(ps: Params, w: World, id: AgentId, w': World)
    requires id in w.agents && Idle(w.agents[id]) && Step(ps, w, AgentMoves(id, Succeeded), w')
    requires Smooth(w, w.agents[id])
    ensures w'.submitted == w.submitted && w'.executed == w.executed && Idle(w'.agents[id])
  {
  }

  lemma NothingToExecute(ps: Params, w: World, e: Event, w': World)
    requires Step(ps, w, e, w') && !e.AgentMoves?
    ensures w.executed != [] && w'.executed != []
    ensures AllExecuted(w) ==> w'.executed == w.executed
  {
  }

  lemma {:induction false} IdleGoesOn(ps: Params, worlds: seq<World>, events: seq<Event>, i: nat, j: nat, id: AgentId)
    requires Run(ps, worlds, events) && Begins(worlds, events, i, id)
    requires forall x :: x in ps.accounts ==> x !in worlds[i].validators
    requires Undisturbed(ps, worlds, events, i, j, id)
    ensures id in worlds[j].agents && Idle(worlds[j].agents[id]) && worlds[j].submitted == worlds[i].submitted
    ensures worlds[i].executed != [] && worlds[j].executed != []
    ensures AllExecuted(worlds[i]) ==> worlds[j].executed == worlds[i].executed
    decreases j
  {
    if j == i + 1 {
      assert Step(ps, worlds[i], events[i], worlds[i + 1]);
    } else {
      var e := events[j - 1];
      IdleGoesOn(ps, worlds, events, i, j - 1, id);
      hide Step, Smooth, Idle;
      if e.AgentMoves? {
        IdleAfterMove(ps, worlds[j - 1], id, worlds[j]);
      } else {
        ChainMovesNobody(ps, worlds[j - 1], e, worlds[j]);
        NothingToExecute(ps, worlds[j - 1], e, worlds[j]);
      }
    }
  }

  /** An undisturbed round submits nothing at all if none of the agent's accounts is a validator. */
  lemma NothingSubmittedWithoutValidators(
    ps: Params, worlds: seq<World>, events: seq<Event>, i: nat, j: nat, id: AgentId)
    requires Run(ps, worlds, events) && Begins(worlds, events, i, id)
    requires forall x :: x in ps.accounts ==> x !in worlds[i].validators
    requires Undisturbed(ps, worlds, events, i, j, id)
    ensures worlds[j].submitted == worlds[i].submitted
    ensures worlds[i].executed != [] && worlds[j].executed != []
    ensures AllExecuted(worlds[i]) ==> worlds[j].executed == worlds[i].executed
  {
    IdleGoesOn(ps, worlds, events, i, j, id);
  }

  // ---------- Rounds with failures ----------

  /** The account has submitted for the epoch. */
  ghost predicate Voted(w: World, account: Account, epoch: nat) {
    Submission(account, epoch) in w.submitted
  }

  /** Until `j`, the agent is not stopped, has not finished its round, and whatever it submits is pushed. */
  predicate Attended(worlds: seq<World>, events: seq<Event>, i: nat, j: nat, id: AgentId) {
    && i < j <= |events| < |worlds|
    && forall l {:trigger events[l]} :: i < l < j && events[l].AgentMoves? && events[l].id == id ==>
         && !events[l].result.Interrupted? && (events[l].result.Failed? ==> events[l].result.pushed)
         && id in worlds[l].agents && !worlds[l].agents[id].Polling?
  }

  /** Of a round's accounts, `d` have had their turn, and the validators among them have voted. */
  ghost predicate HadTurn(ps: Params, w: World, a: Agent, epoch: nat, validators: set<Account>, d: nat) {
    && d <= |ps.accounts|
    && (a.Serving? || a.CatchingUp? || a.CatchUpSawChild? ==>
          a.view.epoch == epoch && a.validators == validators && a.todo == ps.accounts[d..])
    && (a.Serving? || a.CatchingUp? || a.CatchUpSawChild? || (a.Polling? && d == |ps.accounts|))
    && forall k :: 0 <= k < d && ps.accounts[k] in validators ==> Voted(w, ps.accounts[k], epoch)
  }

  lemma TurnAfterMove(ps: Params, w: World, id: AgentId, r: Result, w': World,
                      epoch: nat, validators: set<Account>, d: nat) returns (d': nat)
    requires Step(ps, w, AgentMoves(id, r), w') && !r.Interrupted? && (r.Failed? ==> r.pushed)
    requires id in w.agents && !w.agents[id].Polling? && HadTurn(ps, w, w.agents[id], epoch, validators, d)
    ensures id in w'.agents && HadTurn(ps, w', w'.agents[id], epoch, validators, d')
  {
    var a := w.agents[id];
    d' := d;
    VotesStay(ps, w, AgentMoves(id, r), w');
    if a.Serving? && a.todo != [] {
      RestOf(ps.accounts, d);
      d' := d + 1;
      if a.todo[0] in validators {
        assert Submission(a.todo[0], a.view.epoch) in w'.submitted;
      }
    }
  }

  lemma VotesStay(ps: Params, w: World, e: Event, w': World)
    requires Step(ps, w, e, w')
    ensures forall x, epoch :: Voted(w, x, epoch) ==> Voted(w', x, epoch)
  {
    forall x, epoch | Voted(w, x, epoch)
      ensures Voted(w', x, epoch)
    {
      assert Submission(x, epoch) in w'.submitted;
    }
  }

  lemma OthersUnmoved(ps: Params, w: World, e: Event, w': World, id: AgentId)
    requires Step(ps, w, e, w') && id in w.agents && !(e.AgentMoves? && e.id == id)
    ensures id in w'.agents && w'.agents[id] == w.agents[id]
  {
  }

  lemma {:induction false} TurnsGoOn(ps: Params, worlds: seq<World>, events: seq<Event>, i: nat, j: nat, id: AgentId)
    returns (d: nat)
    requires Run(ps, worlds, events) && Begins(worlds, events, i, id) && Attended(worlds, events, i, j, id)
    ensures id in worlds[j].agents
    ensures HadTurn(ps, worlds[j], worlds[j].agents[id], worlds[i + 1].agents[id].view.epoch, worlds[i].validators, d)
    decreases j
  {
    hide Step, HadTurn, Voted;
    if j == i + 1 {
      d := 0;
      TurnsBegin(ps, worlds, events, i, id);
    } else {
      var e, w, w' := events[j - 1], worlds[j - 1], worlds[j];
      d := TurnsGoOn(ps, worlds, events, i, j - 1, id);
      var epoch := worlds[i + 1].agents[id].view.epoch;
      if e.AgentMoves? && e.id == id {
        d := TurnAfterMove(ps, w, id, e.result, w', epoch, worlds[i].validators, d);
      } else {
        OthersUnmoved(ps, w, e, w', id);
        VotesStay(ps, w, e, w');
        TurnUnmoved(ps, w, w', w.agents[id], epoch, worlds[i].validators, d);
      }
    }
  }

  lemma TurnUnmoved(ps: Params, w: World, w': World, a: Agent, epoch: nat, validators: set<Account>, d: nat)
    requires HadTurn(ps, w, a, epoch, validators, d)
    requires forall x, epoch :: Voted(w, x, epoch) ==> Voted(w', x, epoch)
    ensures HadTurn(ps, w', a, epoch, validators, d)
  {
    hide Voted;
  }

  lemma TurnsBegin(ps: Params, worlds: seq<World>, events: seq<Event>, i: nat, id: AgentId)
    requires Run(ps, worlds, events) && Begins(worlds, events, i, id)
    ensures worlds[i].executed != [] &&
      HadTurn(ps, worlds[i + 1], worlds[i + 1].agents[id], NextEpoch(ps, worlds[i]), worlds[i].validators, 0)
    ensures worlds[i + 1].agents[id].view.epoch == NextEpoch(ps, worlds[i])
  {
    assert Step(ps, worlds[i], events[i], worlds[i + 1]);
    assert ps.accounts[0..] == ps.accounts;
  }

  /**
   Whatever fails and whatever else happens in the meantime: by the time an agent has finished a
   round, each of its accounts that is a validator has submitted for the round's epoch.
   */
  lemma EveryValidatorVotes(
    ps: Params, worlds: seq<World>, events: seq<Event>, i: nat, j: nat, id: AgentId, account: Account)
    requires Run(ps, worlds, events) && Begins(worlds, events, i, id) && Attended(worlds, events, i, j, id)
    requires id in worlds[j].agents && worlds[j].agents[id].Polling?
    requires account in ps.accounts && account in worlds[i].validators
    ensures worlds[i].executed != [] &&
      Voted(worlds[j], account, NextEpoch(ps, worlds[i]))
  {
    TurnsBegin(ps, worlds, events, i, id);
    var d := TurnsGoOn(ps, worlds, events, i, j, id);
    var k :| 0 <= k < |ps.accounts| && ps.accounts[k] == account;
  }
}
