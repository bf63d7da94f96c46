/**
 Bottom-up checkpointing: agents poll the child's head and the subnet actor on the parent, and
 submit a checkpoint for the epoch one period after the last executed one.

 The subnet actor is known by its contract: it executes submitted epochs in increasing order.
 */
module BottomUp {
  import opened Primitives

  type Account(==, !new)
  type AgentId(==, !new)

  /** What an agent read: the child's head and the epoch to submit. */
  datatype View = View(childHead: nat, epoch: nat)

  datatype Agent =
    | Polling
    | SawChild(childHead: nat, initialized: bool)
    | Serving(view: View, validators: set<Account>, todo: seq<Account>)
    | CatchingUp(view: View, validators: set<Account>, account: Account, todo: seq<Account>)
    | CatchUpSawChild(view: View, validators: set<Account>, account: Account, todo: seq<Account>, childHead: nat)
    | Stopped

  datatype Submission = Submission(account: Account, epoch: nat)

  /**
   The child's head and whether the child is initialised, the subnet actor's validators and the
   epochs it executed so far, the start of checkpointing first.
   */
  datatype World = World(
    childHead: nat,
    initialized: bool,
    validators: set<Account>,
    executed: seq<nat>,
    submitted: set<Submission>,
    agents: map<AgentId, Agent>)

  datatype Params = Params(start: nat, period: nat, accounts: seq<Account>)

  // ---------- Steps ----------

  predicate Init(ps: Params, w: World) {
    w.executed == [ps.start] && w.submitted == {} && w.agents == map[]
  }

  function NextEpoch(ps: Params, w: World): nat
    requires w.executed != []
  {
    w.executed[|w.executed| - 1] + ps.period
  }

  predicate Submits(w: World, account: Account, epoch: nat, pushed: bool, w': World) {
    w' == w.(agents := w'.agents, submitted := w.submitted + if pushed then {Submission(account, epoch)} else {})
  }

  predicate Reads(w: World, w': World) {
    w' == w.(agents := w'.agents)
  }

  /**
   What the world does to an agent as it moves: the submission that it may make succeeds or fails,
   pushed to the chain or not, or the agent is stopped.
   */
  datatype Result = Succeeded | Failed(pushed: bool) | Interrupted

  predicate Moves(ps: Params, w: World, a: Agent, r: Result, a': Agent, w': World)
    requires w.executed != []
  {
    match a
    case Stopped => a' == Polling && Reads(w, w')
    case Polling => a' == SawChild(w.childHead, w.initialized) && Reads(w, w')
    case SawChild(childHead, initialized) =>
      && Reads(w, w')
      && if initialized && childHead >= NextEpoch(ps, w)
         then a' == Serving(View(childHead, NextEpoch(ps, w)), w.validators, ps.accounts)
         else a' == Polling
    case Serving(v, validators, todo) =>
      if todo == [] then a' == Polling && Reads(w, w')
      else if todo[0] !in validators then a' == Serving(v, validators, todo[1..]) && Reads(w, w')
      else
        if r.Failed? then a' == Serving(v, validators, todo[1..]) && Submits(w, todo[0], v.epoch, r.pushed, w')
        else a' == CatchingUp(v, validators, todo[0], todo[1..]) && Submits(w, todo[0], v.epoch, true, w')
    case CatchingUp(v, validators, account, todo) =>
      a' == CatchUpSawChild(v, validators, account, todo, w.childHead) && Reads(w, w')
    case CatchUpSawChild(v, validators, account, todo, childHead) =>
      var epoch := NextEpoch(ps, w);
      if childHead < epoch then a' == Serving(v, validators, todo) && Reads(w, w')
      else
        if r.Failed? then a' == Serving(v, validators, todo) && Submits(w, account, epoch, r.pushed, w')
        else a' == CatchingUp(v, validators, account, todo) && Submits(w, account, epoch, true, w')
  }

  datatype Event =
    | ChildGrows
    | ValidatorsChange
    | Executes(submission: Submission)
    | AgentMoves(id: AgentId, result: Result)

  predicate Step(ps: Params, w: World, e: Event, w': World) {
    && w.executed != []
    && match e
       case ChildGrows =>
         && w.childHead < w'.childHead && (w.initialized ==> w'.initialized)
         && w' == w.(childHead := w'.childHead, initialized := w'.initialized)
       case ValidatorsChange => w' == w.(validators := w'.validators)
       case Executes(s) =>
         && s in w.submitted && w.executed[|w.executed| - 1] < s.epoch
         && w' == w.(executed := w.executed + [s.epoch])
       case AgentMoves(id, r) =>
         var a := if id in w.agents then w.agents[id] else Stopped;
         && id in w'.agents && w'.agents == w.agents[id := w'.agents[id]]
         && if r.Interrupted? then w'.agents[id] == Stopped && Reads(w, w') else Moves(ps, w, a, r, w'.agents[id], w')
  }

  // ---------- What every step keeps ----------

  /** The k-th epoch at which a checkpoint is due. */
  function Grid(ps: Params, k: nat): nat {
    Periods(ps.start, ps.period, k)
  }

  lemma GridStep(ps: Params, k: nat)
    ensures Grid(ps, k + 1) == Grid(ps, k) + ps.period
  {
  }

  lemma GridApart(ps: Params, m: nat, n: nat)
    requires m <= n
    ensures Grid(ps, n) == Grid(ps, m) + (n - m) * ps.period
  {
    PeriodsApart(ps.start, ps.period, m, n);
  }

  lemma GridOrdered(ps: Params, m: nat, n: nat)
    ensures m <= n ==> Grid(ps, m) <= Grid(ps, n)
    ensures m < n && ps.period > 0 ==> Grid(ps, m) < Grid(ps, n)
  {
    PeriodsOrdered(ps.start, ps.period, m, n);
  }

  /** The epoch is on the grid, no more than one step past what is executed, and the child has reached it. */
  ghost predicate IsDue(ps: Params, w: World, epoch: nat) {
    && epoch <= w.childHead
    && exists k :: 1 <= k <= |w.executed| && epoch == Grid(ps, k)
  }

  ghost predicate AgentInv(ps: Params, w: World, a: Agent) {
    && (a.Serving? || a.CatchingUp? || a.CatchUpSawChild? ==>
          a.view.childHead <= w.childHead && IsDue(ps, w, a.view.epoch))
    && (a.SawChild? || a.CatchUpSawChild? ==> a.childHead <= w.childHead)
  }

  ghost predicate Inv(ps: Params, w: World) {
    && w.executed != []
    && (forall k :: 0 <= k < |w.executed| ==> w.executed[k] == Grid(ps, k))
    && (forall k :: 1 <= k < |w.executed| ==> w.executed[k] <= w.childHead)
    && (forall s :: s in w.submitted ==> IsDue(ps, w, s.epoch))
    && forall id :: id in w.agents ==> AgentInv(ps, w, w.agents[id])
  }

  lemma DueLater(ps: Params, w: World, w': World, epoch: nat)
    requires IsDue(ps, w, epoch) && w.childHead <= w'.childHead && |w.executed| <= |w'.executed|
    ensures IsDue(ps, w', epoch)
  {
  }

  lemma NextIsDue(ps: Params, w: World)
    requires Inv(ps, w) && NextEpoch(ps, w) <= w.childHead
    ensures IsDue(ps, w, NextEpoch(ps, w))
  {
    var k := |w.executed| - 1;
    GridStep(ps, k);
    assert NextEpoch(ps, w) == Grid(ps, k + 1);
  }

  /** Nothing but time passes: all that was due stays due. */
  lemma InvLater(ps: Params, w: World, w': World)
    requires Inv(ps, w) && w'.executed == w.executed && w.childHead <= w'.childHead
    requires forall s :: s in w'.submitted ==> s in w.submitted || IsDue(ps, w, s.epoch)
    requires forall id :: id in w'.agents ==> AgentInv(ps, w, w'.agents[id])
    ensures Inv(ps, w')
  {
  }

  lemma InvAfterAgent(ps: Params, w: World, id: AgentId, r: Result, w': World)
    requires Inv(ps, w) && Step(ps, w, AgentMoves(id, r), w')
    ensures Inv(ps, w')
  {
    var a := if id in w.agents then w.agents[id] else Stopped;
    assert AgentInv(ps, w, a);
    if NextEpoch(ps, w) <= w.childHead {
      NextIsDue(ps, w);
    }
    assert AgentInv(ps, w, w'.agents[id]);
    forall s | s in w'.submitted
      ensures s in w.submitted || IsDue(ps, w, s.epoch)
    {
    }
    InvLater(ps, w, w');
  }

  /** Whatever is executed next is the next epoch on the grid. */
  lemma ExecutesNext(ps: Params, w: World, s: Submission)
    requires Inv(ps, w) && s in w.submitted && w.executed[|w.executed| - 1] < s.epoch
    ensures s.epoch == NextEpoch(ps, w) == Grid(ps, |w.executed|)
  {
    hide Grid;
    var n := |w.executed|;
    assert IsDue(ps, w, s.epoch);
    var k :| 1 <= k <= n && s.epoch == Grid(ps, k);
    GridOrdered(ps, k, n - 1);
    GridStep(ps, n - 1);
  }

  lemma InvAfterExecutes(ps: Params, w: World, s: Submission, w': World)
    requires Inv(ps, w) && Step(ps, w, Executes(s), w')
    ensures Inv(ps, w')
  {
    ExecutesNext(ps, w, s);
    forall x | x in w'.submitted
      ensures IsDue(ps, w', x.epoch)
    {
      DueLater(ps, w, w', x.epoch);
    }
    forall id | id in w'.agents
      ensures AgentInv(ps, w', w'.agents[id])
    {
      var a := w.agents[id];
      assert AgentInv(ps, w, a);
      if a.Serving? || a.CatchingUp? || a.CatchUpSawChild? {
        DueLater(ps, w, w', a.view.epoch);
      }
    }
  }

  // ---------- Whole runs ----------

  ghost predicate Run(ps: Params, worlds: seq<World>, events: seq<Event>) {
    && |worlds| == |events| + 1
    && Init(ps, worlds[0])
    && forall i {:trigger events[i]} :: 0 <= i < |events| ==> Step(ps, worlds[i], events[i], worlds[i + 1])
  }

  lemma {:induction false} InvHolds(ps: Params, worlds: seq<World>, events: seq<Event>, i: nat)
    requires Run(ps, worlds, events) && i <= |events|
    ensures Inv(ps, worlds[i])
  {
    if i == 0 {
      assert Grid(ps, 0) == ps.start;
    } else {
      InvHolds(ps, worlds, events, i - 1);
      var w, e, w' := worlds[i - 1], events[i - 1], worlds[i];
      match e
      case ChildGrows => InvLater(ps, w, w');
      case ValidatorsChange => InvLater(ps, w, w');
      case Executes(s) => InvAfterExecutes(ps, w, s, w');
      case AgentMoves(id, r) => InvAfterAgent(ps, w, id, r, w');
    }
  }

  /** In every run the epochs executed are exactly the grid, one after another, and not past the child's head. */
  lemma ExecutedIsTheGrid(ps: Params, worlds: seq<World>, events: seq<Event>, i: nat, k: nat)
    requires Run(ps, worlds, events) && i <= |events| && k < |worlds[i].executed|
    ensures worlds[i].executed[k] == Grid(ps, k) == ps.start + k * ps.period
    ensures 1 <= k ==> worlds[i].executed[k] <= worlds[i].childHead
  {
    InvHolds(ps, worlds, events, i);
    PeriodsIs(ps.start, ps.period, k);
  }

  /**
   Every epoch ever submitted, for any account and from any agent, lies on the grid, after the
   start, at most one period past the last executed one, and not past the child's head.
   */
  lemma SubmissionsAreOnTheGrid(ps: Params, worlds: seq<World>, events: seq<Event>, i: nat, s: Submission)
    requires Run(ps, worlds, events) && i <= |events| && s in worlds[i].submitted
    ensures s.epoch <= worlds[i].childHead
    ensures exists k :: 1 <= k <= |worlds[i].executed| && s.epoch == Grid(ps, k)
  {
    InvHolds(ps, worlds, events, i);
    assert IsDue(ps, worlds[i], s.epoch);
  }

  // ---------- Who submits ----------

  /** At some point up to the n-th, the account was a validator and the child was initialised. */
  ghost predicate WasValidator(worlds: seq<World>, n: int, account: Account) {
    exists l :: 0 <= l <= n && l < |worlds| && worlds[l].initialized && account in worlds[l].validators
  }

  ghost predicate WereValidators(worlds: seq<World>, n: int, validators: set<Account>) {
    exists l :: 0 <= l <= n && l < |worlds| && worlds[l].initialized && worlds[l].validators == validators
  }

  /** The agent works through its accounts with the validators it read, and serves those only. */
  ghost predicate AgentServes(ps: Params, worlds: seq<World>, n: nat, a: Agent)
    requires n < |worlds|
  {
    && (a.SawChild? && a.initialized ==> worlds[n].initialized)
    && (a.Serving? || a.CatchingUp? || a.CatchUpSawChild? ==>
          WereValidators(worlds, n, a.validators) && forall x :: x in a.todo ==> x in ps.accounts)
    && (a.CatchingUp? || a.CatchUpSawChild? ==> a.account in ps.accounts && a.account in a.validators)
  }

  ghost predicate ServesInv(ps: Params, worlds: seq<World>, n: nat)
    requires n < |worlds|
  {
    && (forall s :: s in worlds[n].submitted ==> s.account in ps.accounts && WasValidator(worlds, n, s.account))
    && forall id :: id in worlds[n].agents ==> AgentServes(ps, worlds, n, worlds[n].agents[id])
  }

  lemma ServesLater(ps: Params, worlds: seq<World>, n: nat)
    requires 0 < n < |worlds| && (worlds[n - 1].initialized ==> worlds[n].initialized)
    ensures forall x :: WasValidator(worlds, n - 1, x) ==> WasValidator(worlds, n, x)
    ensures forall a :: AgentServes(ps, worlds, n - 1, a) ==> AgentServes(ps, worlds, n, a)
  {
  }

  /** What a move submits is for one of the accounts, and it is in the validator set that the agent holds. */
  lemma MoveServes(ps: Params, worlds: seq<World>, n: nat, a: Agent, r: Result, a': Agent)
    requires 0 < n < |worlds| && worlds[n - 1].executed != []
    requires Moves(ps, worlds[n - 1], a, r, a', worlds[n]) && AgentServes(ps, worlds, n - 1, a)
    ensures AgentServes(ps, worlds, n - 1, a')
    ensures forall s :: s in worlds[n].submitted && s !in worlds[n - 1].submitted ==>
      s.account in ps.accounts && WasValidator(worlds, n - 1, s.account)
  {
    if a.Serving? && a.todo != [] {
      assert a.todo[0] in a.todo;
    }
  }

  lemma StepKeeps(ps: Params, w: World, e: Event, w': World)
    requires Step(ps, w, e, w')
    ensures w.initialized ==> w'.initialized
    ensures !e.AgentMoves? ==> w'.agents == w.agents && w'.submitted == w.submitted
  {
  }

  lemma {:induction false} ServesHolds(ps: Params, worlds: seq<World>, events: seq<Event>, n: nat)
    requires Run(ps, worlds, events) && n <= |events|
    ensures ServesInv(ps, worlds, n)
  {
    if n > 0 {
      var e, w, w' := events[n - 1], worlds[n - 1], worlds[n];
      ServesHolds(ps, worlds, events, n - 1);
      StepKeeps(ps, w, e, w');
      if e.AgentMoves? {
        var a := if e.id in w.agents then w.agents[e.id] else Stopped;
        if !e.result.Interrupted? {
          MoveServes(ps, worlds, n, a, e.result, w'.agents[e.id]);
        }
      }
      hide WasValidator, AgentServes;
      ServesLater(ps, worlds, n);
    }
  }

  /**
   In every run, whoever submits is one of the agents' accounts and was, at some point before, a
   validator of an initialised child.
   */
  lemma SubmittersAreEntitled(ps: Params, worlds: seq<World>, events: seq<Event>, n: nat, s: Submission)
    requires Run(ps, worlds, events) && n <= |events| && s in worlds[n].submitted
    ensures s.account in ps.accounts
    ensures exists l :: 0 <= l <= n && worlds[l].initialized && s.account in worlds[l].validators
  {
    ServesHolds(ps, worlds, events, n);
    assert WasValidator(worlds, n, s.account);
  }

  // ---------- Catching up ----------

  lemma {:induction false} NothingUndone(ps: Params, worlds: seq<World>, events: seq<Event>, i: nat, j: nat)
    requires Run(ps, worlds, events) && i <= j <= |events|
    ensures worlds[i].executed <= worlds[j].executed && worlds[i].childHead <= worlds[j].childHead
  {
    if i < j {
      NothingUndone(ps, worlds, events, i, j - 1);
      var e := events[j - 1];
      StepUndoesNothing(ps, worlds[j - 1], e, worlds[j]);
    }
  }

  lemma StepUndoesNothing(ps: Params, w: World, e: Event, w': World)
    ensures Step(ps, w, e, w') ==> w.executed <= w'.executed && w.childHead <= w'.childHead
  {
  }

  /** With an up-to-date view of the child's head, the agent finds nothing to submit and ends its round or its loop. */
  predicate FindsNothingDue(ps: Params, w: World, a: Agent)
    requires w.executed != []
  {
    (a.SawChild? || a.CatchUpSawChild?) && a.childHead == w.childHead && a.childHead < NextEpoch(ps, w)
  }

  function LagInPeriods(ps: Params, w: World): nat
    requires w.executed != [] && ps.period > 0
  {
    var last := w.executed[|w.executed| - 1];
    if w.childHead < last then 0 else (w.childHead - last) / ps.period
  }

  /**
   However many agents there are and whatever fails on the way: if the child's head has stood
   still and an agent finds nothing due any more, then exactly as many checkpoints were executed
   as there were whole periods of lag, and less than a period of lag is left.
   */
  lemma CaughtUpWhenNothingIsDue(ps: Params, worlds: seq<World>, events: seq<Event>, i: nat, j: nat, id: AgentId)
    requires Run(ps, worlds, events) && i <= j <= |events| && ps.period > 0
    requires worlds[i].executed != [] && worlds[j].executed != [] && worlds[i].childHead == worlds[j].childHead
    requires id in worlds[j].agents && FindsNothingDue(ps, worlds[j], worlds[j].agents[id])
    ensures |worlds[j].executed| == |worlds[i].executed| + LagInPeriods(ps, worlds[i])
    ensures LagInPeriods(ps, worlds[j]) == 0
  {
    NothingUndone(ps, worlds, events, i, j);
    InvHolds(ps, worlds, events, i);
    InvHolds(ps, worlds, events, j);
    LagIs(ps, worlds[i], worlds[j]);
    LagIs(ps, worlds[j], worlds[j]);
  }

  lemma LagIs(ps: Params, w: World, w': World)
    requires Inv(ps, w) && Inv(ps, w') && ps.period > 0
    requires w.executed <= w'.executed && w.childHead == w'.childHead < NextEpoch(ps, w')
    ensures LagInPeriods(ps, w) == |w'.executed| - |w.executed|
  {
    var m, n := |w.executed| - 1, |w'.executed| - 1;
    GridApart(ps, m, n);
    if Grid(ps, m) <= w.childHead {
      QuotientUnique(w.childHead - Grid(ps, m), ps.period, n - m);
    }
  }

  // ---------- One round, as code ----------

  /** What became of a submission by the time the actor is read again. A failure ends the round. */
  datatype Fate = Executed | Waiting | Failed

  function CountExecuted(fates: seq<Fate>): (n: nat)
    ensures n <= |fates|
    ensures (forall i :: 0 <= i < |fates| ==> fates[i].Executed?) ==> n == |fates|
  {
    if fates == [] then 0 else
      CountExecuted(fates[..|fates| - 1]) + (if fates[|fates| - 1].Executed? then 1 else 0)
  }

  lemma ExecutedMore(fates: seq<Fate>, n: nat)
    requires n < |fates|
    ensures CountExecuted(fates[..n + 1]) == CountExecuted(fates[..n]) + (if fates[n].Executed? then 1 else 0)
  {
    assert fates[..n + 1][..n] == fates[..n];
  }

  /** None of the first `n` submissions failed. */
  predicate NoneFailed(fates: seq<Fate>, n: nat) {
    forall i :: 0 <= i < n && i < |fates| ==> !fates[i].Failed?
  }

  /** Each submission is for the period after the last one executed by then, and not past the head. */
  ghost predicate OnSchedule(head: nat, lastExecuted: nat, period: nat, fates: seq<Fate>, submitted: seq<nat>) {
    && |submitted| <= |fates|
    && forall i :: 0 <= i < |submitted| ==>
         submitted[i] == Periods(lastExecuted, period, CountExecuted(fates[..i]) + 1) <= head
  }

  lemma ScheduleStarts(head: nat, lastExecuted: nat, period: nat, fates: seq<Fate>)
    ensures OnSchedule(head, lastExecuted, period, fates, [])
    ensures lastExecuted == Periods(lastExecuted, period, CountExecuted(fates[..0]))
  {
  }

  lemma ScheduleMore(head: nat, lastExecuted: nat, period: nat, fates: seq<Fate>, submitted: seq<nat>, last: nat)
    requires OnSchedule(head, lastExecuted, period, fates, submitted) && |submitted| < |fates|
    requires last == Periods(lastExecuted, period, CountExecuted(fates[..|submitted|])) && last + period <= head
    ensures OnSchedule(head, lastExecuted, period, fates, submitted + [last + period])
    ensures Periods(lastExecuted, period, CountExecuted(fates[..|submitted| + 1]))
         == if fates[|submitted|].Executed? then last + period else last
  {
    ExecutedMore(fates, |submitted|);
  }

  /**
   One round for a managed validator while the child's head stands still: the submission that is
   due and then the loop that catches up, observed for at most `|fates|` submissions. It ends with
   a failure or with nothing due; until then an epoch is submitted until it is executed.
   */
  method ServeAccount(head: nat, lastExecuted: nat, period: nat, fates: seq<Fate>)
    returns (submitted: seq<nat>, last: nat)
    ensures OnSchedule(head, lastExecuted, period, fates, submitted)
    ensures last == Periods(lastExecuted, period, CountExecuted(fates[..|submitted|]))
    ensures submitted != [] ==> NoneFailed(fates, |submitted| - 1)
    ensures |submitted| < |fates| ==>
      head < last + period || (submitted != [] && fates[|submitted| - 1].Failed?)
  {
    hide Periods, CountExecuted;
    ScheduleStarts(head, lastExecuted, period, fates);
    submitted, last := [], lastExecuted;
    if fates == [] || head < last + period {
      return;
    }
    ScheduleMore(head, lastExecuted, period, fates, submitted, last);
    submitted := submitted + [last + period];
    if fates[0].Failed? {
      return;
    }
    if fates[0].Executed? {
      last := last + period;
    }
    while |submitted| < |fates|
      invariant OnSchedule(head, lastExecuted, period, fates, submitted)
      invariant submitted != [] && NoneFailed(fates, |submitted|)
      invariant last == Periods(lastExecuted, period, CountExecuted(fates[..|submitted|]))
      decreases |fates| - |submitted|
    {
      var submissionEpoch := last + period;
      if head < submissionEpoch {
        break;
      }
      ScheduleMore(head, lastExecuted, period, fates, submitted, last);
      var fate := fates[|submitted|];
      submitted := submitted + [submissionEpoch];
      if fate.Failed? {
        break;
      }
      if fate.Executed? {
        last := submissionEpoch;
      }
    }
  }

  lemma AllExecuted(fates: seq<Fate>, i: nat)
    requires i <= |fates| && forall j :: 0 <= j < |fates| ==> fates[j].Executed?
    ensures CountExecuted(fates[..i]) == i
  {
  }

  /**
   When each submission is executed, one round submits exactly as many checkpoints as there are
   whole periods of lag, at consecutive epochs, and leaves less than a period of lag.
   */
  method CatchUp(head: nat, lastExecuted: nat, period: nat) returns (submitted: seq<nat>, last: nat)
    requires period > 0
    ensures |submitted| == if head < lastExecuted then 0 else (head - lastExecuted) / period
    ensures forall i :: 0 <= i < |submitted| ==> submitted[i] == lastExecuted + (i + 1) * period
    ensures last == lastExecuted + |submitted| * period
    ensures head < last + period
  {
    hide Periods, CountExecuted;
    var fates := seq(head + 1, _ => Executed);
    submitted, last := ServeAccount(head, lastExecuted, period, fates);
    var k := |submitted|;
    forall i | 0 <= i <= k
      ensures CountExecuted(fates[..i]) == i && Periods(lastExecuted, period, i) == lastExecuted + i * period
    {
      AllExecuted(fates, i);
      PeriodsIs(lastExecuted, period, i);
    }
    PeriodsGrow(lastExecuted, period, k);
    assert k > 0 ==> submitted[k - 1] == Periods(lastExecuted, period, k);
    PeriodsThatFit(head, lastExecuted, period, k);
  }
}
