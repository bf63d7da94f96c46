/**
 When the membership behaviour gossips its own record: a periodic timer that new peers may bring
 forward, under a minimum time between publications. Times are whole seconds of one clock.
 */
module PublishTimer {
  import opened Primitives

  /** `deadline` is when the interval fires next; `last` and `next` are the code's own bookkeeping. */
  datatype Timer = Timer(period: nat, minGap: nat, last: Timestamp, next: Timestamp, deadline: nat)

  function New(period: nat, minGap: nat, now: Timestamp): Timer {
    Timer(period, minGap, 0, Later(now, period), now + period)
  }

  datatype Event =
    | Published                     // our record went out, by schedule or because it changed
    | TickFailed                    // the interval fired but publishing failed
    | NewPeer(hasSubnets: bool)     // a peer became routable, subscribed, or was first heard from

  /** A new peer brings the publication forward unless one was recent or is near. */
  predicate Reschedules(tm: Timer, now: Timestamp, e: Event) {
    && e.NewPeer? && e.hasSubnets
    && tm.last <= Earlier(now, tm.minGap)
    && tm.next > Later(now, tm.minGap)
  }

  function Step(tm: Timer, now: Timestamp, e: Event): Timer {
    match e
    case Published => tm.(last := now, next := Later(now, tm.period), deadline := now + tm.period)
    case TickFailed => tm.(deadline := tm.deadline + tm.period)
    case NewPeer(_) =>
      if Reschedules(tm, now, e) then tm.(next := Later(now, tm.minGap), deadline := now + tm.minGap) else tm
  }

  /** Events at non-decreasing times after the epoch; the interval does not fire before its deadline. */
  predicate Run(timers: seq<Timer>, times: seq<Timestamp>, events: seq<Event>) {
    && |timers| == |events| + 1 == |times|
    && 0 < times[0]
    && timers[0] == New(timers[0].period, timers[0].minGap, times[0])
    && (forall i {:trigger events[i]} :: 0 <= i < |events| ==>
          && times[i] <= times[i + 1]
          && timers[i + 1] == Step(timers[i], times[i + 1], events[i])
          && (events[i].TickFailed? ==> timers[i].deadline <= times[i + 1]))
  }

  /** What holds of the timer at any time; the pace is owed only once something was published. */
  ghost predicate Inv(tm: Timer, now: Timestamp) {
    && 0 < now
    && tm.next <= tm.deadline
    && tm.last <= now
    && (tm.last > 0 ==> tm.deadline >= tm.last + (if tm.period <= 2 * tm.minGap then tm.period else 2 * tm.minGap))
  }

  lemma InvAfter(tm: Timer, now: Timestamp, later: Timestamp, e: Event)
    requires Inv(tm, now) && now <= later
    ensures Inv(Step(tm, later, e), later)
    ensures Reschedules(tm, later, e) ==> Step(tm, later, e).deadline < tm.deadline
  {
  }

  lemma {:induction false} InvHolds(timers: seq<Timer>, times: seq<Timestamp>, events: seq<Event>, i: nat)
    requires Run(timers, times, events) && i <= |events|
    ensures Inv(timers[i], times[i])
    ensures timers[i].period == timers[0].period && timers[i].minGap == timers[0].minGap
  {
    if i > 0 {
      InvHolds(timers, times, events, i - 1);
      var e := events[i - 1];
      InvAfter(timers[i - 1], times[i - 1], times[i], e);
    }
  }

  lemma {:induction false} TimesOrdered(timers: seq<Timer>, times: seq<Timestamp>, events: seq<Event>, i: nat, j: nat)
    requires Run(timers, times, events) && i <= j < |times|
    ensures times[i] <= times[j]
  {
    if i < j {
      TimesOrdered(timers, times, events, i, j - 1);
      var e := events[j - 1];
    }
  }

  /** The code's idea of the next publication is never later than the timer, so a reschedule only brings it forward. */
  lemma RescheduleBringsForward(timers: seq<Timer>, times: seq<Timestamp>, events: seq<Event>, i: nat)
    requires Run(timers, times, events) && i < |events|
    ensures timers[i].next <= timers[i].deadline
    ensures Reschedules(timers[i], times[i + 1], events[i]) ==> timers[i + 1].deadline < timers[i].deadline
    ensures events[i].NewPeer? ==> timers[i + 1].deadline <= timers[i].deadline
  {
    InvHolds(timers, times, events, i);
    InvAfter(timers[i], times[i], times[i + 1], events[i]);
  }

  /** After a reschedule, the next publication stays near until one succeeds. */
  lemma {:induction false} NearUntilPublished(
    timers: seq<Timer>, times: seq<Timestamp>, events: seq<Event>, i: nat, j: nat)
    requires Run(timers, times, events) && i < j <= |events|
    requires Reschedules(timers[i], times[i + 1], events[i])
    requires forall k :: i < k < j ==> !events[k].Published?
    ensures timers[j].next <= Later(times[j], timers[j].minGap)
    ensures timers[j].minGap == timers[0].minGap
  {
    InvHolds(timers, times, events, j);
    InvHolds(timers, times, events, j - 1);
    assert timers[j] == Step(timers[j - 1], times[j], events[j - 1]) && times[j - 1] <= times[j];
    if i + 1 < j {
      NearUntilPublished(timers, times, events, i, j - 1);
    }
  }

  /** New peers cannot keep moving the timer: between two reschedules a publication has succeeded. */
  lemma OneReschedulePerPublication(
    timers: seq<Timer>, times: seq<Timestamp>, events: seq<Event>, i: nat, j: nat)
    requires Run(timers, times, events) && i < j < |events|
    requires Reschedules(timers[i], times[i + 1], events[i])
    requires Reschedules(timers[j], times[j + 1], events[j])
    ensures exists k :: i < k < j && events[k].Published?
  {
    if forall k :: i < k < j ==> !events[k].Published? {
      NearUntilPublished(timers, times, events, i, j);
      assert false;
    }
  }

  lemma {:induction false} LastUntilPublished(
    timers: seq<Timer>, times: seq<Timestamp>, events: seq<Event>, i: nat, j: nat)
    requires Run(timers, times, events) && i < j <= |events|
    requires events[i].Published?
    requires forall k :: i < k < j ==> !events[k].Published?
    ensures timers[j].last == times[i + 1]
  {
    assert timers[j] == Step(timers[j - 1], times[j], events[j - 1]) && times[j - 1] <= times[j];
    if i + 1 < j {
      LastUntilPublished(timers, times, events, i, j - 1);
    }
  }

  /**
   Once a publication has succeeded, the timer leaves at least the period, or twice the minimum gap
   if that is shorter, before it fires again, whatever peers arrive and whatever fails.
   */
  lemma PublicationsAreSpaced(timers: seq<Timer>, times: seq<Timestamp>, events: seq<Event>, i: nat, j: nat)
    requires Run(timers, times, events) && i < j <= |events|
    requires events[i].Published?
    requires forall k :: i < k < j ==> !events[k].Published?
    ensures var pace := if timers[0].period <= 2 * timers[0].minGap then timers[0].period else 2 * timers[0].minGap;
      timers[j].deadline >= times[i + 1] + pace
  {
    LastUntilPublished(timers, times, events, i, j);
    InvHolds(timers, times, events, j);
    TimesOrdered(timers, times, events, 0, i + 1);
  }

  // ---------- What the timer owes ----------

  /** A publication succeeded, before the i-th event, within the last `gap` seconds. */
  ghost predicate SuccessWithin(times: seq<Timestamp>, events: seq<Event>, i: nat, now: Timestamp, gap: nat)
    requires i <= |events| < |times|
  {
    exists k :: 0 <= k < i && events[k].Published? && now < times[k + 1] + gap
  }

  /** The bookkeeping holds the time of the last success, or 0 if there was none. */
  lemma {:induction false} LastIsLastSuccess(timers: seq<Timer>, times: seq<Timestamp>, events: seq<Event>, i: nat)
    requires Run(timers, times, events) && i <= |events|
    ensures timers[i].last > 0 ==> exists k :: 0 <= k < i && events[k].Published? && times[k + 1] == timers[i].last
    ensures forall k :: 0 <= k < i && events[k].Published? ==> 0 < times[k + 1] <= timers[i].last
  {
    if i > 0 {
      LastIsLastSuccess(timers, times, events, i - 1);
      InvHolds(timers, times, events, i - 1);
      var e := events[i - 1];
      assert timers[i] == Step(timers[i - 1], times[i], e) && times[i - 1] <= times[i];
      if e.Published? {
        assert times[(i - 1) + 1] == timers[i].last;
      }
    }
  }

  lemma RecentIff(timers: seq<Timer>, times: seq<Timestamp>, events: seq<Event>, i: nat, now: Timestamp, gap: nat)
    requires Run(timers, times, events) && i <= |events|
    ensures Earlier(now, gap) < timers[i].last <==> SuccessWithin(times, events, i, now, gap)
  {
    var last := timers[i].last;
    LastIsLastSuccess(timers, times, events, i);
    SaturationShowsIff(now, gap, last);
    if last > 0 {
      var k :| 0 <= k < i && events[k].Published? && times[k + 1] == last;
    }
  }

  /**
   A new peer moves the timer exactly if we have subnets to tell of, no publication succeeded
   within the minimum gap, and the next one is further away than that. It is then due after the gap.
   */
  lemma NewPeerMovesTimerIff(timers: seq<Timer>, times: seq<Timestamp>, events: seq<Event>, i: nat)
    requires Run(timers, times, events) && i < |events| && events[i].NewPeer?
    ensures var tm, tm', now, gap := timers[i], timers[i + 1], times[i + 1], timers[i].minGap;
      && (tm' != tm <==> events[i].hasSubnets && !SuccessWithin(times, events, i, now, gap) && now + gap < tm.next)
      && (tm' != tm ==> tm' == tm.(next := now + gap, deadline := now + gap))
  {
    var tm, now, gap := timers[i], times[i + 1], timers[i].minGap;
    RecentIff(timers, times, events, i, now, gap);
    SaturationShowsIff(now, gap, tm.next);
    assert timers[i + 1] == Step(tm, now, events[i]);
  }

  /** With subnets and without a recent success, a new peer hears of us within the gap, if no tick has failed. */
  lemma NewPeerHearsSoon(timers: seq<Timer>, times: seq<Timestamp>, events: seq<Event>, i: nat)
    requires Run(timers, times, events) && i < |events| && events[i] == NewPeer(true)
    requires !SuccessWithin(times, events, i, times[i + 1], timers[i].minGap)
    ensures var tm', due := timers[i + 1], times[i + 1] + timers[i].minGap;
      && tm'.next <= due
      && ((forall k :: 0 <= k < i ==> !events[k].TickFailed?) ==> tm'.deadline <= due || U64_MAX <= due)
  {
    NewPeerMovesTimerIff(timers, times, events, i);
    if forall k :: 0 <= k < i ==> !events[k].TickFailed? {
      DeadlineIsNext(timers, times, events, 0, i);
    }
  }

  /** The same, counting failures only since the last success. */
  lemma NewPeerHearsSoonAfterSuccess(timers: seq<Timer>, times: seq<Timestamp>, events: seq<Event>, b: nat, i: nat)
    requires Run(timers, times, events) && b < i < |events| && events[b].Published? && events[i] == NewPeer(true)
    requires !SuccessWithin(times, events, i, times[i + 1], timers[i].minGap)
    requires forall k :: b < k < i ==> !events[k].TickFailed?
    ensures var tm', due := timers[i + 1], times[i + 1] + timers[i].minGap;
      tm'.next <= due && (tm'.deadline <= due || U64_MAX <= due)
  {
    NewPeerMovesTimerIff(timers, times, events, i);
    DeadlineIsNext(timers, times, events, b + 1, i);
  }

  /** Without failed ticks, the bookkeeping and the timer agree, as far as the clock goes. */
  lemma {:induction false} DeadlineIsNext(
    timers: seq<Timer>, times: seq<Timestamp>, events: seq<Event>, b: nat, i: nat)
    requires Run(timers, times, events) && b <= i <= |events|
    requires b == 0 || events[b - 1].Published?
    requires forall k :: b <= k < i ==> !events[k].TickFailed?
    ensures timers[i].next == Min(timers[i].deadline, U64_MAX)
  {
    if i > 0 {
      var e := events[i - 1];
      assert timers[i] == Step(timers[i - 1], times[i], e);
      if b < i {
        DeadlineIsNext(timers, times, events, b, i - 1);
      }
    }
  }

  /** In every run the timer is never more than a period away. */
  lemma {:induction false} WithinAPeriod(timers: seq<Timer>, times: seq<Timestamp>, events: seq<Event>, i: nat)
    requires Run(timers, times, events) && i <= |events|
    ensures timers[i].deadline <= times[i] + timers[0].period
  {
    InvHolds(timers, times, events, i);
    if i > 0 {
      WithinAPeriod(timers, times, events, i - 1);
      InvHolds(timers, times, events, i - 1);
      var e := events[i - 1];
      assert timers[i] == Step(timers[i - 1], times[i], e);
    }
  }

  // ---------- The deadline, from the history alone ----------

  /** How many ticks failed from the b-th event on. */
  function Failures(events: seq<Event>, b: nat, i: nat): nat
    requires b <= i <= |events|
  {
    if b == i then 0 else Failures(events, b, i - 1) + (if events[i - 1].TickFailed? then 1 else 0)
  }

  /** The timer was set just before the b-th event: at the start, by a success, or by a new peer that moved it. */
  predicate IsSet(timers: seq<Timer>, events: seq<Event>, b: int)
    requires |timers| == |events| + 1
  {
    && 0 <= b <= |events|
    && (b == 0 || events[b - 1].Published? || (events[b - 1].NewPeer? && timers[b] != timers[b - 1]))
  }

  function FirstDue(timers: seq<Timer>, times: seq<Timestamp>, events: seq<Event>, b: nat): nat
    requires |timers| == |events| + 1 == |times| && b <= |events|
  {
    times[b] + if b > 0 && events[b - 1].NewPeer? then timers[0].minGap else timers[0].period
  }

  /**
   In every run the deadline is one period, or the gap, after the timer was last set, and a period
   later for each tick that failed since.
   */
  lemma {:induction false} DeadlineFollowsHistory(
    timers: seq<Timer>, times: seq<Timestamp>, events: seq<Event>, i: nat) returns (b: nat)
    requires Run(timers, times, events) && i <= |events|
    ensures b <= i && IsSet(timers, events, b) && forall k :: b < k <= i ==> !IsSet(timers, events, k)
    ensures timers[i].deadline == FirstDue(timers, times, events, b) + Failures(events, b, i) * timers[0].period
  {
    InvHolds(timers, times, events, i);
    b := i;
    if !IsSet(timers, events, i) {
      var e := events[i - 1];
      assert timers[i] == Step(timers[i - 1], times[i], e);
      InvHolds(timers, times, events, i - 1);
      b := DeadlineFollowsHistory(timers, times, events, i - 1);
      MultiplesApart(timers[0].period, Failures(events, b, i - 1), 0);
    } else if i > 0 {
      var e := events[i - 1];
      assert timers[i] == Step(timers[i - 1], times[i], e);
      if e.NewPeer? {
        NewPeerMovesTimerIff(timers, times, events, i - 1);
        InvHolds(timers, times, events, i - 1);
      }
    }
  }
}
