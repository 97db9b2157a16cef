/** The login throttle when calls overlap: the handler releases the throttle between its check and
    its record, and records with the time of its check (src/web.rs). */
module OverlappingLogins {
  import opened Text
  import opened Throttle

  /** The calls that have been admitted and not recorded yet, each with the time of its check. */
  datatype System = System(throttle: State, inFlight: map<int, nat>)

  datatype Event = Begin(call: int, time: nat) | Finish(call: int, correct: bool)

  const START := System(INITIAL, map[])

  /** The check lets the call try its password. */
  predicate Admits(s: System, e: Event) {
    e.Begin? && e.call !in s.inFlight && !IsBlocked(s.throttle, e.time)
  }

  predicate Succeeds(s: System, e: Event) {
    e.Finish? && e.call in s.inFlight && e.correct
  }

  function Step(s: System, e: Event): System {
    match e
    case Begin(call, time) =>
      if call in s.inFlight then s
      else
        var checked := Checked(s.throttle, time);
        System(checked, if IsBlocked(s.throttle, time) then s.inFlight else s.inFlight[call := time])
    case Finish(call, correct) =>
      if call !in s.inFlight then s
      else System(Recorded(s.throttle, correct, s.inFlight[call]), s.inFlight - {call})
  }

  /** The trial of a password that an event begins, by its time. */
  function Tried(s: System, e: Event): seq<nat> { if Admits(s, e) then [e.time] else [] }

  /** The latest check, after an event. */
  function Later(now: nat, e: Event): nat { if e.Begin? then e.time else now }

  function Run(s: System, events: seq<Event>): System
    decreases |events|
  {
    if events == [] then s else Run(Step(s, events[0]), events[1..])
  }

  function TimeAfter(now: nat, events: seq<Event>): nat
    decreases |events|
  {
    if events == [] then now else TimeAfter(Later(now, events[0]), events[1..])
  }

  /** The passwords that a run tries, by the times of their checks. */
  function Trials(s: System, events: seq<Event>): seq<nat>
    decreases |events|
  {
    if events == [] then [] else Tried(s, events[0]) + Trials(Step(s, events[0]), events[1..])
  }

  /** The clock never runs backwards, has left its first minute and stays one block away from the
      largest 64-bit value. */
  predicate InTime(now: nat, e: Event) {
    e.Begin? ==> now <= e.time && WINDOW <= e.time && e.time + BLOCK <= U64_MAX
  }

  /** At most `m` calls are ever in flight. */
  ghost predicate Orderly(m: nat, s: System, now: nat, events: seq<Event>)
    decreases |events|
  {
    && |s.inFlight| <= m
    && (events != [] ==> InTime(now, events[0]) && Orderly(m, Step(s, events[0]), Later(now, events[0]), events[1..]))
  }

  ghost predicate NoneSucceeds(s: System, events: seq<Event>)
    decreases |events|
  {
    events != [] ==> !Succeeds(s, events[0]) && NoneSucceeds(Step(s, events[0]), events[1..])
  }

  ghost function TriedDuring(log: seq<nat>, start: nat, end: nat): set<int> {
    set i | 0 <= i < |log| && start <= log[i] < end
  }

  lemma {:induction false} OrderlySplit(m: nat, s: System, now: nat, before: seq<Event>, rest: seq<Event>)
    requires Orderly(m, s, now, before + rest)
    ensures Orderly(m, s, now, before)
    ensures Orderly(m, Run(s, before), TimeAfter(now, before), rest)
    decreases |before|
  {
    if before == [] {
      assert before + rest == rest;
      OrderlySize(m, s, now, rest);
    } else {
      assert (before + rest)[0] == before[0] && (before + rest)[1..] == before[1..] + rest;
      OrderlySplit(m, Step(s, before[0]), Later(now, before[0]), before[1..], rest);
    }
  }

  lemma OrderlySize(m: nat, s: System, now: nat, events: seq<Event>)
    requires Orderly(m, s, now, events)
    ensures |s.inFlight| <= m
  {}

  // ---------- what one minute can hold ----------

  /** How many calls `early` stragglers can still let in, one straggler after the other: when one
      finishes, as many as fit in flight beside the remaining ones. */
  function Reopened(m: nat, early: nat): nat
    requires early <= m
  {
    if early == 0 then 0 else Reopened(m, early - 1) + (m - (early - 1))
  }

  /** The trials of one full window: seven failures and 1 + 2 + ... + m. */
  function Cap(m: nat): nat { LIMIT - 1 + Reopened(m, m) }

  /** A lone call cannot open the throttle for itself: with one call in flight one trial less. */
  function Slack(m: nat): nat { if m == 1 then 1 else 0 }

  function Allowance(m: nat, minutes: nat): nat {
    if minutes == 0 then 0 else Allowance(m, minutes - 1) + Cap(m)
  }

  /** The most passwords that can be tried in `k` minutes with at most `m` calls in flight. */
  function Most(m: nat, k: nat): nat { Allowance(m, k) + LIMIT - 1 - Slack(m) }

  lemma {:induction false} MostIs(m: nat, k: nat)
    ensures Most(m, k) == k * (7 + m * (m + 1) / 2) + 7 - Slack(m)
  {
    AllowanceIs(m, k, Cap(m));
    CapIs(m);
  }

  lemma {:induction false} AllowanceIs(m: nat, k: nat, cap: nat)
    requires cap == Cap(m)
    ensures Allowance(m, k) == k * cap
  {
    if k > 0 {
      AllowanceIs(m, k - 1, cap);
      OneMore(k - 1, cap);
    }
  }

  lemma OneMore(n: nat, cap: nat)
    ensures (n + 1) * cap == n * cap + cap
  {}

  lemma {:induction false} AllowanceGrows(m: nat, i: nat, k: nat)
    requires i <= k
    ensures Allowance(m, i) <= Allowance(m, k)
    decreases k
  {
    if i < k {
      AllowanceGrows(m, i, k - 1);
    }
  }

  /** The calls in flight that began at `mark` or later, and the stragglers from before. */
  ghost function Late(inFlight: map<int, nat>, mark: nat): set<int> {
    set c | c in inFlight && inFlight[c] >= mark
  }

  ghost function Early(inFlight: map<int, nat>, mark: nat): set<int> {
    set c | c in inFlight && inFlight[c] < mark
  }

  /** What the failures of a window that was open before the minute began are worth. */
  function Worth(m: nat, failures: nat): nat {
    if failures == 0 then 0 else failures - Slack(m)
  }

  /** The budget of trials of one minute that starts at a mark; `base` is the allowance of the
      minutes before. Until a window opens in the minute, each trial needs a failure or a call in
      flight, up to the eighth failure. Then trials are possible only while the last failure was a
      straggler's, whose block ends within the minute: every straggler can reopen the throttle
      once. A window that opens in the minute allows its own failures on top. */
  predicate Budget(
    m: nat, base: nat, tried: nat, late: nat, early: nat, failures: nat, renewed: bool, open: bool)
  {
    && late + early <= m
    && var room, allowed := m - early - late, base + Cap(m) - Slack(m);
    && if failures < LIMIT then
         if renewed then tried + Reopened(m, early) + room <= allowed + failures
         else tried <= base + Worth(m, failures) + late
       else
         tried + Reopened(m, early) + (if open then room else 0) <= allowed + if renewed then LIMIT - 1 else 0
  }

  lemma {:induction false} ReopenedGrows(m: nat, early: nat, all: nat)
    requires early <= all <= m
    ensures Reopened(m, early) <= Reopened(m, all)
    decreases all
  {
    if early < all {
      ReopenedGrows(m, early, all - 1);
    }
  }

  lemma {:induction false} ReopenedSum(m: nat, early: nat)
    requires early <= m
    ensures 2 * Reopened(m, early) == early * (2 * m - early + 1)
  {
    if early > 0 {
      ReopenedSum(m, early - 1);
      assert (early - 1) * (2 * m - early + 2) + 2 * (m - early + 1) == early * (2 * m - early + 1);
    }
  }

  lemma CapIs(m: nat)
    ensures Cap(m) == 7 + m * (m + 1) / 2
  {
    ReopenedSum(m, m);
  }

  lemma ReopenedFits(m: nat, early: nat)
    requires early <= m
    ensures Reopened(m, early) + (m - early) <= Cap(m) - (LIMIT - 1)
    ensures m <= Cap(m) - (LIMIT - 1)
  {
    ReopenedGrows(m, if early < m then early + 1 else m, m);
    if m > 0 {
      ReopenedGrows(m, 1, m);
    }
  }

  lemma NothingTried(m: nat, base: nat, late: nat, early: nat, failures: nat, renewed: bool, open: bool)
    requires late + early <= m
    ensures Budget(m, base, 0, late, early, failures, renewed, open)
  {
    ReopenedFits(m, early);
  }

  lemma BudgetIsCapped(
    m: nat, base: nat, tried: nat, late: nat, early: nat, failures: nat, renewed: bool, open: bool)
    requires Budget(m, base, tried, late, early, failures, renewed, open)
    ensures tried <= base + Cap(m) + LIMIT - 1 - Slack(m)
  {
    ReopenedFits(m, early);
  }

  lemma TrialKeepsBudget(
    m: nat, base: nat, tried: nat, late: nat, early: nat, failures: nat, renewed: bool, open: bool)
    requires Budget(m, base, tried, late, early, failures, renewed, open)
    requires (failures >= LIMIT ==> open) && late + 1 + early <= m
    ensures Budget(m, base, tried + 1, late + 1, early, failures, renewed, open)
  {}

  lemma RenewalKeepsBudget(
    m: nat, base: nat, tried: nat, late: nat, early: nat, failures: nat, open: bool, reopened: bool)
    requires Budget(m, base, tried, late, early, failures, false, open)
    requires (failures >= LIMIT ==> open) && late + 1 + early <= m
    ensures Budget(m, base, tried + 1, late + 1, early, 0, true, reopened)
  {
    ReopenedFits(m, early);
  }

  lemma LateFailureKeepsBudget(
    m: nat, base: nat, tried: nat, late: nat, early: nat, failures: nat, renewed: bool, open: bool, reopened: bool)
    requires late >= 1 && Budget(m, base, tried, late, early, failures, renewed, open)
    requires (failures + 1 >= LIMIT ==> !reopened) && (m == 1 && failures == 0 ==> renewed)
    ensures Budget(m, base, tried, late - 1, early, failures + 1, renewed, reopened)
  {
    ReopenedFits(m, early);
  }

  lemma EarlyFailureKeepsBudget(
    m: nat, base: nat, tried: nat, late: nat, early: nat, failures: nat, renewed: bool, open: bool, reopened: bool)
    requires early >= 1 && Budget(m, base, tried, late, early, failures, renewed, open)
    ensures Budget(m, base, tried, late, early - 1, failures + 1, renewed, reopened)
  {
    ReopenedFits(m, early);
  }

  lemma MinuteEnds(
    m: nat, base: nat, tried: nat, late: nat, early: nat, failures: nat, renewed: bool, open: bool, reopened: bool)
    requires Budget(m, base, tried, late, early, failures, renewed, open)
    ensures Budget(m, base + Cap(m), tried, 0, late + early, failures, false, reopened)
  {
    ReopenedFits(m, early);
    ReopenedFits(m, late + early);
  }

  // ---------- what every state satisfies ----------

  ghost predicate FlightOk(inFlight: map<int, nat>, now: nat) {
    forall c :: c in inFlight ==> WINDOW <= inFlight[c] <= now
  }

  /** A window without failures is new, or the lone call in flight has just opened it. */
  ghost predicate Lone(m: nat, s: System) {
    m == 1 && s.throttle.failures == 0 ==>
      && (s.inFlight == map[] ==> s.throttle.windowStart == 0)
      && forall c :: c in s.inFlight ==> s.inFlight[c] == s.throttle.windowStart
  }

  ghost predicate Sound(m: nat, s: System, now: nat) {
    && FlightOk(s.inFlight, now) && |s.inFlight| <= m && s.throttle.windowStart <= now && now + BLOCK <= U64_MAX
    && Lone(m, s)
  }

  lemma OneCall(inFlight: map<int, nat>, call: int)
    requires call in inFlight && |inFlight| <= 1
    ensures inFlight.Keys == {call}
  {
    assert |inFlight.Keys - {call}| == |inFlight| - 1;
  }

  lemma StepKeepsLone(m: nat, s: System, e: Event)
    requires Lone(m, s) && |s.inFlight| <= m && |Step(s, e).inFlight| <= m && (e.Begin? ==> WINDOW <= e.time)
    ensures Lone(m, Step(s, e))
  {
    if m == 1 && Admits(s, e) {
      OneCall(Step(s, e).inFlight, e.call);
      assert s.inFlight == map[];
    } else if m == 1 && e.Finish? && e.call in s.inFlight {
      OneCall(s.inFlight, e.call);
      assert Step(s, e).inFlight == map[];
    }
  }

  lemma StepKeepsSound(m: nat, s: System, now: nat, e: Event)
    requires Sound(m, s, now) && InTime(now, e) && |Step(s, e).inFlight| <= m
    ensures Sound(m, Step(s, e), Later(now, e))
  {
    StepKeepsLone(m, s, e);
  }

  lemma {:induction false} RunKeepsSound(m: nat, s: System, now: nat, events: seq<Event>)
    requires Sound(m, s, now) && Orderly(m, s, now, events)
    ensures Sound(m, Run(s, events), TimeAfter(now, events))
    decreases |events|
  {
    if events != [] {
      var next, later := Step(s, events[0]), Later(now, events[0]);
      OrderlySize(m, next, later, events[1..]);
      StepKeepsSound(m, s, now, events[0]);
      RunKeepsSound(m, next, later, events[1..]);
    }
  }

  // ---------- the budget along a run ----------

  /** The state keeps the budget of the minute that starts at `mark`. */
  ghost predicate Minute(m: nat, s: System, tried: nat, mark: nat, base: nat) {
    Budget(m, base, tried, |Late(s.inFlight, mark)|, |Early(s.inFlight, mark)|, s.throttle.failures,
           s.throttle.windowStart >= mark, s.throttle.blockedUntil < mark + WINDOW)
  }

  lemma FlightSizes(inFlight: map<int, nat>, w: nat)
    ensures |Late(inFlight, w)| + |Early(inFlight, w)| == |inFlight|
  {
    assert Late(inFlight, w) + Early(inFlight, w) == inFlight.Keys;
    assert Late(inFlight, w) * Early(inFlight, w) == {};
  }

  lemma FlightAfterBegin(inFlight: map<int, nat>, call: int, time: nat, w: nat)
    requires call !in inFlight && time >= w
    ensures |Late(inFlight[call := time], w)| == |Late(inFlight, w)| + 1
    ensures |Early(inFlight[call := time], w)| == |Early(inFlight, w)|
  {
    assert Late(inFlight[call := time], w) == Late(inFlight, w) + {call};
    assert Early(inFlight[call := time], w) == Early(inFlight, w);
  }

  lemma FlightAfterFinish(inFlight: map<int, nat>, call: int, w: nat)
    requires call in inFlight
    ensures |Late(inFlight - {call}, w)| == |Late(inFlight, w)| - (if inFlight[call] >= w then 1 else 0)
    ensures |Early(inFlight - {call}, w)| == |Early(inFlight, w)| - (if inFlight[call] < w then 1 else 0)
  {
    if inFlight[call] >= w {
      assert Late(inFlight, w) == Late(inFlight - {call}, w) + {call};
      assert Early(inFlight, w) == Early(inFlight - {call}, w);
    } else {
      assert Early(inFlight, w) == Early(inFlight - {call}, w) + {call};
      assert Late(inFlight, w) == Late(inFlight - {call}, w);
    }
  }

  lemma MinuteOfNothing(m: nat, s: System, mark: nat, base: nat)
    requires |s.inFlight| <= m
    ensures Minute(m, s, 0, mark, base)
  {
    FlightSizes(s.inFlight, mark);
    NothingTried(m, base, |Late(s.inFlight, mark)|, |Early(s.inFlight, mark)|, s.throttle.failures,
                 s.throttle.windowStart >= mark, s.throttle.blockedUntil < mark + WINDOW);
  }

  lemma MinuteIsCapped(m: nat, s: System, tried: nat, mark: nat, i: nat, k: nat)
    requires Minute(m, s, tried, mark, Allowance(m, i)) && i < k
    ensures tried <= Most(m, k)
  {
    BudgetIsCapped(m, Allowance(m, i), tried, |Late(s.inFlight, mark)|, |Early(s.inFlight, mark)|,
                   s.throttle.failures, s.throttle.windowStart >= mark, s.throttle.blockedUntil < mark + WINDOW);
    AllowanceGrows(m, i + 1, k);
  }

  lemma NoneLate(inFlight: map<int, nat>, mark: nat)
    requires forall c :: c in inFlight ==> inFlight[c] < mark
    ensures |Late(inFlight, mark)| == 0 && |Early(inFlight, mark)| == |inFlight|
  {
    forall c ensures c !in Late(inFlight, mark) {}
    assert Late(inFlight, mark) == {};
    FlightSizes(inFlight, mark);
  }

  lemma NextMinute(m: nat, s: System, tried: nat, mark: nat, base: nat, now: nat)
    requires Minute(m, s, tried, mark, base) && Sound(m, s, now) && now < mark + WINDOW
    ensures Minute(m, s, tried, mark + WINDOW, base + Cap(m))
  {
    var next := mark + WINDOW;
    FlightSizes(s.inFlight, mark);
    NoneLate(s.inFlight, next);
    MinuteEnds(m, base, tried, |Late(s.inFlight, mark)|, |Early(s.inFlight, mark)|, s.throttle.failures,
               s.throttle.windowStart >= mark, s.throttle.blockedUntil < next, s.throttle.blockedUntil < next + WINDOW);
  }

  lemma {:induction false} LaterMinute(m: nat, s: System, tried: nat, start: nat, i: nat, j: nat, now: nat)
    requires i <= j && Sound(m, s, now) && now < start + WINDOW * (i + 1)
    requires Minute(m, s, tried, start + WINDOW * i, Allowance(m, i))
    ensures Minute(m, s, tried, start + WINDOW * j, Allowance(m, j))
    decreases j
  {
    if i < j {
      LaterMinute(m, s, tried, start, i, j - 1, now);
      NextMinute(m, s, tried, start + WINDOW * (j - 1), Allowance(m, j - 1), now);
    }
  }

  /** A call that begins in the minute. */
  lemma BeginKeepsMinute(m: nat, s: System, tried: nat, mark: nat, base: nat, e: Event)
    requires Minute(m, s, tried, mark, base) && e.Begin? && mark <= e.time < mark + WINDOW
    requires |Step(s, e).inFlight| <= m && s.throttle.windowStart <= e.time
    ensures Minute(m, Step(s, e), tried + |Tried(s, e)|, mark, base)
  {
    if Admits(s, e) {
      var late, early := |Late(s.inFlight, mark)|, |Early(s.inFlight, mark)|;
      var failures, open := s.throttle.failures, s.throttle.blockedUntil < mark + WINDOW;
      FlightAfterBegin(s.inFlight, e.call, e.time, mark);
      FlightSizes(Step(s, e).inFlight, mark);
      if SaturatingSub(e.time, s.throttle.windowStart) >= WINDOW {
        RenewalKeepsBudget(m, base, tried, late, early, failures, open,
                           Step(s, e).throttle.blockedUntil < mark + WINDOW);
      } else {
        TrialKeepsBudget(m, base, tried, late, early, failures, s.throttle.windowStart >= mark, open);
      }
    }
  }

  /** A failure that is counted in the current window. */
  lemma FailureKeepsMinute(m: nat, s: System, tried: nat, mark: nat, base: nat, call: int)
    requires Minute(m, s, tried, mark, base) && Lone(m, s)
    requires call in s.inFlight && s.inFlight[call] + BLOCK <= U64_MAX
    requires s.throttle.windowStart > 0 && SaturatingSub(s.inFlight[call], s.throttle.windowStart) < WINDOW
    ensures Minute(m, Step(s, Finish(call, false)), tried, mark, base)
  {
    var late, early := |Late(s.inFlight, mark)|, |Early(s.inFlight, mark)|;
    var failures, open := s.throttle.failures, s.throttle.blockedUntil < mark + WINDOW;
    var renewed := s.throttle.windowStart >= mark;
    var reopened := Step(s, Finish(call, false)).throttle.blockedUntil < mark + WINDOW;
    FlightAfterFinish(s.inFlight, call, mark);
    if s.inFlight[call] >= mark {
      LateFailureKeepsBudget(m, base, tried, late, early, failures, renewed, open, reopened);
    } else {
      EarlyFailureKeepsBudget(m, base, tried, late, early, failures, renewed, open, reopened);
    }
  }

  // ---------- counting the trials of a period ----------

  function MinuteOf(start: nat, now: nat): nat
    requires start <= now
  {
    (now - start) / WINDOW
  }

  /** `tried` passwords have been tried in the period of `k` minutes from `start` on. Once one has
      been tried, no call in flight is too late for the current window. */
  ghost predicate Inv(m: nat, start: nat, k: nat, s: System, now: nat, tried: nat) {
    && Sound(m, s, now) && tried <= Most(m, k) && (now < start ==> tried == 0)
    && (tried > 0 ==>
          && s.throttle.windowStart > 0
          && forall c :: c in s.inFlight ==> s.inFlight[c] < s.throttle.windowStart + WINDOW)
    && (start <= now < start + WINDOW * k ==>
          Minute(m, s, tried, start + WINDOW * MinuteOf(start, now), Allowance(m, MinuteOf(start, now))))
  }

  function Counted(s: System, e: Event, start: nat, end: nat): nat {
    if Admits(s, e) && start <= e.time < end then 1 else 0
  }

  lemma NothingIsInv(m: nat, start: nat, k: nat, s: System, now: nat)
    requires Sound(m, s, now)
    ensures Inv(m, start, k, s, now, 0)
  {
    if start <= now {
      MinuteOfNothing(m, s, start + WINDOW * MinuteOf(start, now), Allowance(m, MinuteOf(start, now)));
    }
  }

  /** The budget of the minute of a call that begins, before it begins. */
  lemma MinuteBefore(m: nat, start: nat, k: nat, s: System, now: nat, tried: nat, time: nat)
    requires Inv(m, start, k, s, now, tried) && now <= time && start <= time < start + WINDOW * k
    ensures Minute(m, s, tried, start + WINDOW * MinuteOf(start, time), Allowance(m, MinuteOf(start, time)))
  {
    if now < start {
      MinuteOfNothing(m, s, start + WINDOW * MinuteOf(start, time), Allowance(m, MinuteOf(start, time)));
    } else {
      LaterMinute(m, s, tried, start, MinuteOf(start, now), MinuteOf(start, time), now);
    }
  }

  lemma MinuteBounds(start: nat, k: nat, time: nat)
    requires start <= time < start + WINDOW * k
    ensures var mark := start + WINDOW * MinuteOf(start, time);
            mark <= time < mark + WINDOW && MinuteOf(start, time) < k
  {}

  lemma BeginInMinute(m: nat, s: System, tried: nat, mark: nat, i: nat, k: nat, e: Event)
    requires Minute(m, s, tried, mark, Allowance(m, i)) && i < k && e.Begin? && mark <= e.time < mark + WINDOW
    requires |Step(s, e).inFlight| <= m && s.throttle.windowStart <= e.time
    ensures Minute(m, Step(s, e), tried + |Tried(s, e)|, mark, Allowance(m, i))
    ensures tried + |Tried(s, e)| <= Most(m, k)
  {
    BeginKeepsMinute(m, s, tried, mark, Allowance(m, i), e);
    MinuteIsCapped(m, Step(s, e), tried + |Tried(s, e)|, mark, i, k);
  }

  /** What a call in the period does to its minute. */
  lemma BeginInPeriod(m: nat, start: nat, k: nat, s: System, now: nat, tried: nat, e: Event, i: nat, mark: nat)
    requires Inv(m, start, k, s, now, tried) && InTime(now, e) && |Step(s, e).inFlight| <= m
    requires e.Begin? && start <= e.time < start + WINDOW * k
    requires i == MinuteOf(start, e.time) && mark == start + WINDOW * i
    ensures tried + |Tried(s, e)| <= Most(m, k)
    ensures Minute(m, Step(s, e), tried + |Tried(s, e)|, mark, Allowance(m, i))
  {
    assert s.throttle.windowStart <= e.time;
    MinuteBounds(start, k, e.time);
    MinuteBefore(m, start, k, s, now, tried, e.time);
    BeginInMinute(m, s, tried, mark, i, k, e);
  }

  /** The part of the invariant that is not about minutes. */
  lemma BeginKeepsRest(m: nat, start: nat, k: nat, s: System, now: nat, tried: nat, e: Event)
    requires Inv(m, start, k, s, now, tried) && InTime(now, e) && |Step(s, e).inFlight| <= m && e.Begin?
    ensures var next, tried' := Step(s, e), tried + Counted(s, e, start, start + WINDOW * k);
      && Sound(m, next, e.time) && (e.time < start ==> tried' == 0)
      && (tried' > 0 ==>
            && next.throttle.windowStart > 0
            && forall c :: c in next.inFlight ==> next.inFlight[c] < next.throttle.windowStart + WINDOW)
  {
    StepKeepsSound(m, s, now, e);
  }

  lemma BeginOutside(m: nat, start: nat, k: nat, s: System, now: nat, tried: nat, e: Event)
    requires Inv(m, start, k, s, now, tried) && InTime(now, e) && |Step(s, e).inFlight| <= m && e.Begin?
    requires !(start <= e.time < start + WINDOW * k)
    ensures Inv(m, start, k, Step(s, e), e.time, tried)
  {
    BeginKeepsRest(m, start, k, s, now, tried, e);
  }

  lemma BeginInside(m: nat, start: nat, k: nat, s: System, now: nat, tried: nat, e: Event)
    requires Inv(m, start, k, s, now, tried) && InTime(now, e) && |Step(s, e).inFlight| <= m && e.Begin?
    requires start <= e.time < start + WINDOW * k
    ensures Inv(m, start, k, Step(s, e), e.time, tried + |Tried(s, e)|)
  {
    var i := MinuteOf(start, e.time);
    BeginKeepsRest(m, start, k, s, now, tried, e);
    BeginInPeriod(m, start, k, s, now, tried, e, i, start + WINDOW * i);
  }

  lemma BeginKeepsInv(m: nat, start: nat, k: nat, s: System, now: nat, tried: nat, e: Event)
    requires Inv(m, start, k, s, now, tried) && InTime(now, e) && |Step(s, e).inFlight| <= m && e.Begin?
    ensures Inv(m, start, k, Step(s, e), e.time, tried + Counted(s, e, start, start + WINDOW * k))
  {
    if start <= e.time < start + WINDOW * k {
      BeginInside(m, start, k, s, now, tried, e);
    } else {
      BeginOutside(m, start, k, s, now, tried, e);
    }
  }

  lemma FinishKeepsInv(m: nat, start: nat, k: nat, s: System, now: nat, tried: nat, call: int)
    requires Inv(m, start, k, s, now, tried) && call in s.inFlight
    ensures Inv(m, start, k, Step(s, Finish(call, false)), now, tried)
  {
    var e := Finish(call, false);
    assert |Step(s, e).inFlight| <= m by {
      assert Step(s, e).inFlight.Keys == s.inFlight.Keys - {call};
    }
    StepKeepsSound(m, s, now, e);
    if tried == 0 {
      NothingIsInv(m, start, k, Step(s, e), now);
    } else if start <= now < start + WINDOW * k {
      var i := MinuteOf(start, now);
      FailureKeepsMinute(m, s, tried, start + WINDOW * i, Allowance(m, i), call);
    }
  }

  lemma StepKeepsInv(m: nat, start: nat, k: nat, s: System, now: nat, tried: nat, e: Event)
    requires Inv(m, start, k, s, now, tried)
    requires InTime(now, e) && |Step(s, e).inFlight| <= m && !Succeeds(s, e)
    ensures Inv(m, start, k, Step(s, e), Later(now, e), tried + Counted(s, e, start, start + WINDOW * k))
  {
    if e.Begin? {
      BeginKeepsInv(m, start, k, s, now, tried, e);
    } else if e.call in s.inFlight {
      FinishKeepsInv(m, start, k, s, now, tried, e.call);
    }
  }

  lemma TriedAppend(log: seq<nat>, t: nat, start: nat, end: nat)
    ensures |TriedDuring(log + [t], start, end)| == |TriedDuring(log, start, end)| + if start <= t < end then 1 else 0
  {
    var before := TriedDuring(log, start, end);
    assert TriedDuring(log + [t], start, end) == if start <= t < end then before + {|log|} else before;
  }

  lemma {:induction false} TriedConcat(a: seq<nat>, b: seq<nat>, start: nat, end: nat)
    ensures |TriedDuring(a + b, start, end)| == |TriedDuring(a, start, end)| + |TriedDuring(b, start, end)|
    decreases |b|
  {
    if b == [] {
      assert a + b == a && TriedDuring(b, start, end) == {};
    } else {
      var n := |b| - 1;
      assert b == b[..n] + [b[n]] && a + b == (a + b[..n]) + [b[n]];
      TriedConcat(a, b[..n], start, end);
      TriedAppend(a + b[..n], b[n], start, end);
      TriedAppend(b[..n], b[n], start, end);
    }
  }

  lemma TriedByEvent(s: System, e: Event, start: nat, end: nat)
    ensures |TriedDuring(Tried(s, e), start, end)| == Counted(s, e, start, end)
  {
    assert TriedDuring([], start, end) == {};
    if Admits(s, e) {
      TriedAppend([], e.time, start, end);
      assert [] + [e.time] == [e.time];
    }
  }

  lemma TrialsOfFirst(s: System, events: seq<Event>, start: nat, end: nat)
    requires events != []
    ensures |TriedDuring(Trials(s, events), start, end)|
            == Counted(s, events[0], start, end) + |TriedDuring(Trials(Step(s, events[0]), events[1..]), start, end)|
  {
    TriedByEvent(s, events[0], start, end);
    TriedConcat(Tried(s, events[0]), Trials(Step(s, events[0]), events[1..]), start, end);
  }

  lemma NothingTriedIn(start: nat, end: nat)
    ensures |TriedDuring([], start, end)| == 0
  {
    assert TriedDuring([], start, end) == {};
  }

  /** Both conditions on a stretch, and the number of its trials in a period. */
  ghost predicate Smooth(m: nat, s: System, now: nat, events: seq<Event>)
    decreases |events|
  {
    events != [] ==>
      && InTime(now, events[0]) && |Step(s, events[0]).inFlight| <= m && !Succeeds(s, events[0])
      && Smooth(m, Step(s, events[0]), Later(now, events[0]), events[1..])
  }

  function Total(s: System, events: seq<Event>, start: nat, end: nat): nat
    decreases |events|
  {
    if events == [] then 0
    else Counted(s, events[0], start, end) + Total(Step(s, events[0]), events[1..], start, end)
  }

  lemma {:induction false} OrderlyIsSmooth(m: nat, s: System, now: nat, events: seq<Event>)
    requires Orderly(m, s, now, events) && NoneSucceeds(s, events)
    ensures Smooth(m, s, now, events)
    decreases |events|
  {
    if events != [] {
      OrderlySize(m, Step(s, events[0]), Later(now, events[0]), events[1..]);
      OrderlyIsSmooth(m, Step(s, events[0]), Later(now, events[0]), events[1..]);
    }
  }

  lemma {:induction false} TotalIsTried(s: System, events: seq<Event>, start: nat, end: nat)
    ensures |TriedDuring(Trials(s, events), start, end)| == Total(s, events, start, end)
    decreases |events|
  {
    if events == [] {
      NothingTriedIn(start, end);
    } else {
      TrialsOfFirst(s, events, start, end);
      TotalIsTried(Step(s, events[0]), events[1..], start, end);
    }
  }

  lemma {:induction false} InvToEnd(
    m: nat, start: nat, k: nat, s: System, now: nat, tried: nat, events: seq<Event>)
    requires Inv(m, start, k, s, now, tried) && Smooth(m, s, now, events)
    ensures tried + Total(s, events, start, start + WINDOW * k) <= Most(m, k)
    decreases |events|
  {
    if events != [] {
      var e := events[0];
      StepKeepsInv(m, start, k, s, now, tried, e);
      InvToEnd(m, start, k, Step(s, e), Later(now, e), tried + Counted(s, e, start, start + WINDOW * k), events[1..]);
    }
  }

  lemma StretchIsThrottled(m: nat, start: nat, k: nat, s: System, now: nat, events: seq<Event>)
    requires Sound(m, s, now) && Orderly(m, s, now, events) && NoneSucceeds(s, events)
    ensures |TriedDuring(Trials(s, events), start, start + WINDOW * k)| <= Most(m, k)
  {
    NothingIsInv(m, start, k, s, now);
    OrderlyIsSmooth(m, s, now, events);
    InvToEnd(m, start, k, s, now, 0, events);
    TotalIsTried(s, events, start, start + WINDOW * k);
  }

  /** With at most `m` calls in flight, however they overlap and however long they take, in any
      stretch without a success at most k(7 + m(m + 1) / 2) + 7 passwords are tried in any period
      of 60k seconds, and one less with one call in flight: 8k + 6. */
  lemma OverlappingLoginsAreThrottled(m: nat, before: seq<Event>, stretch: seq<Event>, start: nat, k: nat)
    requires Orderly(m, START, 0, before + stretch) && NoneSucceeds(Run(START, before), stretch)
    ensures |TriedDuring(Trials(Run(START, before), stretch), start, start + WINDOW * k)|
            <= k * (7 + m * (m + 1) / 2) + 7 - Slack(m)
  {
    var s, now := Run(START, before), TimeAfter(0, before);
    OrderlySplit(m, START, 0, before, stretch);
    RunKeepsSound(m, START, 0, before);
    StretchIsThrottled(m, start, k, s, now, stretch);
    MostIs(m, k);
  }
}
