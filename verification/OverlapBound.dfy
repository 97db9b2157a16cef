/** How tight the bound for overlapping logins is, and what it takes for the bound of serialized
    logins to hold (src/web.rs). */
module OverlapBound {
  import opened Wrappers
  import opened Runs
  import opened Sets
  import opened Text
  import opened Throttle
  import opened OverlappingLogins

  // ---------- schedules ----------

  /** A state and its clock. */
  type Moment = (System, nat)

  /** The steps of orderly runs without success, with the passwords that they try. */
  function Orders(m: nat): Moves<Moment, Event, nat> {
    (c: Moment, e: Event) =>
      if InTime(c.1, e) && |Step(c.0, e).inFlight| <= m && !Succeeds(c.0, e)
      then Some(((Step(c.0, e), Later(c.1, e)), Tried(c.0, e))) else None
  }

  lemma {:induction false} ExecutionIsOrderly(m: nat, c: Moment, events: seq<Event>)
    requires |c.0.inFlight| <= m && Execute(Orders(m), c, events).Some?
    ensures Orderly(m, c.0, c.1, events) && NoneSucceeds(c.0, events)
    ensures Execute(Orders(m), c, events).value.1 == Trials(c.0, events)
    decreases |events|
  {
    if events != [] {
      ExecutionIsOrderly(m, (Step(c.0, events[0]), Later(c.1, events[0])), events[1..]);
    }
  }

  /** The schedules begin here; what they try before it is not counted. */
  const OPENING: nat := 100

  /** An orderly run without success tries `n` passwords after the opening and before `end`. */
  ghost predicate Reachable(m: nat, end: nat, s: System, now: nat, n: nat) {
    exists log ::
      Goes(Orders(m), (START, 0), (s, now), log) && |TriedDuring(log, OPENING + 1, end)| == n
  }

  lemma ReachStart(m: nat, end: nat)
    ensures Reachable(m, end, START, 0, 0)
  {
    GoesNowhere(Orders(m), (START, 0));
    NothingTriedIn(OPENING + 1, end);
  }

  lemma ReachOneMore(m: nat, end: nat, s: System, now: nat, n: nat, e: Event)
    requires Reachable(m, end, s, now, n)
    requires InTime(now, e) && |Step(s, e).inFlight| <= m && !Succeeds(s, e)
    ensures Reachable(m, end, Step(s, e), Later(now, e), n + Counted(s, e, OPENING + 1, end))
  {
    var log :|
      Goes(Orders(m), (START, 0), (s, now), log) && |TriedDuring(log, OPENING + 1, end)| == n;
    GoesOneMore(Orders(m), (START, 0), (s, now), log, e);
    TriedConcat(log, Tried(s, e), OPENING + 1, end);
    TriedByEvent(s, e, OPENING + 1, end);
  }

  // ---------- stages of a schedule ----------

  /** The throttle, `olds` stragglers that began at `oldTime`, and `news` calls of this second. */
  datatype Stage = Stage(throttle: State, olds: nat, oldTime: nat, news: nat, time: nat)

  datatype Move = BeginNew | FailNew | FailOld | Wait(until: nat) | Age(until: nat)

  predicate Allowed(m: nat, g: Stage, move: Move) {
    && g.olds + g.news <= m
    && match move
       case BeginNew =>
         g.olds + g.news < m && g.throttle.blockedUntil <= g.time && WINDOW <= g.time && g.time + BLOCK <= U64_MAX
       case FailNew => g.news >= 1
       case FailOld => g.olds >= 1
       case Wait(until) => g.news == 0 && g.time < until
       case Age(until) => g.olds == 0 && g.time < until
  }

  /** Calls of this second become stragglers when time passes. */
  function Moved(g: Stage, move: Move): Stage
    requires move.FailNew? ==> g.news >= 1
    requires move.FailOld? ==> g.olds >= 1
  {
    match move
    case BeginNew => g.(throttle := Checked(g.throttle, g.time), news := g.news + 1)
    case FailNew => g.(throttle := Recorded(g.throttle, false, g.time), news := g.news - 1)
    case FailOld => g.(throttle := Recorded(g.throttle, false, g.oldTime), olds := g.olds - 1)
    case Wait(until) => g.(time := until)
    case Age(until) => Stage(g.throttle, g.news, g.time, 0, until)
  }

  /** What `n` trials at a time add to the count. */
  function Gain(n: nat, time: nat, end: nat): nat { if OPENING < time < end then n else 0 }

  function Won(g: Stage, move: Move, end: nat): nat { Gain(if move.BeginNew? then 1 else 0, g.time, end) }

  /** Stages that the code can reach, and the passwords tried on the way. */
  type Reach = (Stage, nat) -> bool

  ghost predicate Closed(m: nat, end: nat, r: Reach) {
    forall g: Stage, n: nat, move: Move ::
      r(g, n) && Allowed(m, g, move) ==> r(Moved(g, move), n + Won(g, move, end))
  }

  lemma Makes(m: nat, end: nat, r: Reach, g: Stage, n: nat, move: Move, next: Stage, more: nat)
    requires Closed(m, end, r) && r(g, n) && Allowed(m, g, move)
    requires Moved(g, move) == next && more == if move.BeginNew? then Gain(1, g.time, end) else 0
    ensures r(next, n + more)
  {
    assert r(Moved(g, move), n + Won(g, move, end));
    assert n + Won(g, move, end) == n + more;
  }

  // ---------- stages of the code ----------

  ghost predicate Holds(g: Stage, s: System, now: nat) {
    && s.throttle == g.throttle && now <= g.time && g.oldTime < g.time
    && (forall c :: c in s.inFlight ==> s.inFlight[c] == g.oldTime || s.inFlight[c] == g.time)
    && |Early(s.inFlight, g.time)| == g.olds && |Late(s.inFlight, g.time)| == g.news
  }

  ghost predicate Reached(m: nat, end: nat, g: Stage, n: nat) {
    exists s, now :: Reachable(m, end, s, now, n) && Holds(g, s, now)
  }

  lemma FreeCall(calls: set<int>) returns (call: int)
    ensures call !in calls
  {
    call := 0;
    if calls != {} {
      var least := HasMinimum(calls);
      call := least - 1;
    }
  }

  lemma CallBegins(g: Stage, s: System, now: nat, call: int, end: nat)
    requires Holds(g, s, now) && call !in s.inFlight && g.throttle.blockedUntil <= g.time
    ensures Holds(Moved(g, BeginNew), Step(s, Begin(call, g.time)), g.time)
    ensures Counted(s, Begin(call, g.time), OPENING + 1, end) == Won(g, BeginNew, end)
  {
    FlightAfterBegin(s.inFlight, call, g.time, g.time);
  }

  lemma BeginIsReached(m: nat, end: nat, g: Stage, n: nat)
    requires Reached(m, end, g, n) && Allowed(m, g, BeginNew)
    ensures Reached(m, end, Moved(g, BeginNew), n + Won(g, BeginNew, end))
  {
    var s, now :| Reachable(m, end, s, now, n) && Holds(g, s, now);
    var call := FreeCall(s.inFlight.Keys);
    FlightSizes(s.inFlight, g.time);
    CallBegins(g, s, now, call, end);
    assert Step(s, Begin(call, g.time)).inFlight.Keys == s.inFlight.Keys + {call};
    ReachOneMore(m, end, s, now, n, Begin(call, g.time));
  }

  lemma CallFails(m: nat, end: nat, s: System, now: nat, n: nat, call: int)
    requires Reachable(m, end, s, now, n) && call in s.inFlight && |s.inFlight| <= m
    ensures Reachable(m, end, Step(s, Finish(call, false)), now, n)
  {
    var e := Finish(call, false);
    assert Step(s, e).inFlight.Keys == s.inFlight.Keys - {call};
    assert |Step(s, e).inFlight| == |s.inFlight| - 1;
    ReachOneMore(m, end, s, now, n, e);
  }

  lemma NewLeaves(g: Stage, s: System, now: nat, call: int)
    requires Holds(g, s, now) && call in Late(s.inFlight, g.time)
    ensures g.news >= 1
    ensures Holds(g.(throttle := Recorded(g.throttle, false, g.time), news := g.news - 1),
                  Step(s, Finish(call, false)), now)
  {
    FlightAfterFinish(s.inFlight, call, g.time);
  }

  lemma OldLeaves(g: Stage, s: System, now: nat, call: int)
    requires Holds(g, s, now) && call in Early(s.inFlight, g.time)
    ensures g.olds >= 1
    ensures Holds(g.(throttle := Recorded(g.throttle, false, g.oldTime), olds := g.olds - 1),
                  Step(s, Finish(call, false)), now)
  {
    FlightAfterFinish(s.inFlight, call, g.time);
  }

  lemma FailNewIsReached(m: nat, end: nat, g: Stage, n: nat)
    requires Reached(m, end, g, n) && Allowed(m, g, FailNew)
    ensures Reached(m, end, Moved(g, FailNew), n)
  {
    var s, now :| Reachable(m, end, s, now, n) && Holds(g, s, now);
    var call := HasMinimum(Late(s.inFlight, g.time));
    FlightSizes(s.inFlight, g.time);
    CallFails(m, end, s, now, n, call);
    NewLeaves(g, s, now, call);
  }

  lemma FailOldIsReached(m: nat, end: nat, g: Stage, n: nat)
    requires Reached(m, end, g, n) && Allowed(m, g, FailOld)
    ensures Reached(m, end, Moved(g, FailOld), n)
  {
    var s, now :| Reachable(m, end, s, now, n) && Holds(g, s, now);
    var call := HasMinimum(Early(s.inFlight, g.time));
    FlightSizes(s.inFlight, g.time);
    CallFails(m, end, s, now, n, call);
    OldLeaves(g, s, now, call);
  }

  lemma TimePasses(g: Stage, s: System, now: nat, until: nat)
    requires Holds(g, s, now) && g.time < until
    ensures g.news == 0 ==> Holds(Moved(g, Wait(until)), s, now)
    ensures g.olds == 0 ==> Holds(Moved(g, Age(until)), s, now)
  {
    FlightSizes(s.inFlight, g.time);
    NoneLate(s.inFlight, until);
    forall c | c in s.inFlight
      ensures g.news == 0 ==> s.inFlight[c] == g.oldTime
      ensures g.olds == 0 ==> s.inFlight[c] == g.time
    {
      assert c in Late(s.inFlight, g.time) || c in Early(s.inFlight, g.time);
    }
  }

  lemma WaitIsReached(m: nat, end: nat, g: Stage, n: nat, until: nat)
    requires Reached(m, end, g, n) && g.time < until
    ensures Allowed(m, g, Wait(until)) ==> Reached(m, end, Moved(g, Wait(until)), n)
    ensures Allowed(m, g, Age(until)) ==> Reached(m, end, Moved(g, Age(until)), n)
  {
    var s, now :| Reachable(m, end, s, now, n) && Holds(g, s, now);
    TimePasses(g, s, now, until);
  }

  lemma MoveIsReached(m: nat, end: nat, g: Stage, n: nat, move: Move)
    requires Reached(m, end, g, n) && Allowed(m, g, move)
    ensures Reached(m, end, Moved(g, move), n + Won(g, move, end))
  {
    match move
    case BeginNew => BeginIsReached(m, end, g, n);
    case FailNew => FailNewIsReached(m, end, g, n);
    case FailOld => FailOldIsReached(m, end, g, n);
    case Wait(until) => WaitIsReached(m, end, g, n, until);
    case Age(until) => WaitIsReached(m, end, g, n, until);
  }

  // ---------- the parts of a schedule ----------

  predicate InRange(g: Stage) { OPENING <= g.time && g.time + BLOCK <= U64_MAX }

  /** The throttle lets calls of this second through without opening a window, and counts them. */
  predicate Letting(throttle: State, time: nat) {
    throttle.blockedUntil <= time && 0 < throttle.windowStart <= time < throttle.windowStart + WINDOW
  }

  lemma {:induction false} BeginSome(m: nat, end: nat, r: Reach, g: Stage, n: nat, more: nat)
    requires Closed(m, end, r) && r(g, n)
    requires g.olds + g.news + more <= m && InRange(g) && Letting(g.throttle, g.time)
    ensures r(g.(news := g.news + more), n + Gain(more, g.time, end))
    decreases more
  {
    if more > 0 {
      Makes(m, end, r, g, n, BeginNew, g.(news := g.news + 1), Gain(1, g.time, end));
      BeginSome(m, end, r, g.(news := g.news + 1), n + Gain(1, g.time, end), more - 1);
    }
  }

  /** Every call of this second fails, and the last one blocks the throttle. */
  lemma {:induction false} FailAll(m: nat, end: nat, r: Reach, g: Stage, n: nat)
    requires Closed(m, end, r) && r(g, n)
    requires 1 <= g.news && g.olds + g.news <= m && InRange(g)
    requires 0 < g.throttle.windowStart <= g.time < g.throttle.windowStart + WINDOW
    requires g.throttle.failures >= LIMIT - 1
    ensures r(g.(throttle := State(g.throttle.windowStart, g.throttle.failures + g.news, g.time + BLOCK),
                 news := 0), n)
    decreases g.news
  {
    var less := g.(throttle := State(g.throttle.windowStart, g.throttle.failures + 1, g.time + BLOCK),
                   news := g.news - 1);
    Makes(m, end, r, g, n, FailNew, less, 0);
    if g.news > 1 {
      FailAll(m, end, r, less, n);
    }
  }

  /** Calls that begin and fail one after another, short of the eighth failure. */
  lemma {:induction false} FailSerially(m: nat, end: nat, r: Reach, g: Stage, n: nat, more: nat)
    requires Closed(m, end, r) && r(g, n)
    requires g.news == 0 && g.olds < m && InRange(g) && Letting(g.throttle, g.time)
    requires g.throttle.failures + more < LIMIT
    ensures r(g.(throttle := g.throttle.(failures := g.throttle.failures + more)), n + Gain(more, g.time, end))
    decreases more
  {
    if more > 0 {
      var failed := g.(throttle := g.throttle.(failures := g.throttle.failures + 1));
      Makes(m, end, r, g, n, BeginNew, g.(news := 1), Gain(1, g.time, end));
      Makes(m, end, r, g.(news := 1), n + Gain(1, g.time, end), FailNew, failed, 0);
      FailSerially(m, end, r, failed, n + Gain(1, g.time, end), more - 1);
    }
  }

  /** A window that opens now, and its first failures. */
  lemma OpenAndFail(m: nat, end: nat, r: Reach, g: Stage, n: nat, failures: nat)
    requires Closed(m, end, r) && r(g, n)
    requires g.news == 0 && g.olds < m && InRange(g) && 1 <= failures < LIMIT
    requires g.throttle.blockedUntil <= g.time && g.throttle.windowStart + WINDOW <= g.time
    ensures r(g.(throttle := State(g.time, failures, 0)), n + Gain(failures, g.time, end))
  {
    var first := g.(throttle := State(g.time, 0, 0), news := 1);
    var failed := g.(throttle := State(g.time, 1, 0));
    Makes(m, end, r, g, n, BeginNew, first, Gain(1, g.time, end));
    Makes(m, end, r, first, n + Gain(1, g.time, end), FailNew, failed, 0);
    FailSerially(m, end, r, failed, n + Gain(1, g.time, end), failures - 1);
  }

  /** All calls of this second fail, then a straggler, whose block ends now, and one call more than
      before begins. */
  lemma Reopen(m: nat, end: nat, r: Reach, g: Stage, n: nat) returns (failures: nat)
    requires Closed(m, end, r) && r(g, n)
    requires g.olds >= 1 && 1 <= g.news && g.olds + g.news == m && InRange(g) && g.oldTime + BLOCK == g.time
    requires g.throttle.windowStart == g.time && g.throttle.failures >= LIMIT - 1
    ensures failures >= LIMIT - 1
    ensures r(Stage(State(g.time, failures, g.time), g.olds - 1, g.oldTime, g.news + 1, g.time),
              n + Gain(g.news + 1, g.time, end))
  {
    FailAll(m, end, r, g, n);
    failures := g.throttle.failures + g.news + 1;
    var idle := g.(throttle := State(g.time, failures - 1, g.time + BLOCK), news := 0);
    var again := g.(throttle := State(g.time, failures, g.time), olds := g.olds - 1, news := 0);
    Makes(m, end, r, idle, n, FailOld, again, 0);
    BeginSome(m, end, r, again, n, g.news + 1);
  }

  function Sum(j: nat): nat { j * (j + 1) / 2 }

  lemma SumOneMore(j: nat)
    ensures Sum(j + 1) == Sum(j) + j + 1
  {
    assert (j + 1) * (j + 2) == j * (j + 1) + 2 * (j + 1);
  }

  /** The stragglers reopen the throttle one after the other. */
  lemma {:induction false} ReopenAll(m: nat, end: nat, r: Reach, g: Stage, n: nat) returns (last: State)
    requires Closed(m, end, r) && r(g, n + Sum(g.news))
    requires 1 <= g.news && g.olds + g.news == m && InRange(g) && g.oldTime + BLOCK == g.time
    requires OPENING < g.time < end
    requires g.throttle.windowStart == g.time && g.throttle.failures >= LIMIT - 1
    ensures last.windowStart == g.time && last.failures >= LIMIT - 1
    ensures r(Stage(last, 0, g.oldTime, m, g.time), n + Sum(m))
    decreases g.olds
  {
    last := g.throttle;
    if g.olds > 0 {
      var failures := Reopen(m, end, r, g, n + Sum(g.news));
      SumOneMore(g.news);
      var next := Stage(State(g.time, failures, g.time), g.olds - 1, g.oldTime, g.news + 1, g.time);
      last := ReopenAll(m, end, r, next, n);
    }
  }

  /** The throttle may open a window, and all but one of the calls are stragglers from a minute ago. */
  ghost predicate Ready(m: nat, r: Reach, time: nat, n: nat) {
    m >= 1 && time >= BLOCK &&
    exists throttle: State ::
      && r(Stage(throttle, m - 1, time - BLOCK, 0, time), n)
      && throttle.blockedUntil <= time && throttle.windowStart + WINDOW <= time
  }

  /** The first window of a minute: seven failures one after the other, then every straggler
      reopens it once. */
  lemma FillWindow(m: nat, end: nat, r: Reach, time: nat, n: nat) returns (last: State)
    requires Closed(m, end, r) && Ready(m, r, time, n) && OPENING < time < end && time + BLOCK <= U64_MAX
    ensures last.windowStart == time && last.failures >= LIMIT - 1
    ensures r(Stage(last, 0, time - BLOCK, m, time), n + Cap(m))
  {
    var throttle: State :|
      && r(Stage(throttle, m - 1, time - BLOCK, 0, time), n)
      && throttle.blockedUntil <= time && throttle.windowStart + WINDOW <= time;
    var g := Stage(throttle, m - 1, time - BLOCK, 0, time);
    OpenAndFail(m, end, r, g, n, LIMIT - 1);
    var full := g.(throttle := State(time, LIMIT - 1, 0));
    BeginSome(m, end, r, full, n + LIMIT - 1, 1);
    last := ReopenAll(m, end, r, full.(news := 1), n + LIMIT - 1);
    CapIs(m);
  }

  /** One minute, which leaves the next one as this one was. */
  lemma OneMinute(m: nat, end: nat, r: Reach, time: nat, n: nat)
    requires Closed(m, end, r) && Ready(m, r, time, n) && OPENING < time < end && time + BLOCK <= U64_MAX
    ensures Ready(m, r, time + BLOCK, n + Cap(m))
  {
    var last := FillWindow(m, end, r, time, n);
    var g := Stage(last, 0, time - BLOCK, m, time);
    var blocked := State(time, last.failures + 1, time + BLOCK);
    var done := g.(throttle := blocked, news := m - 1);
    Makes(m, end, r, g, n + Cap(m), FailNew, done, 0);
    Makes(m, end, r, done, n + Cap(m), Age(time + BLOCK), Stage(blocked, m - 1, time, 0, time + BLOCK), 0);
  }

  lemma {:induction false} Minutes(m: nat, end: nat, r: Reach, time: nat, n: nat, k: nat)
    requires Closed(m, end, r) && Ready(m, r, time, n) && OPENING < time
    requires time + WINDOW * k < end + WINDOW && time + WINDOW * k <= U64_MAX
    ensures Ready(m, r, time + WINDOW * k, n + Allowance(m, k))
    decreases k
  {
    if k > 0 {
      Minutes(m, end, r, time, n, k - 1);
      OneMinute(m, end, r, time + WINDOW * (k - 1), n + Allowance(m, k - 1));
    }
  }

  // ---------- the openings ----------

  /** The count begins when a first window has just been opened. */
  ghost predicate Opening(m: nat, r: Reach) {
    r(Stage(State(OPENING, Slack(m), 0), if m >= 1 then m - 1 else 0, OPENING, 0, OPENING + 1), 0)
  }

  lemma OpeningAlone(end: nat, r: Reach)
    requires Closed(1, end, r) && r(Stage(INITIAL, 0, 0, 0, OPENING), 0)
    ensures Opening(1, r)
  {
    var g := Stage(INITIAL, 0, 0, 0, OPENING);
    OpenAndFail(1, end, r, g, 0, 1);
    var failed := g.(throttle := State(OPENING, 1, 0));
    Makes(1, end, r, failed, 0, Age(OPENING + 1), Stage(State(OPENING, 1, 0), 0, OPENING, 0, OPENING + 1), 0);
  }

  lemma OpeningTogether(m: nat, end: nat, r: Reach)
    requires m >= 2 && Closed(m, end, r) && r(Stage(INITIAL, 0, 0, 0, OPENING), 0)
    ensures Opening(m, r)
  {
    var g := Stage(INITIAL, 0, 0, 0, OPENING);
    var first := g.(throttle := State(OPENING, 0, 0), news := 1);
    Makes(m, end, r, g, 0, BeginNew, first, 0);
    BeginSome(m, end, r, first, 0, m - 2);
    Makes(m, end, r, first.(news := m - 1), 0, Age(OPENING + 1),
          Stage(State(OPENING, 0, 0), m - 1, OPENING, 0, OPENING + 1), 0);
  }

  /** Failures in the opened window up to the seventh, and a wait for the next. */
  lemma OpeningIsReady(m: nat, end: nat, r: Reach)
    requires m >= 1 && Closed(m, end, r) && Opening(m, r) && OPENING + 1 < end
    ensures Ready(m, r, OPENING + WINDOW, LIMIT - 1 - Slack(m))
  {
    var n := LIMIT - 1 - Slack(m);
    var g := Stage(State(OPENING, Slack(m), 0), m - 1, OPENING, 0, OPENING + 1);
    FailSerially(m, end, r, g, 0, n);
    var full := State(OPENING, LIMIT - 1, 0);
    Makes(m, end, r, g.(throttle := full), n, Wait(OPENING + WINDOW),
          Stage(full, m - 1, OPENING, 0, OPENING + WINDOW), 0);
  }

  // ---------- the bound is reached ----------

  lemma ReadyStage(m: nat, r: Reach, time: nat, n: nat) returns (g: Stage)
    requires Ready(m, r, time, n)
    ensures r(g, n)
  {
    var throttle: State :|
      && r(Stage(throttle, m - 1, time - BLOCK, 0, time), n)
      && throttle.blockedUntil <= time && throttle.windowStart + WINDOW <= time;
    g := Stage(throttle, m - 1, time - BLOCK, 0, time);
  }

  lemma ScheduleExists(m: nat, end: nat, r: Reach, k: nat) returns (last: Stage)
    requires m >= 1 && k >= 1 && Closed(m, end, r) && r(Stage(INITIAL, 0, 0, 0, OPENING), 0)
    requires end == OPENING + 1 + WINDOW * k && OPENING + WINDOW * (k + 1) <= U64_MAX
    ensures r(last, Most(m, k))
  {
    if m == 1 {
      OpeningAlone(end, r);
    } else {
      OpeningTogether(m, end, r);
    }
    OpeningIsReady(m, end, r);
    Minutes(m, end, r, OPENING + WINDOW, LIMIT - 1 - Slack(m), k);
    last := ReadyStage(m, r, OPENING + WINDOW + WINDOW * k, Most(m, k));
  }

  lemma ReachedIsClosed(m: nat, end: nat)
    ensures Closed(m, end, (g: Stage, n: nat) => Reached(m, end, g, n))
    ensures Reached(m, end, Stage(INITIAL, 0, 0, 0, OPENING), 0)
  {
    forall g: Stage, n: nat, move: Move | Reached(m, end, g, n) && Allowed(m, g, move)
      ensures Reached(m, end, Moved(g, move), n + Won(g, move, end))
    {
      MoveIsReached(m, end, g, n, move);
    }
    ReachStart(m, end);
    assert Early(START.inFlight, OPENING) == {} && Late(START.inFlight, OPENING) == {};
    assert Holds(Stage(INITIAL, 0, 0, 0, OPENING), START, 0);
  }

  lemma ReachableIsRun(m: nat, end: nat, s: System, now: nat, n: nat) returns (events: seq<Event>)
    requires Reachable(m, end, s, now, n)
    ensures Orderly(m, START, 0, events) && NoneSucceeds(START, events)
    ensures |TriedDuring(Trials(START, events), OPENING + 1, end)| == n
  {
    var log: seq<nat> :|
      Goes(Orders(m), (START, 0), (s, now), log) && |TriedDuring(log, OPENING + 1, end)| == n;
    events :| Execute(Orders(m), (START, 0), events) == Some(((s, now), log));
    ExecutionIsOrderly(m, (START, 0), events);
  }

  lemma ReachedIsRun(m: nat, end: nat, g: Stage, n: nat) returns (events: seq<Event>)
    requires Reached(m, end, g, n)
    ensures Orderly(m, START, 0, events) && NoneSucceeds(START, events)
    ensures |TriedDuring(Trials(START, events), OPENING + 1, end)| == n
  {
    var s: System, now: nat :| Reachable(m, end, s, now, n) && Holds(g, s, now);
    events := ReachableIsRun(m, end, s, now, n);
  }

  lemma FullSchedule(m: nat, end: nat, k: nat, n: nat) returns (events: seq<Event>)
    requires m >= 1 && k >= 1 && n == Most(m, k)
    requires end == OPENING + 1 + WINDOW * k && OPENING + WINDOW * (k + 1) <= U64_MAX
    ensures Orderly(m, START, 0, events) && NoneSucceeds(START, events)
    ensures |TriedDuring(Trials(START, events), OPENING + 1, end)| == n
  {
    ReachedIsClosed(m, end);
    var last := ScheduleExists(m, end, (g: Stage, n: nat) => Reached(m, end, g, n), k);
    events := ReachedIsRun(m, end, last, n);
  }

  /** For every number of calls in flight and every number of minutes, the bound of
      `OverlappingLoginsAreThrottled` is reached. */
  lemma BoundIsReached(m: nat, k: nat) returns (events: seq<Event>, start: nat)
    requires m >= 1 && k >= 1 && 160 + WINDOW * k <= U64_MAX
    ensures Orderly(m, START, 0, events) && NoneSucceeds(START, events)
    ensures |TriedDuring(Trials(START, events), start, start + WINDOW * k)| == k * (7 + m * (m + 1) / 2) + 7 - Slack(m)
  {
    start := OPENING + 1;
    events := FullSchedule(m, start + WINDOW * k, k, Most(m, k));
    MostIs(m, k);
  }

  // ---------- the bound of serialized calls ----------

  /** A stretch without success of an orderly run. */
  ghost predicate Fails(m: nat, before: seq<Event>, stretch: seq<Event>) {
    Orderly(m, START, 0, before + stretch) && NoneSucceeds(Run(START, before), stretch)
  }

  /** The passwords that the stretch tries in `k` minutes. */
  ghost function TriedIn(before: seq<Event>, stretch: seq<Event>, start: nat, k: nat): nat {
    |TriedDuring(Trials(Run(START, before), stretch), start, start + WINDOW * k)|
  }

  /** At most 8k + 6 passwords in any k minutes, as for calls that do not overlap. */
  ghost predicate KeepsSerialBound(m: nat, k: nat) {
    forall before, stretch, start: nat ::
      Fails(m, before, stretch) ==> TriedIn(before, stretch, start, k) <= 8 * k + 6
  }

  lemma MoreThanSerial(m: nat, k: nat)
    requires m >= 2 && k >= 1
    ensures k * (7 + m * (m + 1) / 2) + 7 - Slack(m) > 8 * k + 6
  {
    assert m * (m + 1) >= 6;
    assert k * (7 + m * (m + 1) / 2) >= k * 10;
  }

  lemma NotSerial(m: nat, k: nat, events: seq<Event>, start: nat)
    requires Orderly(m, START, 0, events) && NoneSucceeds(START, events)
    requires |TriedDuring(Trials(START, events), start, start + WINDOW * k)| > 8 * k + 6
    ensures !KeepsSerialBound(m, k)
  {
    var none: seq<Event> := [];
    assert none + events == events && Run(START, none) == START;
    assert Fails(m, none, events) && TriedIn(none, events, start, k) > 8 * k + 6;
  }

  lemma OneCallKeepsSerialBound(m: nat, k: nat)
    requires m <= 1
    ensures KeepsSerialBound(m, k)
  {
    forall before, stretch, start: nat | Fails(m, before, stretch)
      ensures TriedIn(before, stretch, start, k) <= 8 * k + 6
    {
      OverlappingLoginsAreThrottled(m, before, stretch, start, k);
    }
  }

  /** The bound of serialized calls holds exactly if at most one call is in flight at a time. */
  lemma SerialBoundNeedsOneCall(m: nat, k: nat)
    requires k >= 1 && 160 + WINDOW * k <= U64_MAX
    ensures KeepsSerialBound(m, k) <==> m <= 1
  {
    if m <= 1 {
      OneCallKeepsSerialBound(m, k);
    } else {
      var events, start := BoundIsReached(m, k);
      MoreThanSerial(m, k);
      NotSerial(m, k, events, start);
    }
  }

  // ---------- calls without a limit ----------

  lemma Flooding(n: nat, end: nat, r: Reach)
    requires n >= 1 && OPENING + 1 < end && Closed(n, end, r) && r(Stage(INITIAL, 0, 0, 0, OPENING), 0)
    ensures r(Stage(State(OPENING + 1, 0, 0), 0, 0, n, OPENING + 1), n)
  {
    var g := Stage(INITIAL, 0, 0, 0, OPENING + 1);
    var first := g.(throttle := State(OPENING + 1, 0, 0), news := 1);
    Makes(n, end, r, g.(time := OPENING), 0, Wait(OPENING + 1), g, 0);
    Makes(n, end, r, g, 0, BeginNew, first, 1);
    BeginSome(n, end, r, first, 1, n - 1);
  }

  /** Without a limit on the calls in flight, any number of passwords is tried within a second. */
  lemma OverlapIsUnbounded(n: nat) returns (events: seq<Event>, start: nat)
    requires n >= 1
    ensures Orderly(n, START, 0, events) && NoneSucceeds(START, events)
    ensures |TriedDuring(Trials(START, events), start, start + 1)| == n
  {
    start := OPENING + 1;
    ReachedIsClosed(n, start + 1);
    Flooding(n, start + 1, (g: Stage, n': nat) => Reached(n, start + 1, g, n'));
    events := ReachedIsRun(n, start + 1, Stage(State(start, 0, 0), 0, 0, n, start), n);
  }
}
