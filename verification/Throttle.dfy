/** The login throttle (src/web.rs). */
module Throttle {
  import opened Sets
  import opened Text

  const LIMIT: nat := 8
  const WINDOW: nat := 60
  const BLOCK: nat := 60

  datatype State = State(windowStart: nat, failures: nat, blockedUntil: nat)

  const INITIAL := State(0, 0, 0)

  function SaturatingSub(a: nat, b: nat): nat { if a >= b then a - b else 0 }

  function SaturatingAdd(a: nat, b: nat): nat { if a + b > U64_MAX then U64_MAX else a + b }

  predicate IsBlocked(s: State, now: nat) { s.blockedUntil > now }

  /** `is_blocked` also opens a new window when the old one is over. */
  function Checked(s: State, now: nat): State {
    if IsBlocked(s, now) then s
    else if SaturatingSub(now, s.windowStart) >= WINDOW then State(now, 0, 0) else s
  }

  function Recorded(s: State, success: bool, now: nat): State {
    if success then INITIAL
    else
      var open := if s.windowStart == 0 || SaturatingSub(now, s.windowStart) >= WINDOW
                  then s.(windowStart := now, failures := 0) else s;
      var failures := open.failures + 1;
      State(open.windowStart, failures, if failures >= LIMIT then SaturatingAdd(now, BLOCK) else open.blockedUntil)
  }

  /** One serialized login call: `correct` says whether the password verifies. */
  datatype Login = Login(time: nat, correct: bool)

  datatype Verdict = Refused | Failed | Succeeded

  function Judged(s: State, login: Login): Verdict {
    if IsBlocked(s, login.time) then Refused else if login.correct then Succeeded else Failed
  }

  function Served(s: State, login: Login): State {
    var checked := Checked(s, login.time);
    if IsBlocked(s, login.time) then checked else Recorded(checked, login.correct, login.time)
  }

  class LoginThrottle {
    var windowStart: nat
    var failures: nat
    var blockedUntil: nat

    function Value(): State
      reads this
    {
      State(windowStart, failures, blockedUntil)
    }

    constructor ()
      ensures Value() == INITIAL
    {
      windowStart, failures, blockedUntil := 0, 0, 0;
    }

    method CheckBlocked(now: nat) returns (blocked: bool)
      modifies this
      ensures blocked == IsBlocked(old(Value()), now)
      ensures Value() == Checked(old(Value()), now)
    {
      if blockedUntil > now {
        return true;
      }
      if SaturatingSub(now, windowStart) >= WINDOW {
        windowStart := now;
        failures := 0;
        blockedUntil := 0;
      }
      blocked := false;
    }

    method Record(success: bool, now: nat)
      modifies this
      ensures Value() == Recorded(old(Value()), success, now)
    {
      if success {
        windowStart, failures, blockedUntil := 0, 0, 0;
        return;
      }
      if windowStart == 0 || SaturatingSub(now, windowStart) >= WINDOW {
        windowStart := now;
        failures := 0;
      }
      failures := failures + 1;
      if failures >= LIMIT {
        blockedUntil := SaturatingAdd(now, BLOCK);
      }
    }

    /** The part of the login handler that uses the throttle. */
    method Serve(login: Login) returns (verdict: Verdict)
      modifies this
      ensures verdict == Judged(old(Value()), login)
      ensures Value() == Served(old(Value()), login)
    {
      var blocked := CheckBlocked(login.time);
      if blocked {
        return Refused;
      }
      Record(login.correct, login.time);
      verdict := if login.correct then Succeeded else Failed;
    }
  }

  /** One failed verification, and the window it was counted in. */
  datatype Failure = Failure(time: nat, window: nat)

  /** One login call with a wrong password: check, and unless blocked record a failure. */
  function FailingCall(s: State, log: seq<Failure>, now: nat): (State, seq<Failure>) {
    var checked := Checked(s, now);
    if IsBlocked(s, now) then (checked, log)
    else
      var after := Recorded(checked, false, now);
      (after, log + [Failure(now, after.windowStart)])
  }

  /** Such calls one after another: the final state and the failed verifications. */
  function Failing(s: State, calls: seq<nat>): (State, seq<Failure>)
    decreases |calls|
  {
    if calls == [] then (s, [])
    else
      var (before, log) := Failing(s, calls[..|calls| - 1]);
      FailingCall(before, log, calls[|calls| - 1])
  }

  lemma FailingAppend(calls: seq<nat>, now: nat)
    ensures var (s, log) := Failing(INITIAL, calls);
            Failing(INITIAL, calls + [now]) == FailingCall(s, log, now)
  {
    assert (calls + [now])[..|calls|] == calls;
  }

  /** The clock never runs backwards, starts after the epoch, and stays one block away from
      the largest 64-bit value. */
  predicate Clock(calls: seq<nat>) {
    && (forall i :: 0 <= i < |calls| ==> 1 <= calls[i] && calls[i] + BLOCK <= U64_MAX)
    && (forall i, j :: 0 <= i < j < |calls| ==> calls[i] <= calls[j])
  }

  /** What the log says about the state: the failures of the current window are its last
      entries, and a full window blocks until it is over. */
  ghost predicate Consistent(s: State, log: seq<Failure>, now: nat) {
    && s.failures <= LIMIT && s.failures <= |log|
    && s.windowStart <= now
    && (s.failures == LIMIT ==> s.blockedUntil >= log[|log| - 1].time + BLOCK && log[|log| - 1].time >= s.windowStart)
    && (s.failures < LIMIT ==> s.blockedUntil <= now)
    && (forall i :: |log| - s.failures <= i < |log| ==> log[i].window == s.windowStart)
    && (forall i :: 0 <= i < |log| - s.failures ==> log[i].window + WINDOW <= s.windowStart)
    && (s.failures > 0 ==> s.windowStart >= 1 && log[|log| - s.failures].time == s.windowStart)
    && (s.failures == 0 ==> log == [] && s == INITIAL)
  }

  /** A later failure is in the same window, or in one that starts at least 60 seconds later
      and not before the earlier failure. */
  ghost predicate Ordered(a: Failure, b: Failure) {
    && a.time <= b.time
    && (a.window == b.window || (a.window + WINDOW <= b.window && a.time <= b.window))
  }

  ghost predicate Continues(log: seq<Failure>, i: nat) {
    0 < i < |log| && log[i - 1].window == log[i].window
  }

  /** Eight consecutive failures in one window. */
  ghost predicate Full(log: seq<Failure>, i: nat) {
    i + LIMIT <= |log| && log[i].window == log[i + LIMIT - 1].window
  }

  /** Windows follow each other at a distance of at least 60 seconds, and each starts with its
      first failure. */
  ghost predicate InOrder(log: seq<Failure>, now: nat) {
    && (forall i :: 0 <= i < |log| ==> log[i].window <= log[i].time <= now)
    && (forall i, j :: 0 <= i < j < |log| ==> Ordered(log[i], log[j]))
    && (forall i {:trigger Continues(log, i)} :: 0 <= i < |log| ==> Continues(log, i) || log[i].time == log[i].window)
  }

  /** A window counts at most eight failures, and a full one blocks for 60 seconds. */
  ghost predicate Capped(log: seq<Failure>) {
    && (forall i, j :: 0 <= i && i + LIMIT <= j < |log| ==> log[i].window != log[j].window)
    && (forall i: nat, j {:trigger Full(log, i), log[j]} :: Full(log, i) && i + LIMIT <= j < |log| ==>
          log[i + LIMIT - 1].time + BLOCK <= log[j].window)
  }

  ghost predicate Windowed(log: seq<Failure>, now: nat) { InOrder(log, now) && Capped(log) }

  lemma AppendKeepsOrder(log: seq<Failure>, f: Failure, before: nat)
    requires InOrder(log, before) && before <= f.time && f.window <= f.time
    requires forall i :: 0 <= i < |log| ==> Ordered(log[i], f)
    requires f.time == f.window || (log != [] && log[|log| - 1].window == f.window)
    ensures InOrder(log + [f], f.time)
  {
    var log' := log + [f];
    forall i | 0 <= i < |log'| ensures Continues(log', i) || log'[i].time == log'[i].window {
      if i < |log| {
        assert Continues(log, i) || log[i].time == log[i].window;
      }
    }
  }

  lemma AppendKeepsCap(log: seq<Failure>, f: Failure)
    requires Capped(log)
    requires forall i :: 0 <= i <= |log| - LIMIT ==> log[i].window != f.window
    requires forall i: nat :: Full(log, i) ==> log[i + LIMIT - 1].time + BLOCK <= f.window
    ensures Capped(log + [f])
  {
    var log' := log + [f];
    forall i: nat, j | Full(log', i) && i + LIMIT <= j < |log'|
      ensures log'[i + LIMIT - 1].time + BLOCK <= log'[j].window
    {
      assert Full(log, i);
    }
  }

  lemma AppendKeepsWindowed(log: seq<Failure>, f: Failure, before: nat)
    requires Windowed(log, before) && before <= f.time && f.window <= f.time
    requires forall i :: 0 <= i < |log| ==> Ordered(log[i], f)
    requires f.time == f.window || (log != [] && log[|log| - 1].window == f.window)
    requires forall i :: 0 <= i <= |log| - LIMIT ==> log[i].window != f.window
    requires forall i: nat :: Full(log, i) ==> log[i + LIMIT - 1].time + BLOCK <= f.window
    ensures Windowed(log + [f], f.time)
  {
    AppendKeepsOrder(log, f, before);
    AppendKeepsCap(log, f);
  }

  /** A failure that is counted in the current window. */
  lemma SameWindowStep(s: State, log: seq<Failure>, before: nat, now: nat)
    requires Consistent(s, log, before) && Windowed(log, before)
    requires before <= now && now + BLOCK <= U64_MAX
    requires 0 < s.failures < LIMIT && now - s.windowStart < WINDOW
    ensures var after := Recorded(s, false, now);
            var log' := log + [Failure(now, s.windowStart)];
            after.windowStart == s.windowStart && Consistent(after, log', now) && Windowed(log', now)
  {
    var f := Failure(now, s.windowStart);
    var first := |log| - s.failures;
    forall i | 0 <= i < |log| ensures Ordered(log[i], f) {
      if i < first {
        assert Ordered(log[i], log[first]);
      }
    }
    forall i: nat | Full(log, i) ensures log[i + LIMIT - 1].time + BLOCK <= f.window {
      assert log[i + LIMIT - 1].window != s.windowStart;
      assert log[first].window == s.windowStart;
    }
    AppendKeepsWindowed(log, f, before);
  }

  /** A failure that opens a window. */
  lemma NewWindowStep(s: State, log: seq<Failure>, before: nat, now: nat, blockedUntil: nat)
    requires Consistent(s, log, before) && Windowed(log, before)
    requires before <= now && 1 <= now && blockedUntil <= now
    requires s.failures > 0 ==> s.windowStart + WINDOW <= now && s.blockedUntil <= now
    ensures var after := State(now, 1, blockedUntil);
            var log' := log + [Failure(now, now)];
            Consistent(after, log', now) && Windowed(log', now)
  {
    forall i | 0 <= i < |log| ensures log[i].window + WINDOW <= now {
      if i >= |log| - s.failures {
        assert log[i].window == s.windowStart;
      }
    }
    forall i: nat | Full(log, i) ensures log[i + LIMIT - 1].time + BLOCK <= now {
      if i + LIMIT < |log| {
        assert log[i + LIMIT - 1].time + BLOCK <= log[|log| - 1].window;
      } else {
        assert log[i].window == s.windowStart;
      }
    }
    AppendKeepsWindowed(log, Failure(now, now), before);
  }

  lemma CallKeepsWindows(s: State, log: seq<Failure>, before: nat, now: nat)
    requires Consistent(s, log, before) && Windowed(log, before)
    requires before <= now && 1 <= now && now + BLOCK <= U64_MAX
    ensures IsBlocked(s, now) ==> Consistent(s, log, now) && Windowed(log, now)
    ensures !IsBlocked(s, now) ==>
      && Checked(s, now).failures < LIMIT
      && var after := Recorded(Checked(s, now), false, now);
      && var log' := log + [Failure(now, after.windowStart)];
      && Consistent(after, log', now) && Windowed(log', now)
  {
    if !IsBlocked(s, now) {
      var checked := Checked(s, now);
      if 0 < s.failures && now - s.windowStart < WINDOW {
        SameWindowStep(s, log, before, now);
      } else {
        NewWindowStep(s, log, before, now, checked.blockedUntil);
      }
    }
  }

  lemma {:induction false} FailingIsWindowed(calls: seq<nat>)
    requires Clock(calls)
    ensures var (s, log) := Failing(INITIAL, calls);
            var now := if calls == [] then 0 else calls[|calls| - 1];
            Consistent(s, log, now) && Windowed(log, now)
    decreases |calls|
  {
    if calls != [] {
      var n := |calls| - 1;
      FailingIsWindowed(calls[..n]);
      var (s, log) := Failing(INITIAL, calls[..n]);
      CallKeepsWindows(s, log, if n == 0 then 0 else calls[n - 1], calls[n]);
    }
  }

  /** After a check that does not block, fewer than eight failures are counted. */
  lemma UnblockedHasRoom(calls: seq<nat>, now: nat)
    requires Clock(calls + [now])
    ensures var s := Failing(INITIAL, calls).0;
            !IsBlocked(s, now) ==> Checked(s, now).failures < LIMIT
  {
    assert forall i :: 0 <= i < |calls| ==> (calls + [now])[i] == calls[i];
    assert (calls + [now])[|calls|] == now;
    FailingIsWindowed(calls);
    var (s, log) := Failing(INITIAL, calls);
    CallKeepsWindows(s, log, if calls == [] then 0 else calls[|calls| - 1], now);
  }

  /** Eight failures later the window is another one, hence at least 60 seconds later. */
  lemma {:induction false} EightPerWindow(log: seq<Failure>, now: nat, i: nat, k: nat)
    requires Windowed(log, now) && i + LIMIT * k < |log|
    ensures log[i + LIMIT * k].window >= log[i].window + WINDOW * k
    decreases k
  {
    if k > 0 {
      EightPerWindow(log, now, i, k - 1);
      var j := i + LIMIT * (k - 1);
      assert Ordered(log[j], log[j + LIMIT]);
    }
  }

  /** Any 8k + 7 failures take at least 60k seconds. */
  lemma FailuresAreSpread(log: seq<Failure>, now: nat, i: nat, k: nat, j: nat)
    requires Windowed(log, now) && k >= 1 && i + LIMIT * k + LIMIT - 2 <= j < |log|
    ensures log[j].time >= log[i].time + WINDOW * k
  {
    var last := i + LIMIT * k + LIMIT - 2;
    assert last == j || Ordered(log[last], log[j]);
    if log[i].time == log[i].window {
      EightPerWindow(log, now, i, k);
      assert Ordered(log[i + LIMIT * k], log[last]);
    } else {
      assert Continues(log, i);
      var next := i - 1 + LIMIT;
      if Full(log, i - 1) {
        assert log[next - 1].time + BLOCK <= log[next].window;
        assert Ordered(log[i], log[next - 1]);
        EightPerWindow(log, now, next, k - 1);
        assert Ordered(log[next + LIMIT * (k - 1)], log[last]);
      } else {
        assert Ordered(log[i], log[next - 1]);
        EightPerWindow(log, now, next - 1, k);
        assert next - 1 + LIMIT * k == last;
      }
    }
  }

  ghost function During(log: seq<Failure>, start: nat, end: nat): set<int> {
    set i | 0 <= i < |log| && start <= log[i].time < end
  }

  /** In any stretch of failing logins, however dense, at most 8k + 6 of them are verified in
      any period of 60k seconds. */
  lemma FailuresAreThrottled(calls: seq<nat>, start: nat, k: nat)
    requires Clock(calls) && k >= 1
    ensures |During(Failing(INITIAL, calls).1, start, start + WINDOW * k)| <= LIMIT * k + LIMIT - 2
  {
    FailingIsWindowed(calls);
    var log := Failing(INITIAL, calls).1;
    var now := if calls == [] then 0 else calls[|calls| - 1];
    var during := During(log, start, start + WINDOW * k);
    if during != {} {
      var first := Least(during);
      forall i | i in during ensures first <= i < first + LIMIT * k + LIMIT - 2 {
        if i >= first + LIMIT * k + LIMIT - 2 {
          FailuresAreSpread(log, now, first, k, i);
        }
      }
      RangeSize(during, first, LIMIT * k + LIMIT - 2);
    }
  }

  // ---------- every sequence of logins ----------

  function StateAfter(logins: seq<Login>): State {
    if logins == [] then INITIAL else Served(StateAfter(logins[..|logins| - 1]), logins[|logins| - 1])
  }

  function VerdictAt(logins: seq<Login>, i: nat): Verdict
    requires i < |logins|
  {
    Judged(StateAfter(logins[..i]), logins[i])
  }

  ghost predicate NoSuccess(logins: seq<Login>, from: nat, until: nat)
    requires until <= |logins|
  {
    forall i :: from <= i < until ==> VerdictAt(logins, i) != Succeeded
  }

  /** The failed verifications among the calls `from..to` within a period. */
  ghost function FailedDuring(logins: seq<Login>, from: nat, until: nat, start: nat, end: nat): set<int>
    requires until <= |logins|
  {
    set i | from <= i < until && VerdictAt(logins, i) == Failed && start <= logins[i].time < end
  }

  function Times(logins: seq<Login>): seq<nat> {
    seq(|logins|, i requires 0 <= i < |logins| => logins[i].time)
  }

  lemma NextState(logins: seq<Login>, i: nat)
    requires i < |logins|
    ensures StateAfter(logins[..i + 1]) == Served(StateAfter(logins[..i]), logins[i])
  {
    assert logins[..i + 1][..i] == logins[..i];
  }

  /** A stretch without success starts from a throttle that is as good as new. */
  lemma {:induction false} StretchStart(logins: seq<Login>, from: nat, until: nat) returns (base: nat)
    requires from <= until <= |logins| && NoSuccess(logins, from, until)
    ensures base <= from && StateAfter(logins[..base]) == INITIAL && NoSuccess(logins, base, until)
    decreases from
  {
    if from == 0 {
      base := 0;
    } else if VerdictAt(logins, from - 1) == Succeeded {
      NextState(logins, from - 1);
      base := from;
    } else {
      base := StretchStart(logins, from - 1, until);
    }
  }

  lemma TimesAppend(logins: seq<Login>, base: nat, i: nat)
    requires base <= i < |logins|
    ensures Times(logins[base..i + 1]) == Times(logins[base..i]) + [logins[i].time]
  {}

  lemma DuringAppend(log: seq<Failure>, f: Failure, start: nat, end: nat)
    ensures |During(log + [f], start, end)| == |During(log, start, end)| + if start <= f.time < end then 1 else 0
  {
    var before, counted := During(log, start, end), start <= f.time < end;
    assert During(log + [f], start, end) == if counted then before + {|log|} else before;
  }

  lemma UnsuccessfulCall(s: State, log: seq<Failure>, login: Login, start: nat, end: nat)
    requires Judged(s, login) != Succeeded
    ensures var (after, log') := FailingCall(s, log, login.time);
      && Served(s, login) == after
      && |During(log', start, end)| == |During(log, start, end)|
           + if Judged(s, login) == Failed && start <= login.time < end then 1 else 0
  {
    DuringAppend(log, Failure(login.time, Recorded(Checked(s, login.time), false, login.time).windowStart), start, end);
  }

  lemma FailedAppend(logins: seq<Login>, base: nat, i: nat, start: nat, end: nat)
    requires base <= i < |logins|
    ensures |FailedDuring(logins, base, i + 1, start, end)| == |FailedDuring(logins, base, i, start, end)|
            + if VerdictAt(logins, i) == Failed && start <= logins[i].time < end then 1 else 0
  {
    var before := FailedDuring(logins, base, i, start, end);
    var counted := VerdictAt(logins, i) == Failed && start <= logins[i].time < end;
    assert FailedDuring(logins, base, i + 1, start, end) == if counted then before + {i} else before;
  }

  /** From there on the throttle counts the failures only. */
  lemma {:induction false} StretchIsFailing(logins: seq<Login>, base: nat, until: nat, start: nat, end: nat)
    requires base <= until <= |logins| && StateAfter(logins[..base]) == INITIAL && NoSuccess(logins, base, until)
    ensures var (s, log) := Failing(INITIAL, Times(logins[base..until]));
      && StateAfter(logins[..until]) == s
      && |FailedDuring(logins, base, until, start, end)| == |During(log, start, end)|
    decreases until
  {
    if until == base {
      assert Times(logins[base..until]) == [];
      assert FailedDuring(logins, base, until, start, end) == {};
      assert During([], start, end) == {};
    } else {
      var i := until - 1;
      StretchIsFailing(logins, base, i, start, end);
      var (s, log) := Failing(INITIAL, Times(logins[base..i]));
      TimesAppend(logins, base, i);
      FailingAppend(Times(logins[base..i]), logins[i].time);
      NextState(logins, i);
      assert VerdictAt(logins, i) != Succeeded;
      UnsuccessfulCall(s, log, logins[i], start, end);
      FailedAppend(logins, base, i, start, end);
    }
  }

  lemma StretchOfClock(logins: seq<Login>, base: nat, until: nat)
    requires LoginClock(logins) && base <= until <= |logins|
    ensures Clock(Times(logins[base..until]))
    ensures until < |logins| ==> Clock(Times(logins[base..until]) + [logins[until].time])
  {
    var calls, all := Times(logins[base..until]), Times(logins);
    assert forall i :: 0 <= i < |calls| ==> calls[i] == all[base + i];
    assert until < |logins| ==> logins[until].time == all[until];
  }

  predicate LoginClock(logins: seq<Login>) { Clock(Times(logins)) }

  /** Over every sequence of login calls, in any stretch of them without a success, at most
      8k + 6 passwords are tried in vain in any period of 60k seconds, and a call that is not
      refused finds room for its failure. */
  lemma LoginsAreThrottled(logins: seq<Login>, from: nat, until: nat, start: nat, k: nat)
    requires LoginClock(logins) && k >= 1
    requires from <= until <= |logins| && NoSuccess(logins, from, until)
    ensures |FailedDuring(logins, from, until, start, start + WINDOW * k)| <= LIMIT * k + LIMIT - 2
    ensures until < |logins| && VerdictAt(logins, until) != Refused ==>
      Checked(StateAfter(logins[..until]), logins[until].time).failures < LIMIT
  {
    var base := StretchStart(logins, from, until);
    var calls, end := Times(logins[base..until]), start + WINDOW * k;
    StretchOfClock(logins, base, until);
    StretchIsFailing(logins, base, until, start, end);
    FailuresAreThrottled(calls, start, k);
    SubsetSize(FailedDuring(logins, from, until, start, end), FailedDuring(logins, base, until, start, end));
    if until < |logins| {
      UnblockedHasRoom(calls, logins[until].time);
    }
  }
}
