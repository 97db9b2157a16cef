/** How tight the bound of the login throttle is, and what it needs of the clock (src/web.rs). */
module ThrottleBound {
  import opened Text
  import opened Throttle

  function Repeated<T>(x: T, n: nat): (xs: seq<T>)
    ensures |xs| == n && forall i :: 0 <= i < n ==> xs[i] == x
  {
    if n == 0 then [] else Repeated(x, n - 1) + [x]
  }

  lemma CountedCall(s: State, log: seq<Failure>, now: nat)
    requires 0 < s.windowStart <= now < s.windowStart + WINDOW && s.blockedUntil <= now && s.failures < LIMIT
    requires now + BLOCK <= U64_MAX
    ensures FailingCall(s, log, now)
      == (State(s.windowStart, s.failures + 1, if s.failures + 1 == LIMIT then now + BLOCK else s.blockedUntil),
          log + [Failure(now, s.windowStart)])
  {}

  function Burst(s: State, log: seq<Failure>, now: nat, n: nat): (State, seq<Failure>) {
    if n == 0 then (s, log)
    else
      var (before, counted) := Burst(s, log, now, n - 1);
      FailingCall(before, counted, now)
  }

  lemma {:induction false} FailingBurst(calls: seq<nat>, now: nat, n: nat)
    ensures var (s, log) := Failing(INITIAL, calls);
            Failing(INITIAL, calls + Repeated(now, n)) == Burst(s, log, now, n)
    decreases n
  {
    if n == 0 {
      assert calls + Repeated(now, 0) == calls;
    } else {
      var earlier := calls + Repeated(now, n - 1);
      FailingBurst(calls, now, n - 1);
      assert calls + Repeated(now, n) == earlier + [now];
      FailingAppend(earlier, now);
    }
  }

  /** A burst of failures in a window that has room for it. */
  lemma {:induction false} BurstIsCounted(s: State, log: seq<Failure>, now: nat, n: nat)
    requires 0 < s.windowStart <= now < s.windowStart + WINDOW && s.blockedUntil <= now && s.failures + n <= LIMIT
    requires now + BLOCK <= U64_MAX
    ensures Burst(s, log, now, n)
      == (State(s.windowStart, s.failures + n,
                if n > 0 && s.failures + n == LIMIT then now + BLOCK else s.blockedUntil),
          log + Repeated(Failure(now, s.windowStart), n))
    decreases n
  {
    var f := Failure(now, s.windowStart);
    if n == 0 {
      assert log + Repeated(f, 0) == log;
    } else {
      BurstIsCounted(s, log, now, n - 1);
      assert log + Repeated(f, n) == log + Repeated(f, n - 1) + [f];
      var (before, counted) := Burst(s, log, now, n - 1);
      CountedCall(before, counted, now);
    }
  }

  lemma CountsBurst(calls: seq<nat>, now: nat, n: nat)
    requires var s := Failing(INITIAL, calls).0;
      && 0 < s.windowStart <= now < s.windowStart + WINDOW && s.blockedUntil <= now && s.failures + n <= LIMIT
    requires now + BLOCK <= U64_MAX
    ensures var (s, log) := Failing(INITIAL, calls);
      Failing(INITIAL, calls + Repeated(now, n))
      == (State(s.windowStart, s.failures + n,
                if n > 0 && s.failures + n == LIMIT then now + BLOCK else s.blockedUntil),
          log + Repeated(Failure(now, s.windowStart), n))
  {
    var (s, log) := Failing(INITIAL, calls);
    FailingBurst(calls, now, n);
    BurstIsCounted(s, log, now, n);
  }

  lemma OpensWindow(calls: seq<nat>, now: nat)
    requires var s := Failing(INITIAL, calls).0; s.windowStart + WINDOW <= now && s.blockedUntil <= now
    ensures Failing(INITIAL, calls + [now])
            == (State(now, 1, 0), Failing(INITIAL, calls).1 + [Failure(now, now)])
  {
    FailingAppend(calls, now);
  }

  // ---------- the densest logins ----------

  /** One failure, six more at the end of its minute, and then eight as soon as the block is over,
      `k` times. */
  function Dense(k: nat): seq<nat> {
    if k == 0 then [100] + Repeated(159, 6)
    else
      var now := 100 + WINDOW * k;
      Dense(k - 1) + [now] + Repeated(now, 7)
  }

  /** All calls are at `last` or before, and `last` leaves room for a block. */
  ghost predicate ClockUntil(calls: seq<nat>, last: nat) {
    Clock(calls) && last + BLOCK <= U64_MAX && forall i :: 0 <= i < |calls| ==> calls[i] <= last
  }

  lemma ClockAppend(calls: seq<nat>, before: nat, now: nat, last: nat, n: nat)
    requires ClockUntil(calls, before) && before <= now <= last && 1 <= now && last + BLOCK <= U64_MAX
    ensures ClockUntil(calls + [now] + Repeated(last, n), last)
  {
    var all := calls + [now] + Repeated(last, n);
    forall i | 0 <= i < |all|
      ensures all[i] == if i < |calls| then calls[i] else if i == |calls| then now else last
    {}
  }

  lemma {:induction false} DenseTimes(k: nat)
    requires 160 + WINDOW * k <= U64_MAX && 159 + BLOCK <= U64_MAX
    ensures ClockUntil(Dense(k), if k == 0 then 159 else 100 + WINDOW * k)
  {
    if k == 0 {
      assert Dense(0) == [] + [100] + Repeated(159, 6);
      ClockAppend([], 0, 100, 159, 6);
    } else {
      DenseTimes(k - 1);
      ClockAppend(Dense(k - 1), if k == 1 then 159 else 100 + WINDOW * (k - 1), 100 + WINDOW * k, 100 + WINDOW * k, 7);
    }
  }

  lemma {:induction false} RepeatedDuring(log: seq<Failure>, f: Failure, n: nat, start: nat, end: nat)
    requires start <= f.time < end
    ensures |During(log + Repeated(f, n), start, end)| == |During(log, start, end)| + n
    decreases n
  {
    if n == 0 {
      assert log + Repeated(f, 0) == log;
    } else {
      RepeatedDuring(log, f, n - 1, start, end);
      DuringAppend(log + Repeated(f, n - 1), f, start, end);
      assert log + Repeated(f, n) == log + Repeated(f, n - 1) + [f];
    }
  }

  /** One failure that opens a window, and `n` more in it. */
  lemma OpenAndBurst(calls: seq<nat>, open: nat, now: nat, n: nat, start: nat, end: nat)
    requires var s := Failing(INITIAL, calls).0; s.windowStart + WINDOW <= open && s.blockedUntil <= open
    requires 0 < open <= now < open + WINDOW && now + BLOCK <= U64_MAX && 1 <= n < LIMIT && start <= now < end
    ensures var (s, log) := Failing(INITIAL, calls + [open] + Repeated(now, n));
      && s == State(open, n + 1, if n + 1 == LIMIT then now + BLOCK else 0)
      && |During(log, start, end)|
         == |During(Failing(INITIAL, calls).1, start, end)| + (if start <= open < end then 1 else 0) + n
  {
    var log, f := Failing(INITIAL, calls).1, Failure(open, open);
    OpensWindow(calls, open);
    CountsBurst(calls + [open], now, n);
    DuringAppend(log, f, start, end);
    RepeatedDuring(log + [f], Failure(now, open), n, start, end);
  }

  ghost predicate DenselyCounted(calls: seq<nat>, k: nat, end: nat) {
    var (s, log) := Failing(INITIAL, calls);
    && s == (if k == 0 then State(100, 7, 0) else State(100 + WINDOW * k, LIMIT, 160 + WINDOW * k))
    && |During(log, 159, end)| == LIMIT * k + LIMIT - 2
  }

  lemma DenseStarts(end: nat)
    requires end > 159
    ensures DenselyCounted(Dense(0), 0, end)
  {
    assert Dense(0) == [] + [100] + Repeated(159, 6);
    OpenAndBurst([], 100, 159, 6, 159, end);
    assert During([], 159, end) == {};
  }

  lemma DenseContinues(calls: seq<nat>, k: nat, end: nat)
    requires k >= 1 && DenselyCounted(calls, k - 1, end)
    requires 160 + WINDOW * k <= U64_MAX && end > 100 + WINDOW * k
    ensures DenselyCounted(calls + [100 + WINDOW * k] + Repeated(100 + WINDOW * k, 7), k, end)
  {
    OpenAndBurst(calls, 100 + WINDOW * k, 100 + WINDOW * k, 7, 159, end);
  }

  lemma {:induction false} DenseIsCounted(k: nat, end: nat)
    requires 160 + WINDOW * k <= U64_MAX && end > 159 && end > 100 + WINDOW * k
    ensures DenselyCounted(Dense(k), k, end)
  {
    if k == 0 {
      DenseStarts(end);
    } else {
      DenseIsCounted(k - 1, end);
      DenseContinues(Dense(k - 1), k, end);
    }
  }

  /** Calls with wrong passwords. */
  function Wrong(calls: seq<nat>): (logins: seq<Login>)
    ensures Times(logins) == calls
  {
    seq(|calls|, i requires 0 <= i < |calls| => Login(calls[i], false))
  }

  lemma WrongIsFailing(calls: seq<nat>, start: nat, end: nat)
    ensures NoSuccess(Wrong(calls), 0, |calls|)
    ensures |FailedDuring(Wrong(calls), 0, |calls|, start, end)| == |During(Failing(INITIAL, calls).1, start, end)|
  {
    var logins := Wrong(calls);
    forall i: nat | i < |calls| ensures VerdictAt(logins, i) != Succeeded {
      assert !logins[i].correct;
    }
    assert logins[..0] == [] && logins[0..|calls|] == logins;
    StretchIsFailing(logins, 0, |calls|, start, end);
  }

  /** The bound is reached for every number of minutes: some sequence of calls with wrong passwords
      has exactly 8k + 6 of them verified within 60k seconds. */
  lemma BoundIsReached(k: nat) returns (logins: seq<Login>)
    requires k >= 1 && 160 + WINDOW * k <= U64_MAX
    ensures LoginClock(logins) && NoSuccess(logins, 0, |logins|)
    ensures |FailedDuring(logins, 0, |logins|, 159, 159 + WINDOW * k)| == LIMIT * k + LIMIT - 2
  {
    DenseTimes(k);
    DenseIsCounted(k, 159 + WINDOW * k);
    WrongIsFailing(Dense(k), 159, 159 + WINDOW * k);
    logins := Wrong(Dense(k));
  }

  // ---------- the clock ----------

  lemma {:induction false} AtEpochNothingBlocks(n: nat)
    ensures var (s, log) := Failing(INITIAL, Repeated(0, n));
            s == State(0, if n == 0 then 0 else 1, 0) && |log| == n
    decreases n
  {
    if n > 0 {
      AtEpochNothingBlocks(n - 1);
      assert Repeated(0, n)[..n - 1] == Repeated(0, n - 1);
    }
  }

  /** The clock conditions matter: at clock value 0 every failure restarts the window and none
      is ever refused, and at the largest clock value a full throttle neither blocks nor
      restarts. */
  lemma ClockConditionsMatter(n: nat)
    ensures |Failing(INITIAL, Repeated(0, n)).1| == n
    ensures var full := Recorded(State(U64_MAX - 1, 7, 0), false, U64_MAX - 1);
            !IsBlocked(full, U64_MAX) && Checked(full, U64_MAX).failures == LIMIT
  {
    AtEpochNothingBlocks(n);
  }
}
