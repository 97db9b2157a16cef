/** Finite runs of a machine whose steps may be refused and leave a log. */
module Runs {
  import opened Wrappers

  type Moves<!S, !E, T> = (S, E) -> Option<(S, seq<T>)>

  /** The state a run ends in and its log, if no step is refused. */
  function Execute<S, E, T>(move: Moves<S, E, T>, s: S, events: seq<E>): Option<(S, seq<T>)>
    decreases |events|
  {
    if events == [] then Some((s, []))
    else
      match move(s, events[0])
      case None => None
      case Some((next, first)) =>
        match Execute(move, next, events[1..])
        case None => None
        case Some((last, log)) => Some((last, first + log))
  }

  lemma {:induction false} ExecuteOneMore<S, E, T>(move: Moves<S, E, T>, s: S, events: seq<E>, e: E)
    requires Execute(move, s, events).Some? && move(Execute(move, s, events).value.0, e).Some?
    ensures var (last, log) := Execute(move, s, events).value;
            var (beyond, more) := move(last, e).value;
            Execute(move, s, events + [e]) == Some((beyond, log + more))
    decreases |events|
  {
    if events == [] {
      ExecuteOne(move, s, e);
      assert events + [e] == [e];
    } else {
      var (next, first) := move(s, events[0]).value;
      assert (events + [e])[0] == events[0] && (events + [e])[1..] == events[1..] + [e];
      ExecuteOneMore(move, next, events[1..], e);
      var (last, log) := Execute(move, next, events[1..]).value;
      var more := move(last, e).value.1;
      assert first + (log + more) == first + log + more;
    }
  }

  lemma ExecuteOne<S, E, T>(move: Moves<S, E, T>, s: S, e: E)
    requires move(s, e).Some?
    ensures Execute(move, s, [e]) == move(s, e)
    ensures [] + move(s, e).value.1 == move(s, e).value.1
  {
    var (next, first) := move(s, e).value;
    assert [e][1..] == [];
    assert Execute(move, next, [e][1..]) == Some((next, []));
    assert first + [] == first;
  }

  /** Some run leads from one state to another. */
  ghost predicate Goes<S, E(!new), T>(move: Moves<S, E, T>, s: S, s': S, log: seq<T>) {
    exists events: seq<E> :: Execute(move, s, events) == Some((s', log))
  }

  lemma GoesNowhere<S, E(!new), T>(move: Moves<S, E, T>, s: S)
    ensures Goes(move, s, s, [])
  {
    var none: seq<E> := [];
    assert Execute(move, s, none) == Some((s, []));
  }

  lemma GoesOneMore<S, E(!new), T>(move: Moves<S, E, T>, s: S, mid: S, log: seq<T>, e: E)
    requires Goes(move, s, mid, log) && move(mid, e).Some?
    ensures Goes(move, s, move(mid, e).value.0, log + move(mid, e).value.1)
  {
    var events: seq<E> :| Execute(move, s, events) == Some((mid, log));
    ExecuteOneMore(move, s, events, e);
    assert Execute(move, s, events + [e]) == Some((move(mid, e).value.0, log + move(mid, e).value.1));
  }
}
