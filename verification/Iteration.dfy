/** A loop without a bound: one turn either stops with a result or goes on from a new
    state. It may have no outcome at all. */
module Iteration {

  datatype Turn<S, R> = Stop(r: R) | Go(next: S)

  datatype Run<R> = Unfinished | Finished(r: R)

  /** At most `n` turns. */
  function Iterate<S, R>(turn: S -> Turn<S, R>, s: S, n: nat): Run<R> {
    if n == 0 then Unfinished
    else
      match turn(s)
      case Stop(r) => Finished(r)
      case Go(next) => Iterate(turn, next, n - 1)
  }

  lemma {:induction false} IterateAgrees<S, R>(turn: S -> Turn<S, R>, s: S, m: nat, n: nat)
    requires Iterate(turn, s, m).Finished? && m <= n
    ensures Iterate(turn, s, n) == Iterate(turn, s, m)
  {
    if turn(s).Go? {
      IterateAgrees(turn, turn(s).next, m - 1, n - 1);
    }
  }

  ghost predicate Halts<S, R(!new)>(turn: S -> Turn<S, R>, s: S) {
    exists n: nat :: Iterate(turn, s, n).Finished?
  }

  /** What a loop that comes to an end returns. */
  ghost function Outcome<S, R(!new)>(turn: S -> Turn<S, R>, s: S): R
    requires Halts(turn, s)
  {
    var n: nat :| Iterate(turn, s, n).Finished?;
    Iterate(turn, s, n).r
  }

  /** The outcome does not depend on how many turns are allowed. */
  lemma OutcomeIs<S, R(!new)>(turn: S -> Turn<S, R>, s: S, n: nat)
    requires Iterate(turn, s, n).Finished?
    ensures Halts(turn, s) && Outcome(turn, s) == Iterate(turn, s, n).r
  {
    var m: nat :| Iterate(turn, s, m) == Finished(Outcome(turn, s));
    if m <= n {
      IterateAgrees(turn, s, m, n);
    } else {
      IterateAgrees(turn, s, n, m);
    }
  }

  lemma OutcomeOfStop<S, R(!new)>(turn: S -> Turn<S, R>, s: S, r: R)
    requires turn(s) == Stop(r)
    ensures Halts(turn, s) && Outcome(turn, s) == r
  {
    OutcomeIs(turn, s, 1);
  }

  lemma OutcomeOfGo<S, R(!new)>(turn: S -> Turn<S, R>, s: S, next: S)
    requires turn(s) == Go(next)
    ensures Halts(turn, s) <==> Halts(turn, next)
    ensures Halts(turn, s) ==> Outcome(turn, s) == Outcome(turn, next)
  {
    if n: nat :| Iterate(turn, s, n).Finished? {
      OutcomeIs(turn, s, n);
      OutcomeIs(turn, next, n - 1);
    }
    if n: nat :| Iterate(turn, next, n).Finished? {
      assert Iterate(turn, s, n + 1) == Iterate(turn, next, n);
      assert Iterate(turn, s, n + 1).Finished?;
    }
  }

  lemma {:induction false} LeastTurns<S, R>(turn: S -> Turn<S, R>, s: S, n: nat) returns (m: nat)
    requires Iterate(turn, s, n).Finished?
    ensures 0 < m <= n && Iterate(turn, s, m).Finished? && Iterate(turn, s, m - 1) == Unfinished
  {
    if Iterate(turn, s, n - 1).Finished? {
      m := LeastTurns(turn, s, n - 1);
    } else {
      m := n;
    }
  }

  lemma LeastTurnsExist<S, R(!new)>(turn: S -> Turn<S, R>, s: S)
    requires Halts(turn, s)
    ensures exists m: nat :: m > 0 && Iterate(turn, s, m).Finished? && Iterate(turn, s, m - 1) == Unfinished
  {
    var n: nat :| Iterate(turn, s, n).Finished?;
    var m := LeastTurns(turn, s, n);
  }

  /** How many turns a loop that comes to an end still takes. */
  ghost function TurnsLeft<S, R(!new)>(turn: S -> Turn<S, R>, s: S): nat
    requires Halts(turn, s)
  {
    LeastTurnsExist(turn, s);
    var m: nat :| m > 0 && Iterate(turn, s, m).Finished? && Iterate(turn, s, m - 1) == Unfinished;
    m
  }

  lemma TurnsLeftShrink<S, R(!new)>(turn: S -> Turn<S, R>, s: S, next: S)
    requires turn(s) == Go(next) && Halts(turn, s)
    ensures Halts(turn, next) && TurnsLeft(turn, next) < TurnsLeft(turn, s)
  {
    OutcomeOfGo(turn, s, next);
    var n, m := TurnsLeft(turn, s), TurnsLeft(turn, next);
    assert Iterate(turn, next, n - 1) == Iterate(turn, s, n);
    if n <= m {
      IterateAgrees(turn, next, n - 1, m - 1);
    }
  }

  /** What holds where the loop stops, and carries over from the state after a turn to the
      one before it, holds wherever the loop comes to an end. */
  lemma {:induction false} BackwardsFromTheEnd<S(!new), R>(turn: S -> Turn<S, R>, holds: (S, nat) -> bool, s: S, n: nat)
    requires Iterate(turn, s, n).Finished? && CarriesBack(turn, holds)
    ensures holds(s, n)
  {
    assert CarriesAt(turn, holds, s, n);
    if turn(s).Go? {
      BackwardsFromTheEnd(turn, holds, turn(s).next, n - 1);
    }
  }

  ghost predicate CarriesBack<S(!new), R>(turn: S -> Turn<S, R>, holds: (S, nat) -> bool) {
    forall s, n: nat :: CarriesAt(turn, holds, s, n)
  }

  ghost predicate CarriesAt<S, R>(turn: S -> Turn<S, R>, holds: (S, nat) -> bool, s: S, n: nat) {
    n > 0 && (turn(s).Go? ==> holds(turn(s).next, n - 1)) ==> holds(s, n)
  }

  /** A loop that always goes on inside `stay` has no outcome there. */
  lemma {:induction false} StaysForever<S(!new), R>(turn: S -> Turn<S, R>, stay: S -> bool, s: S, n: nat)
    requires stay(s) && forall x | stay(x) :: turn(x).Go? && stay(turn(x).next)
    ensures Iterate(turn, s, n) == Unfinished
  {
    if n > 0 {
      StaysForever(turn, stay, turn(s).next, n - 1);
    }
  }
}
