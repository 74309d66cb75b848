/**
 * The time-budget clock of core/src/yield.ts. The module variable `startTime`
 * is a field of `Clock`; the two `Date.now()` readings a call takes are
 * parameters (`first` is read only when `startTime` is 0, `now` always).
 */
module YieldClock {

  /** The time budget of one contiguous run, in milliseconds. */
  const DEADLINE: int := 5

  /**
   * One `shouldYield` call from start time `start`: whether it yields, and
   * the start time it leaves behind.
   */
  function Decide(start: int, first: int, now: int): (bool, int) {
    var s := if start == 0 then first else start;
    if now - s >= DEADLINE then (true, 0) else (false, s)
  }

  /** The answers of successive calls, each reading the clock once as `rs[i]`. */
  function Answers(start: int, rs: seq<int>): (r: seq<bool>)
    ensures |r| == |rs|
    decreases |rs|
  {
    if rs == [] then []
    else
      var d := Decide(start, rs[0], rs[0]);
      [d.0] + Answers(d.1, rs[1..])
  }

  /**
   * From a fresh run (`startTime` 0, non-zero clock readings), a call yields
   * exactly when the budget has passed since the first call of the run; the
   * calls before the first yield all answer no.
   */
  lemma {:induction false} FirstYieldAtDeadline(rs: seq<int>, i: nat)
    requires i < |rs|
    requires rs[0] != 0
    requires forall j :: 0 <= j < i ==> !Answers(0, rs)[j]
    ensures Answers(0, rs)[i] <==> rs[i] - rs[0] >= DEADLINE
  {
    var s := rs[0];
    assert Decide(0, s, s) == (false, s);
    assert Answers(0, rs) == [false] + Answers(s, rs[1..]);
    if i > 0 {
      forall j | 0 <= j < i - 1 ensures !Answers(s, rs[1..])[j] {
        assert Answers(0, rs)[j + 1] == Answers(s, rs[1..])[j];
      }
      KeptStartFrom(s, rs[1..], i - 1);
    }
  }

  /** While no call yields, the recorded start stays at the run's first reading `s`. */
  lemma {:induction false} KeptStartFrom(s: int, rs: seq<int>, k: nat)
    requires s != 0
    requires k < |rs|
    requires forall j :: 0 <= j < k ==> !Answers(s, rs)[j]
    ensures Answers(s, rs)[k] <==> rs[k] - s >= DEADLINE
  {
    var d := Decide(s, rs[0], rs[0]);
    assert Answers(s, rs) == [d.0] + Answers(d.1, rs[1..]);
    assert Answers(s, rs)[0] == d.0;
    if k > 0 {
      assert !d.0;
      assert d.1 == s;
      forall j | 0 <= j < k - 1 ensures !Answers(s, rs[1..])[j] {
        assert Answers(s, rs)[j + 1] == Answers(s, rs[1..])[j];
      }
      KeptStartFrom(s, rs[1..], k - 1);
    }
  }

  /** Answering yes always ends the run: the next call starts a fresh budget. */
  lemma {:induction false} YieldRestartsBudget(start: int, first: int, now: int)
    requires Decide(start, first, now).0
    ensures Decide(start, first, now).1 == 0
    ensures forall a, b :: Decide(Decide(start, first, now).1, a, b) == Decide(0, a, b)
  {
  }

  class Clock {
    var startTime: int

    constructor ()
      ensures startTime == 0
    {
      startTime := 0;
    }

    /** `shouldYield()`; `first` and `now` are the clock readings of source lines 7 and 10. */
    method ShouldYield(first: int, now: int) returns (y: bool)
      modifies this
      ensures y <==> now - (if old(startTime) == 0 then first else old(startTime)) >= DEADLINE
      ensures y ==> startTime == 0
      ensures !y ==> startTime == (if old(startTime) == 0 then first else old(startTime))
      ensures (y, startTime) == Decide(old(startTime), first, now)
    {
      if startTime == 0 {
        startTime := first;
      }
      var timeElapsed := now - startTime;
      if timeElapsed >= DEADLINE {
        startTime := 0;
        return true;
      }
      return false;
    }

    /** `resetYieldTime()` */
    method ResetYieldTime()
      modifies this
      ensures startTime == 0
    {
      startTime := 0;
    }
  }
}
