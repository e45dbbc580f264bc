/**
 * When the pinger looks for missing data (shouldDoDataReceiveCheck and bumpNextDataReceiveCheck in
 * pkg/libgm/longpoll.go). Times are nanoseconds.
 */
module DataReceiveCheck {
  import opened Basics

  /** DefaultBugleDefaultCheckInterval, two hours and 55 minutes. */
  const CHECK_INTERVAL := 10_500_000_000_000

  datatype Call = Check(now: int) | Bump(now: int, after: int)

  predicate Due(nextCheck: int, now: int) {
    nextCheck - now <= 0
  }

  function Next(nextCheck: int, call: Call): int {
    match call
    case Check(now) => if Due(nextCheck, now) then now + CHECK_INTERVAL else nextCheck
    case Bump(now, after) => if nextCheck - now < after then now + after else nextCheck
  }

  class Client {
    var nextDataReceiveCheck: int

    method ShouldDoDataReceiveCheck(now: int) returns (due: bool)
      modifies this
      ensures due == Due(old(nextDataReceiveCheck), now)
      ensures nextDataReceiveCheck == Next(old(nextDataReceiveCheck), Check(now))
    {
      if nextDataReceiveCheck - now <= 0 {
        nextDataReceiveCheck := now + CHECK_INTERVAL;
        return true;
      }
      return false;
    }

    method BumpNextDataReceiveCheck(now: int, after: int)
      modifies this
      ensures nextDataReceiveCheck == Next(old(nextDataReceiveCheck), Bump(now, after))
    {
      if nextDataReceiveCheck - now < after {
        nextDataReceiveCheck := now + after;
      }
    }
  }

  function After(start: int, calls: seq<Call>): int {
    if calls == [] then start else Next(After(start, calls[..|calls| - 1]), calls[|calls| - 1])
  }

  /** Call k puts the next check off until this time, if it does. */
  function Deadline(start: int, calls: seq<Call>, k: nat): Option<int>
    requires k < |calls|
  {
    match calls[k]
    case Check(now) => if Due(After(start, calls[..k]), now) then Some(now + CHECK_INTERVAL) else None
    case Bump(now, after) => Some(now + after)
  }

  predicate Passed(deadline: Option<int>, now: int) {
    deadline.None? || deadline.value <= now
  }

  /** A check comes out true exactly when every deadline set so far has passed, whatever their order. */
  lemma {:induction false} DueMeansPassed(start: int, calls: seq<Call>, now: int)
    ensures Due(After(start, calls), now) <==>
      start <= now && forall k :: 0 <= k < |calls| ==> Passed(Deadline(start, calls, k), now)
  {
    if calls != [] {
      var last := |calls| - 1;
      var before := calls[..last];
      DueMeansPassed(start, before, now);
      forall k | 0 <= k < last
        ensures Deadline(start, calls, k) == Deadline(start, before, k)
      {
        assert before[..k] == calls[..k];
      }
      if Deadline(start, calls, last).Some? {
        DeadlineIsMax(After(start, before), calls[last]);
      }
    }
  }

  /** A deadline only ever moves the next check back. */
  lemma DeadlineIsMax(nextCheck: int, call: Call)
    ensures match call
      case Check(now) =>
        Next(nextCheck, call) == if Due(nextCheck, now) then Max(nextCheck, now + CHECK_INTERVAL) else nextCheck
      case Bump(now, after) => Next(nextCheck, call) == Max(nextCheck, now + after)
  {
  }

  /** Two checks that come out true are an interval apart, and data in between puts the second off further. */
  lemma ChecksAreSpaced(start: int, calls: seq<Call>, j: nat, k: nat)
    requires j < k < |calls| && calls[k].Check? && Due(After(start, calls[..k]), calls[k].now)
    ensures calls[j].Check? && Due(After(start, calls[..j]), calls[j].now) ==>
      calls[k].now >= calls[j].now + 10_500_000_000_000
    ensures calls[j].Bump? ==> calls[k].now >= calls[j].now + calls[j].after
  {
    var before := calls[..k];
    DueMeansPassed(start, before, calls[k].now);
    assert before[..j] == calls[..j];
    assert Passed(Deadline(start, before, j), calls[k].now);
  }
}
