/** The sign-in lockout: what the failure counter lets through over time. */
module Throttle {
  datatype Limits = Limits(free: nat, window: real, cap: real)

  const DEFAULT := Limits(10, 900.0, 900.0)

  /** Seconds as the clock gives them; the wait is whole seconds. */
  function Truncate(x: real): int {
    if x >= 0.0 then x.Floor else -((-x).Floor)
  }

  function Pow2(n: nat): (p: nat)
    ensures p >= 1
  {
    if n == 0 then 1 else 2 * Pow2(n - 1)
  }

  /** The lockout after a failure that makes `n` in the window, more than the free ones. */
  function Lock(limits: Limits, n: nat): real
    requires n > limits.free
  {
    var doubled := 30.0 * Pow2(n - limits.free - 1) as real;
    if doubled <= limits.cap then doubled else limits.cap
  }

  /** The failures still inside the window, in order. */
  function Recent(fails: seq<real>, now: real, window: real): seq<real> {
    if fails == [] then []
    else
      var t := fails[|fails| - 1];
      Recent(fails[..|fails| - 1], now, window) + if now - t < window then [t] else []
  }

  const KEPT := 1000

  function Newest(s: seq<real>): seq<real> {
    if |s| > KEPT then s[|s| - KEPT..] else s
  }

  /** `fails` and `until` as the object holds them. */
  datatype State = State(fails: seq<real>, until: real)

  const CLEAR := State([], 0.0)

  function Wait(s: State, now: real): int {
    var w := Truncate(s.until - now + 0.999);
    if w > 0 then w else 0
  }

  function Failure(limits: Limits, s: State, now: real): State {
    var fails := Newest(Recent(s.fails, now, limits.window)) + [now];
    State(fails, if |fails| > limits.free then now + Lock(limits, |fails|) else s.until)
  }

  class Throttle {
    const limits: Limits
    var fails: seq<real>
    var until: real

    constructor (limits: Limits := DEFAULT)
      ensures this.limits == limits && View() == CLEAR
    {
      this.limits := limits;
      fails, until := [], 0.0;
    }

    function View(): State
      reads this
    {
      State(fails, until)
    }

    /**
     Whole seconds before another attempt is allowed: never negative, never less than what is left
     but for a thousandth of a second, and less than a second more. 0 lets it through.
     */
    method WaitTime(now: real) returns (seconds: int)
      ensures seconds == Wait(View(), now)
      ensures seconds >= 0 && (seconds == 0 <==> until - now < 0.001)
      ensures seconds > 0 ==> seconds as real - 0.999 <= until - now < seconds as real + 0.001
    {
      WaitRounds(View(), now);
      seconds := Truncate(until - now + 0.999);
      if seconds < 0 {
        seconds := 0;
      }
    }

    method RecordFailure(now: real)
      modifies this
      ensures View() == Failure(limits, old(View()), now)
    {
      var kept: seq<real> := [];
      for k := 0 to |fails|
        invariant fails == old(fails) && until == old(until)
        invariant kept == Recent(fails[..k], now, limits.window)
      {
        assert fails[..k + 1][..k] == fails[..k];
        if now - fails[k] < limits.window {
          kept := kept + [fails[k]];
        }
      }
      assert fails[..|fails|] == fails;
      if |kept| > KEPT {
        kept := kept[|kept| - KEPT..];
      }
      fails := kept + [now];
      if |fails| > limits.free {
        until := now + Lock(limits, |fails|);
      }
    }

    method RecordSuccess()
      modifies this
      ensures View() == CLEAR
    {
      fails, until := [], 0.0;
    }
  }

  // ---- attempts, one after another ----

  datatype Outcome = Bad | Good | Other

  /** A credential check asked for at `start`; when let through, it ends at `end`. */
  datatype Attempt = Attempt(start: real, end: real, outcome: Outcome)

  /** The throttle, with the failed checks since the last success and how many each one counted. */
  datatype Record = Record(s: State, times: seq<real>, counts: seq<nat>)

  const NEW := Record(CLEAR, [], [])

  /** A check that is refused by the lockout does not take place. */
  function Try(limits: Limits, r: Record, a: Attempt): Record {
    if Wait(r.s, a.start) > 0 then r
    else match a.outcome
      case Bad =>
        var s := Failure(limits, r.s, a.end);
        Record(s, r.times + [a.end], r.counts + [|s.fails|])
      case Good => NEW
      case Other => r
  }

  function TryAll(limits: Limits, r: Record, attempts: seq<Attempt>): Record
    decreases |attempts|
  {
    if attempts == [] then r else TryAll(limits, Try(limits, r, attempts[0]), attempts[1..])
  }

  /** One after another, on a clock that never goes back. */
  ghost predicate Serial(attempts: seq<Attempt>, now: real)
    decreases |attempts|
  {
    attempts != [] ==>
      now <= attempts[0].start <= attempts[0].end && Serial(attempts[1..], attempts[0].end)
  }

  // ---- what is kept ----

  predicate Sorted(s: seq<real>) {
    forall i, j :: 0 <= i < j < |s| ==> s[i] <= s[j]
  }

  lemma RecentLast(fails: seq<real>, now: real, window: real)
    requires fails != []
    ensures var n := |fails| - 1;
      Recent(fails, now, window) == Recent(fails[..n], now, window) + if now - fails[n] < window then [fails[n]] else []
  {
  }

  /** In a sorted list everything is as old as the last, or older. */
  lemma OlderThanLast(fails: seq<real>, now: real, window: real)
    requires Sorted(fails) && fails != [] && now - fails[|fails| - 1] >= window
    ensures forall j :: 0 <= j < |fails| ==> now - fails[j] >= window
  {
  }

  /** Pruning a sorted list drops a prefix of it. */
  lemma {:induction false} RecentIsSuffix(fails: seq<real>, now: real, window: real) returns (m: nat)
    requires Sorted(fails)
    ensures m <= |fails| && Recent(fails, now, window) == fails[m..]
    ensures forall j :: 0 <= j < |fails| ==> (j < m <==> now - fails[j] >= window)
  {
    if fails == [] {
      m := 0;
    } else if now - fails[|fails| - 1] >= window {
      OlderThanLast(fails, now, window);
      RecentNone(fails, now, window);
      m := |fails|;
    } else {
      var n := |fails| - 1;
      m := RecentIsSuffix(fails[..n], now, window);
      RecentLast(fails, now, window);
      assert fails[m..] == fails[..n][m..] + [fails[n]];
    }
  }

  lemma {:induction false} RecentNone(fails: seq<real>, now: real, window: real)
    requires forall j :: 0 <= j < |fails| ==> now - fails[j] >= window
    ensures Recent(fails, now, window) == []
  {
    if fails != [] {
      RecentNone(fails[..|fails| - 1], now, window);
    }
  }

  /** The list is the tail of all the failures: what was dropped is out of the window, or a thousand newer ones remain. */
  ghost predicate TailKept(limits: Limits, r: Record) {
    && |r.s.fails| <= |r.times|
    && r.s.fails == r.times[|r.times| - |r.s.fails|..]
    && forall j :: 0 <= j < |r.times| - |r.s.fails| ==>
         r.times[|r.times| - 1] - r.times[j] >= limits.window || |r.s.fails| > KEPT
  }

  /** Failure `i` counted itself and the earlier ones inside its window, no others, and a thousand of them at most. */
  ghost predicate Counted(limits: Limits, r: Record, i: nat)
    requires i < |r.times| == |r.counts|
  {
    && (forall k :: 0 <= k <= i && r.times[i] - r.times[k] < limits.window ==> r.counts[i] >= i - k + 1 || r.counts[i] > KEPT)
    && (forall k :: 0 <= k <= i && r.times[i] - r.times[k] >= limits.window ==> r.counts[i] <= i - k)
    && r.counts[i] <= KEPT + 1 && r.counts[i] <= i + 1
  }

  /** The failure after `i` came after the lockout that `i` caused, but for the rounding of the wait. */
  ghost predicate Spaced(limits: Limits, r: Record, i: nat)
    requires i + 1 < |r.times| == |r.counts|
  {
    r.counts[i] > limits.free ==> r.times[i + 1] > r.times[i] + Lock(limits, r.counts[i]) - 0.001
  }

  ghost predicate UntilOk(limits: Limits, r: Record) {
    if r.times == [] then r.s == CLEAR
    else
      var n := |r.times| - 1;
      && |r.counts| == |r.times| && r.counts[n] == |r.s.fails|
      && (|r.s.fails| > limits.free ==> r.s.until == r.times[n] + Lock(limits, |r.s.fails|))
      && (r.s.until <= r.times[n] + limits.cap || r.s.until == 0.0)
  }

  /** The lockout is that of the last failure that counted more than the free ones, if there is one. */
  ghost predicate LockedBy(limits: Limits, r: Record)
    requires |r.times| == |r.counts|
  {
    || (r.s.until == 0.0 && forall i :: 0 <= i < |r.counts| ==> r.counts[i] <= limits.free)
    || exists i: nat :: LastOver(limits, r.counts, i) && r.s.until == r.times[i] + Lock(limits, r.counts[i])
  }

  predicate LastOver(limits: Limits, counts: seq<nat>, i: nat) {
    i < |counts| && counts[i] > limits.free && forall k :: i < k < |counts| ==> counts[k] <= limits.free
  }

  ghost predicate Inv(limits: Limits, r: Record, now: real) {
    && |r.counts| == |r.times| && Sorted(r.times)
    && (r.times != [] ==> r.times[|r.times| - 1] <= now)
    && TailKept(limits, r)
    && (forall i :: 0 <= i < |r.times| ==> Counted(limits, r, i))
    && (forall i :: 0 <= i < |r.times| - 1 ==> Spaced(limits, r, i))
    && UntilOk(limits, r)
    && LockedBy(limits, r)
  }

  lemma SortedTail(s: seq<real>, m: nat)
    requires Sorted(s) && m <= |s|
    ensures Sorted(s[m..])
  {
  }

  lemma NewestIsSuffix(times: seq<real>, from: nat) returns (e: nat)
    requires from <= |times|
    ensures from <= e <= |times| && Newest(times[from..]) == times[e..]
    ensures if |times| - from > KEPT then |times| - e == KEPT else e == from
  {
    e := |times| - |Newest(times[from..])|;
  }

  /** What a failure keeps is a tail of all the failures, and why each other one is dropped. */
  lemma KeptTail(limits: Limits, r: Record, now: real) returns (m: nat, e: nat)
    requires Sorted(r.times) && TailKept(limits, r)
    ensures var d, kept := |r.times| - |r.s.fails|, Newest(Recent(r.s.fails, now, limits.window));
      && d + m <= e <= |r.times| && kept == r.times[e..]
      && (e > d + m ==> |kept| == KEPT)
      && (m == 0 && |r.s.fails| > KEPT ==> |kept| == KEPT)
      && |kept| <= KEPT
      && forall j :: d <= j < |r.times| ==> (j < d + m <==> now - r.times[j] >= limits.window)
  {
    m, e := KeptSuffix(limits, r.times, |r.times| - |r.s.fails|, r.s.fails, now);
  }

  lemma KeptSuffix(limits: Limits, times: seq<real>, d: nat, fails: seq<real>, now: real) returns (m: nat, e: nat)
    requires Sorted(times) && d <= |times| && fails == times[d..]
    ensures m <= |fails| && d + m <= e <= |times| && Newest(Recent(fails, now, limits.window)) == times[e..]
    ensures if |times| - (d + m) > KEPT then |times| - e == KEPT else e == d + m
    ensures forall j :: d <= j < |times| ==> (j < d + m <==> now - times[j] >= limits.window)
  {
    SortedTail(times, d);
    m := RecentIsSuffix(fails, now, limits.window);
    assert fails[m..] == times[d + m..];
    e := NewestIsSuffix(times, d + m);
    forall j | d <= j < |times| ensures j < d + m <==> now - times[j] >= limits.window {
      assert times[j] == fails[j - d];
    }
  }

  lemma FailureKeepsTail(limits: Limits, r: Record, now: real)
    requires limits.window > 0.0 && Sorted(r.times) && TailKept(limits, r)
    requires r.times != [] ==> r.times[|r.times| - 1] <= now
    ensures var s := Failure(limits, r.s, now);
      TailKept(limits, Record(s, r.times + [now], r.counts + [|s.fails|]))
  {
    var m, e := KeptTail(limits, r, now);
    var times, d := r.times, |r.times| - |r.s.fails|;
    var kept := times[e..];
    assert kept + [now] == (times + [now])[e..];
    forall j | 0 <= j < e ensures now - times[j] >= limits.window || |kept| + 1 > KEPT {
      if j < d && times[|times| - 1] - times[j] < limits.window && m > 0 {
        assert now - times[d] >= limits.window;
      }
    }
  }

  lemma FailureCounts(limits: Limits, r: Record, now: real)
    requires Inv(limits, r, now) && limits.window > 0.0
    ensures var s := Failure(limits, r.s, now);
      Counted(limits, Record(s, r.times + [now], r.counts + [|s.fails|]), |r.times|)
  {
    FailureKeepsTail(limits, r, now);
    var m, e := KeptTail(limits, r, now);
  }

  lemma WaitRounds(s: State, now: real)
    ensures var n := Wait(s, now); var left := s.until - now;
      && n >= 0 && (n == 0 <==> left < 0.001)
      && (n > 0 ==> n as real - 0.999 <= left < n as real + 0.001)
  {
    var x := s.until - now + 0.999;
    var f := x.Floor;
    assert f as real <= x < f as real + 1.0;
  }

  lemma WaitZero(s: State, now: real)
    requires Wait(s, now) == 0
    ensures now > s.until - 0.001
  {
    WaitRounds(s, now);
  }

  lemma LockIsCapped(limits: Limits, n: nat)
    requires n > limits.free
    ensures Lock(limits, n) <= limits.cap
  {
  }

  lemma FailureKeepsUntil(limits: Limits, r: Record, now: real)
    requires Inv(limits, r, now) && limits.cap >= 0.0
    ensures var s := Failure(limits, r.s, now);
      UntilOk(limits, Record(s, r.times + [now], r.counts + [|s.fails|]))
  {
    var n := |Failure(limits, r.s, now).fails|;
    if n > limits.free {
      LockIsCapped(limits, n);
    }
  }

  /** The record after one more failed check. */
  function Failed(limits: Limits, r: Record, now: real): Record {
    var s := Failure(limits, r.s, now);
    Record(s, r.times + [now], r.counts + [|s.fails|])
  }

  lemma FailureLocks(limits: Limits, r: Record, now: real)
    requires |r.times| == |r.counts| && LockedBy(limits, r)
    ensures LockedBy(limits, Failed(limits, r, now))
  {
    var r' := Failed(limits, r, now);
    if r'.counts[|r.counts|] > limits.free {
      assert LastOver(limits, r'.counts, |r.counts|);
    } else if i: nat :| LastOver(limits, r.counts, i) && r.s.until == r.times[i] + Lock(limits, r.counts[i]) {
      assert LastOver(limits, r'.counts, i);
    }
  }

  lemma FailureKeepsCounted(limits: Limits, r: Record, now: real, i: nat)
    requires Inv(limits, r, now) && limits.window > 0.0 && i <= |r.times|
    ensures Counted(limits, Failed(limits, r, now), i)
  {
    if i < |r.times| {
      assert Counted(limits, r, i);
    } else {
      FailureCounts(limits, r, now);
    }
  }

  lemma FailureKeepsSpaced(limits: Limits, r: Record, start: real, now: real, i: nat)
    requires Inv(limits, r, now) && start <= now && Wait(r.s, start) == 0 && i < |r.times|
    ensures Spaced(limits, Failed(limits, r, now), i)
  {
    if i < |r.times| - 1 {
      assert Spaced(limits, r, i);
    } else {
      WaitZero(r.s, start);
    }
  }

  lemma SortedSnoc(times: seq<real>, now: real)
    requires Sorted(times) && (times != [] ==> times[|times| - 1] <= now)
    ensures Sorted(times + [now])
  {
  }

  lemma FailureKeepsInv(limits: Limits, r: Record, start: real, now: real)
    requires Inv(limits, r, now) && start <= now && limits.window > 0.0 && limits.cap >= 0.0 && Wait(r.s, start) == 0
    ensures Inv(limits, Failed(limits, r, now), now)
  {
    var r' := Failed(limits, r, now);
    SortedSnoc(r.times, now);
    FailureKeepsTail(limits, r, now);
    FailureKeepsUntil(limits, r, now);
    FailureLocks(limits, r, now);
    forall i | 0 <= i < |r'.times| ensures Counted(limits, r', i) {
      FailureKeepsCounted(limits, r, now, i);
    }
    forall i | 0 <= i < |r'.times| - 1 ensures Spaced(limits, r', i) {
      FailureKeepsSpaced(limits, r, start, now, i);
    }
  }

  lemma TryKeepsInv(limits: Limits, r: Record, a: Attempt, now: real)
    requires Inv(limits, r, now) && now <= a.start <= a.end && limits.window > 0.0 && limits.cap >= 0.0
    ensures Inv(limits, Try(limits, r, a), a.end)
  {
    if Wait(r.s, a.start) == 0 && a.outcome == Bad {
      FailureKeepsInv(limits, r, a.start, a.end);
    }
  }

  lemma {:induction false} TryAllKeepsInv(limits: Limits, r: Record, attempts: seq<Attempt>, now: real) returns (end: real)
    requires Inv(limits, r, now) && Serial(attempts, now) && limits.window > 0.0 && limits.cap >= 0.0
    ensures end >= now && Inv(limits, TryAll(limits, r, attempts), end)
    decreases |attempts|
  {
    if attempts == [] {
      end := now;
    } else {
      TryKeepsInv(limits, r, attempts[0], now);
      end := TryAllKeepsInv(limits, Try(limits, r, attempts[0]), attempts[1..], attempts[0].end);
    }
  }

  /** Each failure over the free ones doubles the lockout, up to the cap. */
  lemma LockDoubles(limits: Limits, n: nat)
    requires n > limits.free && limits.cap >= 0.0
    ensures Lock(limits, limits.free + 1) == if 30.0 <= limits.cap then 30.0 else limits.cap
    ensures Lock(limits, n + 1) == if 2.0 * Lock(limits, n) <= limits.cap then 2.0 * Lock(limits, n) else limits.cap
  {
  }

  /**
   After any attempts, one after another: each failed check counted itself and the others of its window, and
   the lockout is what follows from these counts alone.
   */
  lemma LockoutExplained(limits: Limits, attempts: seq<Attempt>, now: real)
    requires Serial(attempts, now) && limits.window > 0.0 && limits.cap >= 0.0
    ensures var r := TryAll(limits, NEW, attempts);
      |r.counts| == |r.times| && LockedBy(limits, r) && forall i :: 0 <= i < |r.times| ==> Counted(limits, r, i)
  {
    var end := TryAllKeepsInv(limits, NEW, attempts, now);
  }

  // ---- the console's own limits ----

  /** Half a minute after the eleventh failure of a window, twice as long after each further one, a quarter of an hour from the sixteenth on. */
  lemma {:induction false} LockTable(n: nat)
    requires n > 10
    ensures Lock(DEFAULT, n) ==
      if n == 11 then 30.0 else if n == 12 then 60.0 else if n == 13 then 120.0
      else if n == 14 then 240.0 else if n == 15 then 480.0 else 900.0
  {
    LockDoubles(DEFAULT, if n > 11 then n - 1 else n);
    if n > 11 {
      LockTable(n - 1);
    }
  }

  /** Ten failed checks are free: with no more of them since the last success, nothing is locked. */
  lemma TenAreFree(attempts: seq<Attempt>, now: real, later: real)
    requires Serial(attempts, now) && |TryAll(DEFAULT, NEW, attempts).times| <= 10 && later >= 0.0
    ensures Wait(TryAll(DEFAULT, NEW, attempts).s, later) == 0
  {
    var r := TryAll(DEFAULT, NEW, attempts);
    var end := TryAllKeepsInv(DEFAULT, NEW, attempts, now);
    forall i | 0 <= i < |r.counts| ensures r.counts[i] <= 10 {
      assert Counted(DEFAULT, r, i);
    }
  }

  /** Sixteen failures cannot fit in a window: the last five lockouts alone take longer. */
  lemma SixteenTakeLonger(r: Record, now: real, k: nat)
    requires Inv(DEFAULT, r, now) && k + 15 < |r.times|
    ensures r.times[k + 15] - r.times[k] >= 900.0
  {
    if r.times[k + 15] - r.times[k] < 900.0 {
      assert Pow2(0) == 1 && Pow2(1) == 2 && Pow2(2) == 4 && Pow2(3) == 8 && Pow2(4) == 16;
      LockAtLeast(r, now, k, k + 10, 30.0, 0);
      LockAtLeast(r, now, k, k + 11, 60.0, 1);
      LockAtLeast(r, now, k, k + 12, 120.0, 2);
      LockAtLeast(r, now, k, k + 13, 240.0, 3);
      LockAtLeast(r, now, k, k + 14, 480.0, 4);
    }
  }

  lemma {:induction false} Pow2Grows(a: nat, b: nat)
    requires a <= b
    ensures Pow2(a) <= Pow2(b)
    decreases b
  {
    if a < b {
      Pow2Grows(a, b - 1);
    }
  }

  lemma LockAtLeast(r: Record, now: real, k: nat, i: nat, lock: real, e: nat)
    requires Inv(DEFAULT, r, now) && k <= i && i + 1 < |r.times|
    requires r.times[i] - r.times[k] < 900.0 && i - k == 10 + e && e <= 4
    requires lock == 30.0 * Pow2(e) as real && lock <= 900.0
    ensures r.times[i + 1] > r.times[i] + lock - 0.001
  {
    assert Counted(DEFAULT, r, i) && Spaced(DEFAULT, r, i);
    var n := r.counts[i];
    assert n >= 11 + e;
    Pow2Grows(e, n - 11);
    assert 30.0 * Pow2(n - 11) as real >= lock;
  }

  /**
   In any half-open window of 900 seconds without a success, with attempts made one after
   another, at most 15 failed checks take place.
   */
  lemma AtMostFifteen(attempts: seq<Attempt>, now: real, from: real, i: nat, j: nat)
    requires Serial(attempts, now)
    requires var times := TryAll(DEFAULT, NEW, attempts).times;
      i <= j < |times| && from <= times[i] && times[j] < from + 900.0
    ensures j - i + 1 <= 15
  {
    var end := TryAllKeepsInv(DEFAULT, NEW, attempts, now);
    if j - i >= 15 {
      SixteenTakeLonger(TryAll(DEFAULT, NEW, attempts), end, i);
    }
  }

  lemma WaitAtMost(s: State, later: real)
    requires s.until <= later + 900.0
    ensures 0 <= Wait(s, later) <= 900
  {
    WaitRounds(s, later);
  }

  /** The wait that is reported never exceeds 900 seconds. */
  lemma WaitIsCapped(attempts: seq<Attempt>, now: real, later: real)
    requires Serial(attempts, now) && now >= 0.0
    requires var times := TryAll(DEFAULT, NEW, attempts).times;
      later >= 0.0 && (times != [] ==> later >= times[|times| - 1])
    ensures 0 <= Wait(TryAll(DEFAULT, NEW, attempts).s, later) <= 900
  {
    var end := TryAllKeepsInv(DEFAULT, NEW, attempts, now);
    var r := TryAll(DEFAULT, NEW, attempts);
    assert UntilOk(DEFAULT, r);
    WaitAtMost(r.s, later);
  }
}
