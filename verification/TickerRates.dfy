/** How often a periodic timer fires. The next firing is counted from the tick that fired, not from
    when it was due, so the period drifts up to the tick times. */
module TickerRates {
  import opened TickerSteps

  /** Tick times after a clock reading, each at most `gap` after the one before. */
  predicate Paced(start: nat, times: seq<nat>, gap: nat)
    decreases |times|
  {
    times == [] || (start <= times[0] <= start + gap && Paced(times[0], times[1..], gap))
  }

  function Last(start: nat, times: seq<nat>): nat {
    if times == [] then start else times[|times| - 1]
  }

  /** n firings take at least n - 1 whole intervals after the first was due. */
  lemma {:induction false} AtMost(start: nat, next: nat, interval: nat, times: seq<nat>, gap: nat)
    requires Paced(start, times, gap)
    ensures var n := |Fires(next, interval, times)|; n > 0 ==> next + (n - 1) * interval <= Last(start, times)
    decreases |times|
  {
    if times != [] {
      if next <= times[0] {
        AtMost(times[0], times[0] + interval, interval, times[1..], gap);
        NeverBack(times[0], times[1..], gap);
        AtMostStep(|Fires(next, interval, times)|, next, times[0], interval, Last(start, times));
      } else {
        AtMost(times[0], next, interval, times[1..], gap);
      }
    }
  }

  lemma AtMostStep(n: nat, next: nat, t: nat, interval: nat, last: nat)
    requires n > 0 && next <= t <= last && (n > 1 ==> t + interval + (n - 2) * interval <= last)
    ensures next + (n - 1) * interval <= last
  {
    if n > 1 {
      assert (n - 1) * interval == interval + (n - 2) * interval;
    }
  }

  lemma {:induction false} NeverBack(start: nat, times: seq<nat>, gap: nat)
    requires Paced(start, times, gap)
    ensures start <= Last(start, times)
    decreases |times|
  {
    if times != [] {
      NeverBack(times[0], times[1..], gap);
    }
  }

  /** No firing is later than the gap allows. */
  lemma {:induction false} AtLeast(start: nat, next: nat, interval: nat, times: seq<nat>, gap: nat)
    requires Paced(start, times, gap) && interval > 0 && start < next
    ensures Last(start, times) < next + |Fires(next, interval, times)| * (interval + gap - 1)
    decreases |times|
  {
    if times != [] {
      if next <= times[0] {
        AtLeast(times[0], times[0] + interval, interval, times[1..], gap);
        AtLeastStep(|Fires(next, interval, times)|, next, times[0], interval, gap, Last(start, times));
      } else {
        AtLeast(times[0], next, interval, times[1..], gap);
      }
    }
  }

  lemma AtLeastStep(n: nat, next: nat, t: nat, interval: nat, gap: nat, last: nat)
    requires n > 0 && t <= next - 1 + gap && interval > 0
    requires last < t + interval + (n - 1) * (interval + gap - 1)
    ensures last < next + n * (interval + gap - 1)
  {
    assert n * (interval + gap - 1) == interval + gap - 1 + (n - 1) * (interval + gap - 1);
  }

  /** The number of firings of a timer between one of them, at the time the clock shows, and a later
      tick, in any run that does not register or remove it. */
  lemma RateBounds(s: State, actions: seq<Action>, id: Id, gap: nat) returns (n: nat)
    requires Wellformed(s) && Runs(s, actions) && id in s.active && id !in s.dropping
    requires forall i :: 0 <= i < |actions| ==> !About(actions[i], id)
    requires s.timers[id].interval > 0 && s.timers[id].next == s.now + s.timers[id].interval
    requires Paced(s.now, TickTimes(s.now, actions), gap)
    ensures id in Run(s, actions).timers
    ensures |Run(s, actions).timers[id].fired| == |s.timers[id].fired| + n
    ensures var interval, elapsed := s.timers[id].interval, Last(s.now, TickTimes(s.now, actions)) - s.now;
      && n * interval <= elapsed < interval + n * (interval + gap - 1)
      && n >= elapsed / (interval + gap)
  {
    FiresAlone(s, actions, id);
    n := FiresBetween(s.now, s.timers[id].interval, TickTimes(s.now, actions), gap);
  }

  /** A timer that fired at `start` fires n times at the given ticks. */
  lemma FiresBetween(start: nat, interval: nat, times: seq<nat>, gap: nat) returns (n: nat)
    requires Paced(start, times, gap) && interval > 0
    ensures n == |Fires(start + interval, interval, times)|
    ensures var elapsed := Last(start, times) - start;
      && n * interval <= elapsed < interval + n * (interval + gap - 1)
      && n >= elapsed / (interval + gap)
  {
    n := |Fires(start + interval, interval, times)|;
    NeverBack(start, times, gap);
    AtMost(start, start + interval, interval, times, gap);
    AtLeast(start, start + interval, interval, times, gap);
    if n > 0 {
      OneMore(n - 1, interval);
    }
    AtLeastFloor(Last(start, times) - start, n, interval, gap);
  }

  lemma AtLeastFloor(elapsed: nat, n: nat, interval: nat, gap: nat)
    requires interval > 0 && elapsed < interval + n * (interval + gap - 1)
    ensures n >= elapsed / (interval + gap)
  {
    var d, q := interval + gap, elapsed / (interval + gap);
    assert n * d == n * (interval + gap - 1) + n;
    assert q * d <= elapsed < n * d + d;
    if q > n {
      MoreTimes(n + 1, q, d);
    }
  }

  lemma MoreTimes(a: nat, b: nat, d: nat)
    requires a <= b
    ensures a * d <= b * d
  {
  }

  /** m ticks, `gap` apart. */
  function Even(start: nat, gap: nat, m: nat): seq<nat>
    decreases m
  {
    if m == 0 then [] else [start + gap] + Even(start + gap, gap, m - 1)
  }

  /** k ticks are the fewest that reach an interval. */
  predicate Rounds(k: nat, interval: nat, gap: nat) {
    k > 0 && (k - 1) * gap < interval <= k * gap
  }

  /** Every k-th of some numbered ticks, the first of them tick c after a firing. */
  function EveryNth(last: nat, c: nat, k: nat, gap: nat, m: nat): seq<nat>
    requires c < k
    decreases m
  {
    if m == 0 then []
    else if c + 1 == k then [last + k * gap] + EveryNth(last + k * gap, 0, k, gap, m - 1)
    else EveryNth(last, c + 1, k, gap, m - 1)
  }

  /** On ticks that come evenly a timer fires at every k-th of them, k gaps being its interval rounded
      up. Here c ticks have passed since it fired. */
  lemma {:induction false} RoundedUp(last: nat, c: nat, k: nat, interval: nat, gap: nat, m: nat)
    requires Rounds(k, interval, gap) && c < k
    ensures Fires(last + interval, interval, Even(last + c * gap, gap, m)) == EveryNth(last, c, k, gap, m)
    decreases m
  {
    if m > 0 {
      var t := last + (c + 1) * gap;
      assert c * gap + gap == (c + 1) * gap;
      if c + 1 < k {
        MoreTimes(c + 1, k - 1, gap);
        RoundedUp(last, c + 1, k, interval, gap, m - 1);
      } else {
        assert t == last + k * gap;
        assert t + 0 * gap == t;
        RoundedUp(t, 0, k, interval, gap, m - 1);
      }
    }
  }

  /** The i-th firing is i + 1 periods after the last one, and there is one for every k ticks. */
  lemma {:induction false} EveryNthExactly(last: nat, c: nat, k: nat, gap: nat, m: nat)
    requires c < k
    ensures var f, period := EveryNth(last, c, k, gap, m), k * gap;
      && |f| * k <= c + m < |f| * k + k
      && forall i :: 0 <= i < |f| ==> f[i] == last + (i + 1) * period
    decreases m
  {
    if m > 0 {
      var period := k * gap;
      if c + 1 == k {
        EveryNthExactly(last + period, 0, k, gap, m - 1);
        var f, rest := EveryNth(last, c, k, gap, m), EveryNth(last + period, 0, k, gap, m - 1);
        OneMore(|rest|, k);
        forall i | 0 <= i < |f|
          ensures f[i] == last + (i + 1) * period
        {
          OneMore(i, period);
          assert i > 0 ==> f[i] == rest[i - 1];
        }
      } else {
        EveryNthExactly(last, c + 1, k, gap, m - 1);
      }
    }
  }

  lemma OneMore(n: nat, p: nat)
    ensures (n + 1) * p == n * p + p
  {
  }
}
