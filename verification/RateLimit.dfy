/** The fixed-window rate limiter (src/api/ratelimit.rs).

  Times and durations are counted in nanoseconds. A request reads the clock before it takes
  the lock on the shared window, so the times that reach the window may be out of order:
  a run is therefore any sequence of times, ordered or not.
 */
module RateLimit {
  import opened Arithmetic

  const NANOS_PER_SECOND := 1_000_000_000

  // `window` is signed, as a `time::Duration` is.
  datatype Policy = Policy(limit: U32, window: int)

  datatype WindowState = WindowState(start: int, count: U32)

  datatype Decision = Decision(allowed: bool, limit: U32, remaining: U32, resetUnix: int)

  // The value of the window after one evaluation, and the decision taken.
  function Step(s: WindowState, now: int, p: Policy): (WindowState, Decision) {
    var w := if now >= s.start + p.window then WindowState(now, 0) else s;
    var resetUnix := (w.start + p.window) / NANOS_PER_SECOND;
    if w.count >= p.limit then
      (w, Decision(false, p.limit, 0, resetUnix))
    else
      (WindowState(w.start, w.count + 1), Decision(true, p.limit, p.limit - (w.count + 1), resetUnix))
  }

  // The shared window counter.
  class Window {
    var start: int
    var count: U32

    constructor (start: int)
      ensures State() == WindowState(start, 0)
    {
      this.start := start;
      this.count := 0;
    }

    function State(): WindowState
      reads this
    {
      WindowState(start, count)
    }

    method Evaluate(now: int, policy: Policy) returns (d: Decision)
      modifies this
      ensures State() == Step(old(State()), now, policy).0
      ensures d == Step(old(State()), now, policy).1
      // A window that is over restarts now and empty; a request takes room while there is some.
      ensures start == if now >= old(start) + policy.window then now else old(start)
      ensures var used := if now >= old(start) + policy.window then 0 else old(count);
              && count == (if used < policy.limit then used + 1 else used)
              && d.remaining == (if used < policy.limit then policy.limit - used - 1 else 0)
      // A request is admitted while the window has room, or when it is due to restart.
      ensures d.allowed <==> old(count) < policy.limit || (policy.limit > 0 && now >= old(start) + policy.window)
      ensures d.limit == policy.limit && d.remaining <= policy.limit - (if d.allowed then 1 else 0)
      ensures d.allowed ==> count + d.remaining == policy.limit
      // The advertised second is the whole second the window ends in.
      ensures 0 <= start + policy.window - d.resetUnix * NANOS_PER_SECOND < NANOS_PER_SECOND
    {
      if now >= start + policy.window {
        start := now;
        count := 0;
      }
      var resetUnix := (start + policy.window) / NANOS_PER_SECOND;
      if count >= policy.limit {
        d := Decision(false, policy.limit, 0, resetUnix);
      } else {
        count := count + 1;
        d := Decision(true, policy.limit, policy.limit - count, resetUnix);
      }
    }
  }

  // What the wrapped service would answer, and what the client gets.
  datatype Inner<T> = Answer(body: T) | Failure
  datatype Response<T> = Forwarded(body: T, headers: Decision) | InnerFailed | OverLimit(headers: Decision)

  // One produced service. Every service of one layer holds the layer's own window.
  class Service {
    const policy: Policy
    const window: Window

    constructor (policy: Policy, window: Window)
      ensures this.policy == policy && this.window == window
    {
      this.policy := policy;
      this.window := window;
    }

    // `inner` stands for the answer of the wrapped service; `called` says whether it was asked.
    method Call<T>(now: int, inner: Inner<T>) returns (r: Response<T>, called: bool)
      modifies window
      ensures window.State() == Step(old(window.State()), now, policy).0
      ensures var d := Step(old(window.State()), now, policy).1;
              && called == d.allowed
              && r == if !d.allowed then OverLimit(d)
                      else if inner.Answer? then Forwarded(inner.body, d) else InnerFailed
    {
      var decision := window.Evaluate(now, policy);
      called := false;
      if !decision.allowed {
        return OverLimit(decision), called;
      }
      called := true;
      match inner
      case Answer(body) => r := Forwarded(body, decision);
      case Failure => r := InnerFailed;
    }
  }

  class Layer {
    const policy: Policy
    const window: Window

    constructor (now: int, policy: Policy)
      ensures this.policy == policy && fresh(window)
      ensures window.State() == WindowState(now, 0)
    {
      this.policy := policy;
      this.window := new Window(now);
    }

    method Wrap() returns (s: Service)
      ensures fresh(s) && s.window == window && s.policy == policy
    {
      s := new Service(policy, window);
    }
  }

  // ---------- Runs ----------

  // The decisions of a run, in evaluation order.
  function Decisions(s: WindowState, times: seq<int>, p: Policy): (ds: seq<Decision>)
    ensures |ds| == |times|
    decreases |times|
  {
    if times == [] then [] else
    var (s', d) := Step(s, times[0], p);
    [d] + Decisions(s', times[1..], p)
  }

  // The window after a run.
  function Final(s: WindowState, times: seq<int>, p: Policy): WindowState
    decreases |times|
  {
    if times == [] then s else Final(Step(s, times[0], p).0, times[1..], p)
  }

  // How many requests of a run were admitted.
  function Admitted(ds: seq<Decision>): nat {
    if ds == [] then 0 else (if ds[0].allowed then 1 else 0) + Admitted(ds[1..])
  }

  // How many requests of a run with a time in [lo, hi) were admitted.
  function AdmittedIn(times: seq<int>, ds: seq<Decision>, lo: int, hi: int): nat
    requires |times| == |ds|
  {
    if ds == [] then 0
    else (if ds[0].allowed && lo <= times[0] < hi then 1 else 0) + AdmittedIn(times[1..], ds[1..], lo, hi)
  }

  // A window starts at the time the layer was built or at the time of a request that came at
  // least one window length after the previous start.
  lemma StartsAreAWindowApart(s: WindowState, now: int, p: Policy)
    ensures var s' := Step(s, now, p).0;
            (s'.start == s.start && s'.count >= s.count) || (s'.start == now && now >= s.start + p.window)
    ensures s.count <= p.limit ==> Step(s, now, p).0.count <= p.limit
  {
  }

  // The same bound with the number of further windows that can start given as `k`.
  lemma {:induction false} AdmissionsWithin(s: WindowState, times: seq<int>, p: Policy, latest: int, k: nat)
    requires p.window > 0 && s.count <= p.limit
    requires latest < s.start + p.window * (k + 1)
    requires forall i :: 0 <= i < |times| ==> times[i] <= latest
    ensures Admitted(Decisions(s, times, p)) <= p.limit - s.count + p.limit * k
    decreases |times|
  {
    assert p.limit * k >= 0;
    if times != [] {
      var s' := Step(s, times[0], p).0;
      if times[0] >= s.start + p.window {
        assert p.window * (k + 1) == p.window * k + p.window;
        MulMonotone(p.window, k, 0);
        AdmissionsWithin(s', times[1..], p, latest, k - 1);
        assert p.limit * (k - 1) == p.limit * k - p.limit;
      } else {
        AdmissionsWithin(s', times[1..], p, latest, k);
      }
    }
  }

  // In any evaluation order, a run admits at most `limit * (1 + (T - start) / window)` requests.
  lemma {:induction false} TotalAdmissionsBounded(s: WindowState, times: seq<int>, p: Policy, latest: int)
    requires p.window > 0 && s.count <= p.limit
    requires s.start <= latest && forall i :: 0 <= i < |times| ==> times[i] <= latest
    ensures Admitted(Decisions(s, times, p)) <= p.limit * (1 + (latest - s.start) / p.window)
  {
    DivCovers(latest - s.start, p.window);
    var k := (latest - s.start) / p.window;
    AdmissionsWithin(s, times, p, latest, k);
    MulOneMore(p.limit, k);
  }

  // The bound is exact: for every limit, window and number of windows some run attains it.
  function Burst(at: int, n: nat): (b: seq<int>)
    ensures |b| == n && forall i :: 0 <= i < n ==> b[i] == at
  {
    seq(n, _ => at)
  }

  function Bursts(start: int, p: Policy, windows: nat): seq<int>
    decreases windows
  {
    Burst(start, p.limit) + if windows == 0 then [] else Bursts(start + p.window, p, windows - 1)
  }

  lemma {:induction false} RunsCompose(s: WindowState, a: seq<int>, b: seq<int>, p: Policy)
    ensures Decisions(s, a + b, p) == Decisions(s, a, p) + Decisions(Final(s, a, p), b, p)
    ensures Final(s, a + b, p) == Final(Final(s, a, p), b, p)
    decreases |a|
  {
    if a == [] {
      assert a + b == b;
    } else {
      assert (a + b)[1..] == a[1..] + b;
      RunsCompose(Step(s, a[0], p).0, a[1..], b, p);
    }
  }

  lemma {:induction false} AdmittedAdds(a: seq<Decision>, b: seq<Decision>)
    ensures Admitted(a + b) == Admitted(a) + Admitted(b)
  {
    if a == [] {
      assert a + b == b;
    } else {
      assert (a + b)[1..] == a[1..] + b;
      AdmittedAdds(a[1..], b);
    }
  }

  // Within one window the k-th further request is admitted exactly while room is left, and
  // `remaining` counts down to 0.
  lemma {:induction false} RemainingCountsDown(s: WindowState, times: seq<int>, p: Policy, k: nat)
    requires s.count <= p.limit && k < |times|
    requires forall i :: 0 <= i < |times| ==> times[i] < s.start + p.window
    ensures Decisions(s, times, p)[k].allowed <==> s.count + k < p.limit
    ensures Decisions(s, times, p)[k].limit == p.limit
    ensures Decisions(s, times, p)[k].resetUnix == (s.start + p.window) / NANOS_PER_SECOND
    ensures Decisions(s, times, p)[k].remaining == if s.count + k < p.limit then p.limit - s.count - k - 1 else 0
    ensures Final(s, times[..k + 1], p)
            == WindowState(s.start, if s.count + k < p.limit then s.count + k + 1 else p.limit)
    decreases |times|
  {
    var s' := Step(s, times[0], p).0;
    assert times[..k + 1][1..] == times[1..][..k];
    if k > 0 {
      RemainingCountsDown(s', times[1..], p, k - 1);
    }
  }

  lemma {:induction false} AdmittedOfAllAllowed(ds: seq<Decision>)
    requires forall d :: d in ds ==> d.allowed
    ensures Admitted(ds) == |ds|
  {
    if ds != [] {
      AdmittedOfAllAllowed(ds[1..]);
    }
  }

  lemma {:induction false} BurstFillsWindow(s: WindowState, p: Policy)
    requires p.window > 0 && s.count == 0
    ensures Admitted(Decisions(s, Burst(s.start, p.limit), p)) == p.limit
    ensures Final(s, Burst(s.start, p.limit), p) == WindowState(s.start, p.limit)
  {
    var times := Burst(s.start, p.limit);
    var ds := Decisions(s, times, p);
    forall k: nat | k < |times|
      ensures ds[k].allowed
    {
      RemainingCountsDown(s, times, p, k);
    }
    AdmittedOfAllAllowed(ds);
    if p.limit > 0 {
      RemainingCountsDown(s, times, p, p.limit - 1);
      assert times[..p.limit] == times;
    }
  }

  // A request that reaches the end of a window sees a fresh one, whatever the old one held.
  lemma FreshWindow(s: WindowState, times: seq<int>, p: Policy)
    requires times == [] || times[0] >= s.start + p.window
    ensures p.window > 0 && times != [] ==> Decisions(s, times, p) == Decisions(WindowState(times[0], 0), times, p)
  {
  }

  ghost predicate Within(times: seq<int>, lo: int, hi: int) {
    forall i :: 0 <= i < |times| ==> lo <= times[i] <= hi
  }

  lemma {:induction false} BurstsSpan(start: int, p: Policy, windows: nat)
    requires p.window > 0
    ensures Within(Bursts(start, p, windows), start, start + p.window * windows)
    decreases windows
  {
    MulMonotone(p.window, 0, windows);
    var last := start + p.window * windows;
    assert start <= last;
    if windows > 0 {
      var rest := Bursts(start + p.window, p, windows - 1);
      BurstsSpan(start + p.window, p, windows - 1);
      assert start + p.window + p.window * (windows - 1) == last;
      assert Within(rest, start + p.window, last);
      assert Within(Burst(start, p.limit), start, last);
      assert Within(Burst(start, p.limit) + rest, start, last);
    }
  }

  // A full window of requests, then a run that starts where that window ends.
  lemma OneMoreBurst(start: int, p: Policy, rest: seq<int>, times: seq<int>)
    requires p.window > 0 && (rest == [] || rest[0] == start + p.window) && times == Burst(start, p.limit) + rest
    ensures Admitted(Decisions(WindowState(start, 0), times, p))
         == p.limit + Admitted(Decisions(WindowState(start + p.window, 0), rest, p))
  {
    var s, first := WindowState(start, 0), Burst(start, p.limit);
    BurstFillsWindow(s, p);
    RunsCompose(s, first, rest, p);
    AdmittedAdds(Decisions(s, first, p), Decisions(Final(s, first, p), rest, p));
    FreshWindow(Final(s, first, p), rest, p);
  }

  lemma BurstsStart(start: int, p: Policy, windows: nat)
    ensures var b := Bursts(start, p, windows); b == [] || b[0] == start
  {
    if p.limit == 0 {
      BurstsOfNothing(start, p, windows);
    }
  }

  lemma BurstsUnfold(start: int, p: Policy, windows: nat, times: seq<int>) returns (rest: seq<int>)
    requires times == Bursts(start, p, windows)
    ensures times == Burst(start, p.limit) + rest && (rest == [] || rest[0] == start + p.window)
    ensures if windows == 0 then rest == [] else rest == Bursts(start + p.window, p, windows - 1)
  {
    rest := [];
    if windows > 0 {
      rest := Bursts(start + p.window, p, windows - 1);
      BurstsStart(start + p.window, p, windows - 1);
    }
  }

  lemma {:induction false} BurstsAdmit(start: int, p: Policy, windows: nat, times: seq<int>, total: nat)
    requires p.window > 0 && times == Bursts(start, p, windows)
    requires total == Admitted(Decisions(WindowState(start, 0), times, p))
    ensures total == p.limit * (1 + windows)
    decreases windows
  {
    var rest := BurstsUnfold(start, p, windows, times);
    OneMoreBurst(start, p, rest, times);
    if windows == 0 {
      assert total == p.limit;
    } else {
      BurstsAdmit(start + p.window, p, windows - 1, rest, total - p.limit);
      MulOneMore(p.limit, windows);
    }
  }

  // The bound is attained by full bursts at the starts of consecutive windows.
  lemma TotalBoundIsAttained(start: int, p: Policy, windows: nat)
    requires p.window > 0
    ensures Admitted(Decisions(WindowState(start, 0), Bursts(start, p, windows), p)) == p.limit * (1 + windows)
  {
    var times := Bursts(start, p, windows);
    BurstsAdmit(start, p, windows, times, Admitted(Decisions(WindowState(start, 0), times, p)));
  }

  lemma {:induction false} BurstsOfNothing(start: int, p: Policy, windows: nat)
    requires p.limit == 0
    ensures Bursts(start, p, windows) == []
    decreases windows
  {
    if windows > 0 {
      BurstsOfNothing(start + p.window, p, windows - 1);
    }
  }

  // ---------- Time-ordered runs ----------

  ghost predicate Ordered(times: seq<int>) {
    forall i, j :: 0 <= i < j < |times| ==> times[i] <= times[j]
  }

  lemma {:induction false} OnlyLaterTimes(times: seq<int>, ds: seq<Decision>, lo: int, hi: int)
    requires |times| == |ds| && forall i :: 0 <= i < |times| ==> times[i] >= hi
    ensures AdmittedIn(times, ds, lo, hi) == 0
    decreases |times|
  {
    if times != [] {
      OnlyLaterTimes(times[1..], ds[1..], lo, hi);
    }
  }

  // Once the current window starts inside the interval, only the room left in it counts: the
  // next window starts beyond the interval.
  lemma {:induction false} LastWindowInInterval(s: WindowState, times: seq<int>, p: Policy, lo: int)
    requires p.window > 0 && s.count <= p.limit && lo <= s.start && Ordered(times)
    ensures AdmittedIn(times, Decisions(s, times, p), lo, lo + p.window) <= p.limit - s.count
    decreases |times|
  {
    if times != [] {
      var s' := Step(s, times[0], p).0;
      if times[0] >= s.start + p.window {
        OnlyLaterTimes(times, Decisions(s, times, p), lo, lo + p.window);
      } else {
        LastWindowInInterval(s', times[1..], p, lo);
      }
    }
  }

  // Once some request time has reached the interval, one more window at most starts inside it.
  lemma {:induction false} AtMostOneMoreWindow(s: WindowState, times: seq<int>, p: Policy, lo: int)
    requires p.window > 0 && s.count <= p.limit && Ordered(times)
    requires forall i :: 0 <= i < |times| ==> lo <= times[i]
    ensures AdmittedIn(times, Decisions(s, times, p), lo, lo + p.window) <= p.limit - s.count + p.limit
    decreases |times|
  {
    if times != [] {
      var s' := Step(s, times[0], p).0;
      if times[0] >= s.start + p.window {
        LastWindowInInterval(s', times[1..], p, lo);
      } else {
        AtMostOneMoreWindow(s', times[1..], p, lo);
      }
    }
  }

  // Evaluated in time order, no half-open interval of one window length holds more than twice
  // `limit` admissions.
  lemma {:induction false} AnyIntervalAdmitsTwiceTheLimit(s: WindowState, times: seq<int>, p: Policy, lo: int)
    requires p.window > 0 && s.count <= p.limit && Ordered(times)
    ensures AdmittedIn(times, Decisions(s, times, p), lo, lo + p.window) <= 2 * p.limit
    decreases |times|
  {
    if times != [] {
      if times[0] >= lo {
        AtMostOneMoreWindow(s, times, p, lo);
      } else {
        AnyIntervalAdmitsTwiceTheLimit(Step(s, times[0], p).0, times[1..], p, lo);
      }
    }
  }

  // Twice the limit is really reached, around the end of a window.
  lemma TwiceTheLimitIsReached(p: Policy)
    requires p.window > 1
    ensures exists times: seq<int> ::
      && Ordered(times)
      && AdmittedIn(times, Decisions(WindowState(0, 0), times, p), p.window - 1, 2 * p.window - 1) == 2 * p.limit
  {
    var s := WindowState(0, 0);
    var a, b := Burst(p.window - 1, p.limit), Burst(p.window, p.limit);
    var times := a + b;
    var ds := Decisions(s, times, p);
    forall k: nat | k < |times|
      ensures ds[k].allowed
    {
      RunsCompose(s, a, b, p);
      if k < p.limit {
        RemainingCountsDown(s, a, p, k);
      } else {
        var full := Final(s, a, p);
        RemainingCountsDown(s, a, p, p.limit - 1);
        assert a[..p.limit] == a;
        assert Step(full, b[0], p) == Step(WindowState(p.window, 0), b[0], p);
        assert Decisions(full, b, p) == Decisions(WindowState(p.window, 0), b, p);
        RemainingCountsDown(WindowState(p.window, 0), b, p, k - p.limit);
      }
    }
    AllInside(times, ds, p.window - 1, 2 * p.window - 1);
  }

  lemma {:induction false} AllInside(times: seq<int>, ds: seq<Decision>, lo: int, hi: int)
    requires |times| == |ds|
    requires forall k :: 0 <= k < |times| ==> ds[k].allowed && lo <= times[k] < hi
    ensures AdmittedIn(times, ds, lo, hi) == |times|
    decreases |times|
  {
    if times != [] {
      AllInside(times[1..], ds[1..], lo, hi);
    }
  }

  // A rejection leaves the window as it was, except under a limit of 0, where a request that
  // reaches the end of the window still restarts it before being rejected.
  lemma RejectionKeepsWindow(s: WindowState, now: int, p: Policy)
    requires p.window > 0 && !Step(s, now, p).1.allowed
    ensures Step(s, now, p).0 == s <==> p.limit != 0 || now < s.start + p.window
  {
  }

  // The advertised reset second is cut down, so a retry at that very second is admitted only
  // when the window ends on a whole second.
  lemma RetryAtResetSecond(s: WindowState, now: int, p: Policy)
    requires p.window > 0 && p.limit > 0
    ensures var (s', d) := Step(s, now, p);
            !d.allowed ==>
              (Step(s', d.resetUnix * NANOS_PER_SECOND, p).1.allowed <==> (s'.start + p.window) % NANOS_PER_SECOND == 0)
  {
    var end := Step(s, now, p).0.start + p.window;
    assert end == (end / NANOS_PER_SECOND) * NANOS_PER_SECOND + end % NANOS_PER_SECOND;
  }
}
