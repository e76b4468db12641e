/** The sliding-window rate limiter: per client address, the times of the requests admitted lately. */
module RateLimiter {
  import opened Numbers

  const WINDOW: real := 60.0

  type Windows = map<string, seq<real>>

  /** A request passes, is refused with the Retry-After header of section 10.2.3 of RFC 9110, or makes the handler
      read the head of an empty deque. */
  datatype Outcome = Admitted | Refused(retryAfter: int) | IndexError

  function RetryAfter(oldest: real, now: real): int {
    Truncate(WINDOW - (now - oldest)) + 1
  }

  function Trim(dq: seq<real>, now: real): seq<real> {
    if dq != [] && now - dq[0] > WINDOW then Trim(dq[1..], now) else dq
  }

  function Deque(windows: Windows, ip: string): seq<real> {
    if ip in windows then windows[ip] else []
  }

  function Step(windows: Windows, rpm: int, ip: string, now: real): (Windows, Outcome) {
    var dq := Trim(Deque(windows, ip), now);
    if |dq| < rpm then (windows[ip := dq + [now]], Admitted)
    else (windows[ip := dq], if dq == [] then IndexError else Refused(RetryAfter(dq[0], now)))
  }

  class Limiter {
    const rpm: int
    var windows: Windows

    constructor (rpm: int)
      ensures this.rpm == rpm && windows == map[]
    {
      this.rpm := rpm;
      windows := map[];
    }

    /** The body of dispatch under the lock. */
    method Dispatch(ip: string, now: real) returns (outcome: Outcome)
      modifies this
      ensures (windows, outcome) == Step(old(windows), rpm, ip, now)
    {
      if ip !in windows {
        windows := windows[ip := []];
      }
      while windows[ip] != [] && now - windows[ip][0] > WINDOW
        invariant ip in windows && windows == old(windows)[ip := windows[ip]]
        invariant Trim(windows[ip], now) == Trim(Deque(old(windows), ip), now)
        decreases |windows[ip]|
      {
        windows := windows[ip := windows[ip][1..]];
      }
      assert Trim(Deque(old(windows), ip), now) == windows[ip];
      if |windows[ip]| >= rpm {
        if windows[ip] == [] { return IndexError; }
        return Refused(RetryAfter(windows[ip][0], now));
      }
      var dq := windows[ip] + [now];
      assert windows[ip := dq] == old(windows)[ip := dq];
      windows := windows[ip := dq];
      return Admitted;
    }
  }

  // ---- Whole runs ------------------------------------------------------------------------------------

  datatype Request = Request(ip: string, time: real)

  /** The clock never goes back. */
  ghost predicate Monotone(rs: seq<Request>) {
    forall i, j :: 0 <= i <= j < |rs| ==> rs[i].time <= rs[j].time
  }

  ghost function Run(rpm: int, rs: seq<Request>): Windows {
    if rs == [] then map[]
    else var n := |rs| - 1; Step(Run(rpm, rs[..n]), rpm, rs[n].ip, rs[n].time).0
  }

  /** What the limiter answers to request i of the run. */
  ghost function OutcomeAt(rpm: int, rs: seq<Request>, i: nat): Outcome
    requires i < |rs|
  {
    Step(Run(rpm, rs[..i]), rpm, rs[i].ip, rs[i].time).1
  }

  /** The times of all requests of ip admitted during the run. */
  ghost function History(rpm: int, rs: seq<Request>, ip: string): seq<real> {
    if rs == [] then []
    else var n := |rs| - 1;
      History(rpm, rs[..n], ip) + if rs[n].ip == ip && OutcomeAt(rpm, rs, n) == Admitted then [rs[n].time] else []
  }

  ghost function CountWithin(h: seq<real>, lo: real, hi: real): nat {
    if h == [] then 0
    else CountWithin(h[..|h| - 1], lo, hi) + if lo <= h[|h| - 1] <= hi then 1 else 0
  }

  // ---- The deque against the history --------------------------------------------------------------------

  lemma {:induction false} TrimDropsOld(dq: seq<real>, now: real) returns (t: nat)
    ensures t <= |dq| && Trim(dq, now) == dq[t..]
    ensures forall k :: 0 <= k < t ==> now - dq[k] > WINDOW
    ensures t < |dq| ==> now - dq[t] <= WINDOW
  {
    if dq != [] && now - dq[0] > WINDOW {
      var t' := TrimDropsOld(dq[1..], now);
      t := t' + 1;
      forall k | 0 <= k < t ensures now - dq[k] > WINDOW {
        if k > 0 { assert dq[k] == dq[1..][k - 1]; }
      }
    } else {
      t := 0;
    }
  }

  lemma {:induction false} TrimTwice(dq: seq<real>, a: real, b: real)
    requires a <= b
    ensures Trim(Trim(dq, a), b) == Trim(dq, b)
  {
    if dq != [] && a - dq[0] > WINDOW {
      TrimTwice(dq[1..], a, b);
    }
  }

  ghost predicate Ascending(h: seq<real>) {
    forall i, j :: 0 <= i <= j < |h| ==> h[i] <= h[j]
  }

  /** The first d admissions had left the window by the time latest. */
  ghost predicate OutOfWindow(h: seq<real>, d: nat, latest: real) {
    d <= |h| && forall k :: 0 <= k < d ==> latest - h[k] > WINDOW
  }

  /** Admissions that are rpm apart in the history are more than a window apart in time. */
  ghost predicate Spaced(h: seq<real>, rpm: int) {
    forall i, j :: 0 <= i < j < |h| && i + rpm <= j ==> h[j] - h[i] > WINDOW
  }

  /** The deque is the tail of the admitted history; what precedes it has left the window for good. */
  ghost predicate Tracks(dq: seq<real>, h: seq<real>, rpm: int, latest: real) {
    && |dq| <= |h| && |dq| <= rpm && dq == h[|h| - |dq|..]
    && OutOfWindow(h, |h| - |dq|, latest)
    && Ascending(h) && (forall k :: 0 <= k < |h| ==> h[k] <= latest)
    && Spaced(h, rpm)
  }

  lemma TrimTracks(dq: seq<real>, h: seq<real>, rpm: int, latest: real, now: real)
    requires Tracks(dq, h, rpm, latest) && latest <= now
    ensures Tracks(Trim(dq, now), h, rpm, now)
    ensures forall k :: |h| - |Trim(dq, now)| <= k < |h| ==> now - h[k] <= WINDOW
  {
    var t := TrimDropsOld(dq, now);
    var d := |h| - |dq|;
    assert dq[t..] == h[d + t..];
    assert forall k :: d <= k < d + t ==> h[k] == dq[k - d];
    if t < |dq| { assert dq[t] == h[d + t]; }
  }

  lemma AdmitTracks(dq: seq<real>, h: seq<real>, rpm: int, now: real)
    requires Tracks(dq, h, rpm, now) && |dq| < rpm
    ensures Tracks(dq + [now], h + [now], rpm, now)
  {
    var h' := h + [now];
    assert dq + [now] == h'[|h'| - |dq| - 1..];
  }

  /** One request of the client keeps the deque in track with the history. */
  lemma StepTracks(windows: Windows, h: seq<real>, rpm: int, ip: string, latest: real, now: real)
    requires rpm >= 1 && latest <= now && Tracks(Deque(windows, ip), h, rpm, latest)
    ensures var (after, outcome) := Step(windows, rpm, ip, now);
      && Tracks(Deque(after, ip), h + (if outcome == Admitted then [now] else []), rpm, now)
      && outcome != IndexError
  {
    var kept := Trim(Deque(windows, ip), now);
    TrimTracks(Deque(windows, ip), h, rpm, latest, now);
    if |kept| < rpm {
      AdmitTracks(kept, h, rpm, now);
    } else {
      assert h + [] == h;
    }
  }

  lemma OwnRequest(rpm: int, rs: seq<Request>, ip: string, latest: real)
    requires rpm >= 1 && rs != [] && rs[|rs| - 1].ip == ip && latest <= rs[|rs| - 1].time
    requires var n := |rs| - 1; Tracks(Deque(Run(rpm, rs[..n]), ip), History(rpm, rs[..n], ip), rpm, latest)
    ensures Tracks(Deque(Run(rpm, rs), ip), History(rpm, rs, ip), rpm, rs[|rs| - 1].time)
  {
    var n := |rs| - 1;
    StepTracks(Run(rpm, rs[..n]), History(rpm, rs[..n], ip), rpm, ip, latest, rs[n].time);
  }

  lemma OthersRequest(rpm: int, rs: seq<Request>, ip: string)
    requires rs != [] && rs[|rs| - 1].ip != ip
    ensures var n := |rs| - 1;
      Deque(Run(rpm, rs), ip) == Deque(Run(rpm, rs[..n]), ip) && History(rpm, rs, ip) == History(rpm, rs[..n], ip)
  {
    assert History(rpm, rs, ip) == History(rpm, rs[..|rs| - 1], ip) + [];
  }

  /** In every run the deque tracks the history, as of some time not later than now. */
  lemma {:induction false} RunTracks(rpm: int, rs: seq<Request>, ip: string, now: real) returns (latest: real)
    requires rpm >= 1 && Monotone(rs)
    requires rs != [] ==> rs[|rs| - 1].time <= now
    ensures latest <= now && Tracks(Deque(Run(rpm, rs), ip), History(rpm, rs, ip), rpm, latest)
  {
    if rs == [] {
      latest := now;
    } else {
      var n := |rs| - 1;
      latest := RunTracks(rpm, rs[..n], ip, rs[n].time);
      if rs[n].ip == ip {
        OwnRequest(rpm, rs, ip, latest);
        latest := rs[n].time;
      } else {
        OthersRequest(rpm, rs, ip);
      }
    }
  }

  // ---- Safety ----------------------------------------------------------------------------------------------

  /** In an ascending history with spaced admissions, every closed window holds at most rpm of them. */
  lemma {:induction false} SpacedCount(h: seq<real>, rpm: int, a: real)
    requires rpm >= 1 && Ascending(h) && Spaced(h, rpm)
    ensures CountWithin(h, a, a + WINDOW) <= rpm
  {
    if h != [] {
      var n := |h| - 1;
      if a <= h[n] <= a + WINDOW {
        var m := if |h| <= rpm then 0 else |h| - rpm;
        assert forall k :: 0 <= k < m ==> h[k] < a by {
          forall k | 0 <= k < m ensures h[k] < a { assert h[n] - h[k] > WINDOW; }
        }
        CountOfTail(h, m, a, a + WINDOW);
      } else {
        SpacedCount(h[..n], rpm, a);
      }
    }
  }

  /** Elements below the window do not count. */
  lemma {:induction false} CountOfTail(h: seq<real>, m: nat, lo: real, hi: real)
    requires m <= |h| && forall k :: 0 <= k < m ==> h[k] < lo
    ensures CountWithin(h, lo, hi) <= |h| - m
    ensures (forall k :: m <= k < |h| ==> lo <= h[k] <= hi) ==> CountWithin(h, lo, hi) == |h| - m
  {
    if |h| > m {
      CountOfTail(h[..|h| - 1], m, lo, hi);
    } else if h != [] {
      CountOfTail(h[..|h| - 1], m - 1, lo, hi);
    }
  }

  /** Window safety: in every run, each closed 60-second window of the full admitted history of a client holds at
      most rpm requests. */
  lemma WindowSafety(rpm: int, rs: seq<Request>, ip: string, a: real)
    requires rpm >= 1 && Monotone(rs)
    ensures CountWithin(History(rpm, rs, ip), a, a + 60.0) <= rpm
  {
    var latest := RunTracks(rpm, rs, ip, if rs == [] then 0.0 else rs[|rs| - 1].time);
    SpacedCount(History(rpm, rs, ip), rpm, a);
  }

  /** What is left in the deque after trimming is what was admitted in the window that ends now. */
  lemma RecentCount(dq: seq<real>, h: seq<real>, rpm: int, latest: real, now: real)
    requires latest <= now && Tracks(dq, h, rpm, latest)
    ensures CountWithin(h, now - WINDOW, now) == |Trim(dq, now)| <= rpm
    ensures Trim(dq, now) != [] ==> now - WINDOW <= Trim(dq, now)[0] <= now
  {
    TrimTracks(dq, h, rpm, latest, now);
    var kept := Trim(dq, now);
    CountOfTail(h, |h| - |kept|, now - WINDOW, now);
    if kept != [] {
      assert kept[0] == h[|h| - |kept|];
    }
  }

  lemma RunState(rpm: int, rs: seq<Request>, ip: string, now: real) returns (dq: seq<real>, h: seq<real>, latest: real)
    requires rpm >= 1 && Monotone(rs)
    requires rs != [] ==> rs[|rs| - 1].time <= now
    ensures dq == Deque(Run(rpm, rs), ip) && h == History(rpm, rs, ip)
    ensures latest <= now && Tracks(dq, h, rpm, latest)
  {
    latest := RunTracks(rpm, rs, ip, now);
    dq, h := Deque(Run(rpm, rs), ip), History(rpm, rs, ip);
  }

  /** In every run the trimmed deque holds the admissions of the last window. */
  lemma RunRecent(rpm: int, rs: seq<Request>, ip: string, now: real) returns (kept: seq<real>, h: seq<real>)
    requires rpm >= 1 && Monotone(rs)
    requires rs != [] ==> rs[|rs| - 1].time <= now
    ensures kept == Trim(Deque(Run(rpm, rs), ip), now) && h == History(rpm, rs, ip)
    ensures CountWithin(h, now - WINDOW, now) == |kept| <= rpm
    ensures kept != [] ==> now - WINDOW <= kept[0] <= now
  {
    var dq, all, latest := RunState(rpm, rs, ip, now);
    RecentCount(dq, all, rpm, latest, now);
    kept, h := Trim(dq, now), all;
  }

  /** Exactness: a request is refused exactly when rpm requests of its client were admitted in the closed window
      that ends now, and admitted exactly when fewer were. */
  lemma Exactness(rpm: int, rs: seq<Request>, i: nat)
    requires rpm >= 1 && Monotone(rs) && i < |rs|
    ensures var now, ip := rs[i].time, rs[i].ip;
      var recent := CountWithin(History(rpm, rs[..i], ip), now - 60.0, now);
      && recent <= rpm
      && (OutcomeAt(rpm, rs, i).Refused? <==> recent == rpm)
      && (OutcomeAt(rpm, rs, i) == Admitted <==> recent < rpm)
  {
    var kept, h := RunRecent(rpm, rs[..i], rs[i].ip, rs[i].time);
  }

  /** The handler fails with IndexError on every request exactly when the limit is not positive. */
  lemma NonPositiveLimitFails(rpm: int, rs: seq<Request>, i: nat)
    requires i < |rs|
    ensures OutcomeAt(rpm, rs, i) == IndexError <==> rpm <= 0
  {
    if rpm <= 0 {
      NothingAdmitted(rpm, rs[..i], rs[i].ip);
    }
  }

  lemma {:induction false} NothingAdmitted(rpm: int, rs: seq<Request>, ip: string)
    requires rpm <= 0
    ensures Deque(Run(rpm, rs), ip) == []
  {
    if rs != [] {
      var n := |rs| - 1;
      NothingAdmitted(rpm, rs[..n], ip);
    }
  }

  // ---- Other clients have no effect ----------------------------------------------------------------------------

  ghost function Only(rs: seq<Request>, ip: string): seq<Request> {
    if rs == [] then []
    else var n := |rs| - 1; Only(rs[..n], ip) + if rs[n].ip == ip then [rs[n]] else []
  }

  /** A client's deque, its admitted history and the answer to its next request are those of the run in which only
      its own requests arrive. */
  lemma {:induction false} Isolation(rpm: int, rs: seq<Request>, ip: string, now: real)
    ensures Deque(Run(rpm, rs), ip) == Deque(Run(rpm, Only(rs, ip)), ip)
    ensures History(rpm, rs, ip) == History(rpm, Only(rs, ip), ip)
    ensures Step(Run(rpm, rs), rpm, ip, now).1 == Step(Run(rpm, Only(rs, ip)), rpm, ip, now).1
  {
    if rs != [] {
      var n := |rs| - 1;
      var own := Only(rs[..n], ip);
      Isolation(rpm, rs[..n], ip, rs[n].time);
      if rs[n].ip == ip {
        assert (own + [rs[n]])[..|own|] == own;
      } else {
        assert Only(rs, ip) == own;
      }
    }
  }

  // ---- Retry-After --------------------------------------------------------------------------------------------------

  /** The deque of ip after the first i requests, trimmed at time now. */
  ghost function Recent(rpm: int, rs: seq<Request>, i: nat, ip: string, now: real): seq<real>
    requires i <= |rs|
  {
    Trim(Deque(Run(rpm, rs[..i]), ip), now)
  }

  /** While none of its requests is admitted, a client's deque only loses what leaves the window. */
  lemma {:induction false} OnlyTrimmed(rpm: int, rs: seq<Request>, i: nat, j: nat, ip: string, now: real)
    requires Monotone(rs) && i <= j <= |rs|
    requires forall k :: i <= k < j && rs[k].ip == ip ==> OutcomeAt(rpm, rs, k) != Admitted
    requires j > 0 ==> rs[j - 1].time <= now
    ensures Recent(rpm, rs, j, ip, now) == Recent(rpm, rs, i, ip, now)
  {
    if i < j {
      OnlyTrimmed(rpm, rs, i, j - 1, ip, now);
      assert rs[..j][..j - 1] == rs[..j - 1];
      if rs[j - 1].ip == ip {
        TrimTwice(Deque(Run(rpm, rs[..j - 1]), ip), rs[j - 1].time, now);
      }
    }
  }

  /** Between a refusal and the client's next admission, a request is admitted exactly when the oldest of the
      requests that filled the window has left it. */
  lemma AdmittedIffOldestLeft(rpm: int, rs: seq<Request>, i: nat, j: nat)
    requires rpm >= 1 && Monotone(rs) && i < j < |rs| && rs[j].ip == rs[i].ip
    requires OutcomeAt(rpm, rs, i).Refused?
    requires forall k :: i < k < j && rs[k].ip == rs[i].ip ==> OutcomeAt(rpm, rs, k) != Admitted
    ensures var dq := Recent(rpm, rs, i, rs[i].ip, rs[i].time);
      && |dq| == rpm && rs[i].time - dq[0] <= WINDOW && dq[0] <= rs[i].time
      && (OutcomeAt(rpm, rs, j) == Admitted <==> rs[j].time - dq[0] > WINDOW)
  {
    var ip, now, later := rs[i].ip, rs[i].time, rs[j].time;
    var before := Deque(Run(rpm, rs[..i]), ip);
    FullWhenRefused(rpm, rs, i);
    OnlyTrimmed(rpm, rs, i, j, ip, later);
    TrimTwice(before, now, later);
    TrimFull(Trim(before, now), rpm, later);
  }

  lemma TrimFull(dq: seq<real>, rpm: int, later: real)
    requires |dq| == rpm >= 1
    ensures |Trim(dq, later)| < rpm <==> later - dq[0] > WINDOW
  {
    var t := TrimDropsOld(dq, later);
  }

  lemma FullWhenRefused(rpm: int, rs: seq<Request>, i: nat)
    requires rpm >= 1 && Monotone(rs) && i < |rs|
    requires OutcomeAt(rpm, rs, i).Refused?
    ensures var dq := Recent(rpm, rs, i, rs[i].ip, rs[i].time);
      && |dq| == rpm && rs[i].time - dq[0] <= WINDOW && dq[0] <= rs[i].time
  {
    var kept, h := RunRecent(rpm, rs[..i], rs[i].ip, rs[i].time);
  }

  lemma RetryAfterValue(oldest: real, now: real)
    requires 0.0 <= now - oldest <= WINDOW
    ensures 1 <= RetryAfter(oldest, now) <= 61
    ensures now + RetryAfter(oldest, now) as real - oldest > WINDOW
    ensures now + (RetryAfter(oldest, now) - 1) as real - oldest <= WINDOW
  {
  }

  /** Retry-After is between 1 and 61 seconds and, if nothing else of the client is admitted meanwhile, sufficient
      and least: a request at least that much later is admitted, one at least a second earlier than that is not. */
  lemma RetryAfterSufficientAndLeast(rpm: int, rs: seq<Request>, i: nat, j: nat)
    requires rpm >= 1 && Monotone(rs) && i < j < |rs| && rs[j].ip == rs[i].ip
    requires OutcomeAt(rpm, rs, i).Refused?
    requires forall k :: i < k < j && rs[k].ip == rs[i].ip ==> OutcomeAt(rpm, rs, k) != Admitted
    ensures var wait := OutcomeAt(rpm, rs, i).retryAfter;
      && 1 <= wait <= 61
      && (rs[j].time >= rs[i].time + wait as real ==> OutcomeAt(rpm, rs, j) == Admitted)
      && (rs[j].time <= rs[i].time + (wait - 1) as real ==> OutcomeAt(rpm, rs, j).Refused?)
  {
    AdmittedIffOldestLeft(rpm, rs, i, j);
    var dq := Recent(rpm, rs, i, rs[i].ip, rs[i].time);
    RetryAfterValue(dq[0], rs[i].time);
    NonPositiveLimitFails(rpm, rs, j);
  }
}
