/** Sliding-window quotas per provider (backend/investigation/enrichment_api.py, reserve_rate) and
    fixed-window quotas per identity (backend/investigation/auth.py, throttle). */
module RateLimits {
  import opened Common

  /* ---- Sliding window ---- */

  datatype Provider = VirusTotal | Urlscan | Dkim

  datatype Attempt = Attempt(provider: Provider, at: Clock)

  function Limit(provider: Provider): nat {
    if provider == VirusTotal then 4 else 10
  }

  /** Rows in the order they were inserted, or calls in the order they were made: the latest last. */
  datatype History<T> = Start | Then(before: History<T>, call: T)

  /** The rows left when those before the cutoff are deleted. */
  function Pruned(rows: History<Attempt>, cutoff: Clock): History<Attempt> {
    match rows
    case Start => Start
    case Then(before, a) => if a.at < cutoff then Pruned(before, cutoff) else Then(Pruned(before, cutoff), a)
  }

  /** How many rows of a provider lie after the cutoff. */
  function Used(rows: History<Attempt>, provider: Provider, cutoff: Clock): nat {
    match rows
    case Start => 0
    case Then(before, a) => Used(before, provider, cutoff) + if a.provider == provider && a.at > cutoff then 1 else 0
  }

  /** A refusal raises, so the pruning is rolled back with it. */
  function RateStep(rows: History<Attempt>, a: Attempt): (History<Attempt>, bool) {
    var kept := Pruned(rows, a.at - 3600.0);
    if Used(kept, a.provider, a.at - 60.0) >= Limit(a.provider) then (rows, false) else (Then(kept, a), true)
  }

  /** The attempts table after these calls. */
  function Table(h: History<Attempt>): History<Attempt> {
    match h
    case Start => Start
    case Then(before, a) => RateStep(Table(before), a).0
  }

  /** The latest call was admitted. */
  predicate Admits(h: History<Attempt>)
    requires h.Then?
  {
    RateStep(Table(h.before), h.call).1
  }

  /** Admitted calls to one provider at a time in (from, to]. */
  function AdmittedIn(h: History<Attempt>, provider: Provider, from: Clock, to: Clock): nat {
    match h
    case Start => 0
    case Then(before, a) =>
      AdmittedIn(before, provider, from, to) + if Admits(h) && a.provider == provider && from < a.at <= to then 1 else 0
  }

  function AdmittedAfter(h: History<Attempt>, provider: Provider, cutoff: Clock): nat {
    match h
    case Start => 0
    case Then(before, a) =>
      AdmittedAfter(before, provider, cutoff) + if Admits(h) && a.provider == provider && a.at > cutoff then 1 else 0
  }

  predicate NoneAfter(h: History<Attempt>, bound: Clock) {
    h.Then? ==> h.call.at <= bound && NoneAfter(h.before, bound)
  }

  /** Each reading is at most `slack` seconds behind any earlier one; no slack is a non-decreasing clock. */
  predicate ClockSlack(h: History<Attempt>, slack: real) {
    h.Then? ==> NoneAfter(h.before, h.call.at + slack) && ClockSlack(h.before, slack)
  }

  lemma {:induction false} UsedAfterPruning(rows: History<Attempt>, provider: Provider, prune: Clock, cutoff: Clock)
    requires prune <= cutoff
    ensures Used(Pruned(rows, prune), provider, cutoff) == Used(rows, provider, cutoff)
  {
    if rows.Then? {
      UsedAfterPruning(rows.before, provider, prune, cutoff);
    }
  }

  /** The table still counts every admitted call after the cutoff, as long as no reading was more than
      the 3600 s pruning horizon past it. */
  lemma {:induction false} TableCountsHistory(h: History<Attempt>, provider: Provider, cutoff: Clock)
    requires NoneAfter(h, cutoff + 3600.0)
    ensures Used(Table(h), provider, cutoff) == AdmittedAfter(h, provider, cutoff)
  {
    match h
    case Start =>
    case Then(before, a) =>
      TableCountsHistory(before, provider, cutoff);
      if Admits(h) {
        UsedAfterPruning(Table(before), provider, a.at - 3600.0, cutoff);
      }
  }

  lemma {:induction false} WindowWithinAfter(h: History<Attempt>, provider: Provider, from: Clock, to: Clock, cutoff: Clock)
    requires cutoff <= from
    ensures AdmittedIn(h, provider, from, to) <= AdmittedAfter(h, provider, cutoff)
  {
    if h.Then? {
      WindowWithinAfter(h.before, provider, from, to, cutoff);
    }
  }

  /** When a call is admitted, fewer than the limit were admitted before it in any window it belongs to. */
  lemma LastAdmissionLeavesRoom(h: History<Attempt>, t: Clock)
    requires h.Then? && Admits(h) && ClockSlack(h, 3540.0) && t - 60.0 < h.call.at <= t
    ensures AdmittedIn(h.before, h.call.provider, t - 60.0, t) < Limit(h.call.provider)
  {
    var cutoff := h.call.at - 60.0;
    UsedAfterPruning(Table(h.before), h.call.provider, h.call.at - 3600.0, cutoff);
    assert h.call.at + 3540.0 == cutoff + 3600.0;
    TableCountsHistory(h.before, h.call.provider, cutoff);
    WindowWithinAfter(h.before, h.call.provider, t - 60.0, t, cutoff);
  }

  /** In every window of one minute, at most the provider's limit is admitted, even if the clock steps
      back, by up to 3540 s. */
  lemma {:induction false} SlidingWindowBound(h: History<Attempt>, provider: Provider, t: Clock)
    requires ClockSlack(h, 3540.0)
    ensures AdmittedIn(h, provider, t - 60.0, t) <= Limit(provider)
  {
    if h.Then? {
      SlidingWindowBound(h.before, provider, t);
      if Admits(h) && h.call.provider == provider && t - 60.0 < h.call.at <= t {
        LastAdmissionLeavesRoom(h, t);
      }
    }
  }

  lemma {:induction false} SlackGrows(h: History<Attempt>, bound: Clock, higher: Clock)
    requires NoneAfter(h, bound) && bound <= higher
    ensures NoneAfter(h, higher)
  {
    if h.Then? { SlackGrows(h.before, bound, higher); }
  }

  /** The ordinary case: a clock that never steps back. */
  lemma SteadyClockBound(h: History<Attempt>, provider: Provider, t: Clock)
    requires ClockSlack(h, 0.0)
    ensures AdmittedIn(h, provider, t - 60.0, t) <= Limit(provider)
  {
    LessSlack(h, 0.0, 3540.0);
    SlidingWindowBound(h, provider, t);
  }

  /** n calls to one provider, all at one time. */
  function Calls(a: Attempt, n: nat): History<Attempt> {
    if n == 0 then Start else Then(Calls(a, n - 1), a)
  }

  lemma {:induction false} CallsAreAdmitted(a: Attempt, n: nat, from: Clock, to: Clock)
    requires n <= Limit(a.provider) && from < a.at <= to
    ensures Table(Calls(a, n)) == Calls(a, n) && Used(Calls(a, n), a.provider, from) == n
    ensures Pruned(Calls(a, n), a.at - 3600.0) == Calls(a, n)
    ensures AdmittedIn(Calls(a, n), a.provider, from, to) == n
    ensures NoneAfter(Calls(a, n), a.at)
  {
    if n > 0 {
      CallsAreAdmitted(a, n - 1, a.at - 60.0, a.at);
      CallsAreAdmitted(a, n - 1, from, to);
    }
  }

  lemma {:induction false} CallsArePruned(a: Attempt, n: nat, cutoff: Clock)
    requires a.at < cutoff
    ensures Pruned(Calls(a, n), cutoff) == Start
  {
    if n > 0 {
      CallsArePruned(a, n - 1, cutoff);
    }
  }

  lemma {:induction false} CallsHaveSlack(a: Attempt, n: nat, slack: real)
    requires slack >= 0.0
    ensures ClockSlack(Calls(a, n), slack) && NoneAfter(Calls(a, n), a.at + slack)
  {
    if n > 0 {
      CallsHaveSlack(a, n - 1, slack);
    }
  }

  /** A single row in the table never fills a window. */
  lemma OneNeverFills(a: Attempt, b: Attempt)
    ensures RateStep(Then(Start, a), b).1
  {
    var cutoff := b.at - 3600.0;
    assert Pruned(Start, cutoff) == Start;
    assert Pruned(Then(Start, a), cutoff) == if a.at < cutoff then Start else Then(Start, a);
    assert Used(Start, b.provider, b.at - 60.0) == 0;
  }

  /** A reading that prunes everything, and one back in the old minute: both calls are admitted. */
  lemma GlitchAdmitsAgain(full: History<Attempt>, ahead: Attempt, back: Attempt, t: Clock)
    requires Table(full) == full && Pruned(full, ahead.at - 3600.0) == Start
    requires ahead.at > t && t - 60.0 < back.at <= t
    ensures AdmittedIn(Then(Then(full, ahead), back), back.provider, t - 60.0, t)
      == AdmittedIn(full, back.provider, t - 60.0, t) + 1
  {
    assert Used(Start, ahead.provider, ahead.at - 60.0) == 0;
    assert Table(Then(full, ahead)) == Then(Start, ahead);
    OneNeverFills(ahead, back);
    assert AdmittedIn(Then(full, ahead), back.provider, t - 60.0, t) == AdmittedIn(full, back.provider, t - 60.0, t);
  }

  lemma GlitchHasSlack(full: History<Attempt>, ahead: Attempt, back: Attempt, slack: real)
    requires ClockSlack(full, slack) && NoneAfter(full, 0.0) && slack >= 0.0
    requires 0.0 <= ahead.at && 0.0 <= back.at && ahead.at <= back.at + slack
    ensures ClockSlack(Then(Then(full, ahead), back), slack)
  {
    SlackGrows(full, 0.0, ahead.at + slack);
    SlackGrows(full, 0.0, back.at + slack);
  }

  /** n calls at once, a reading too far ahead, and one call more within the minute of the n. */
  lemma GlitchRun(provider: Provider, n: nat, slack: real) returns (h: History<Attempt>, t: Clock)
    requires n <= Limit(provider) && slack > 3540.0
    ensures ClockSlack(h, slack) && AdmittedIn(h, provider, t - 60.0, t) == n + 1
  {
    var d := if slack >= 3600.0 then 30.0 else (slack - 3540.0) / 2.0;
    t := 60.0 - d;
    var a, ahead, back := Attempt(provider, 0.0), Attempt(provider, 3600.0 + d / 2.0), Attempt(provider, t);
    var full := Calls(a, n);
    CallsAreAdmitted(a, n, t - 60.0, t);
    CallsArePruned(a, n, ahead.at - 3600.0);
    CallsHaveSlack(a, n, slack);
    GlitchAdmitsAgain(full, ahead, back, t);
    GlitchHasSlack(full, ahead, back, slack);
    h := Then(Then(full, ahead), back);
  }

  /** The clock condition is exact: for every slack beyond 3540 s some run exceeds the limit of any provider. The
      reading too far ahead prunes the calls that the next reading should still have counted. */
  lemma ForwardGlitchLosesHistory(provider: Provider, slack: real) returns (h: History<Attempt>, t: Clock)
    requires slack > 3540.0
    ensures ClockSlack(h, slack) && AdmittedIn(h, provider, t - 60.0, t) > Limit(provider)
  {
    h, t := GlitchRun(provider, Limit(provider), slack);
  }

  lemma {:induction false} LessSlack(h: History<Attempt>, slack: real, more: real)
    requires ClockSlack(h, slack) && slack <= more
    ensures ClockSlack(h, more)
  {
    if h.Then? {
      LessSlack(h.before, slack, more);
      SlackGrows(h.before, h.call.at + slack, h.call.at + more);
    }
  }

  predicate WithinLimit(h: History<Attempt>, provider: Provider, t: Clock) {
    AdmittedIn(h, provider, t - 60.0, t) <= Limit(provider)
  }

  ghost predicate KeepsLimit(provider: Provider, slack: real) {
    forall h, t :: ClockSlack(h, slack) ==> WithinLimit(h, provider, t)
  }

  /** The limit holds in every minute of every run exactly if the clock never steps back by more than 3540 s. */
  lemma LimitHoldsIff(provider: Provider, slack: real)
    ensures KeepsLimit(provider, slack) <==> slack <= 3540.0
  {
    if slack <= 3540.0 {
      forall h, t ensures ClockSlack(h, slack) ==> WithinLimit(h, provider, t) {
        if ClockSlack(h, slack) {
          LessSlack(h, slack, 3540.0);
          SlidingWindowBound(h, provider, t);
        }
      }
    } else {
      var h, t := ForwardGlitchLosesHistory(provider, slack);
      assert !WithinLimit(h, provider, t);
    }
  }

  /** With such a clock the pruned table decides as the whole history would: a call is admitted exactly if fewer than
      the limit, 4 for VirusTotal and 10 for the others, were admitted within the minute before it. */
  lemma AdmittedIffRoom(h: History<Attempt>, a: Attempt)
    requires ClockSlack(Then(h, a), 3540.0)
    ensures RateStep(Table(h), a).1 <==> AdmittedAfter(h, a.provider, a.at - 60.0) < if a.provider == VirusTotal then 4 else 10
  {
    var cutoff, rows := a.at - 60.0, Table(h);
    UsedAfterPruning(rows, a.provider, a.at - 3600.0, cutoff);
    assert a.at + 3540.0 == cutoff + 3600.0;
    TableCountsHistory(h, a.provider, cutoff);
    StepCounts(rows, a);
  }

  lemma StepCounts(rows: History<Attempt>, a: Attempt)
    ensures RateStep(rows, a).1 <==> Used(Pruned(rows, a.at - 3600.0), a.provider, a.at - 60.0) < Limit(a.provider)
  {
  }

  /* ---- Fixed window ---- */

  datatype Counter = Counter(count: nat, window: Clock)

  predicate Exhausted(row: Option<Counter>, now: Clock, limit: nat, seconds: real) {
    row.Some? && now - row.value.window < seconds && row.value.count >= limit
  }

  function ThrottleStep(row: Option<Counter>, now: Clock, limit: nat, seconds: real): (Option<Counter>, bool) {
    if Exhausted(row, now, limit, seconds) then (row, false)
    else if row.None? || now - row.value.window >= seconds then (Some(Counter(1, now)), true)
    else (Some(Counter(row.value.count + 1, row.value.window)), true)
  }

  /** A refusal lasts until the window is over and no longer: as long as nothing is cleared, a call at time t is refused
      exactly while t is less than the window's length after its start, and refused calls change nothing. */
  lemma RefusedWhileWindowLasts(row: Option<Counter>, now: Clock, limit: nat, seconds: real, t: Clock)
    requires !ThrottleStep(row, now, limit, seconds).1
    ensures row.Some? && ThrottleStep(row, now, limit, seconds).0 == row
    ensures ThrottleStep(row, t, limit, seconds).1 <==> t >= row.value.window + seconds
  {
  }

  function Row(h: History<Clock>, limit: nat, seconds: real): Option<Counter> {
    match h
    case Start => None
    case Then(before, now) => ThrottleStep(Row(before, limit, seconds), now, limit, seconds).0
  }

  predicate Passes(h: History<Clock>, limit: nat, seconds: real)
    requires h.Then?
  {
    ThrottleStep(Row(h.before, limit, seconds), h.call, limit, seconds).1
  }

  /** Calls of one identity admitted in [from, from + seconds). */
  function PassedIn(h: History<Clock>, limit: nat, seconds: real, from: Clock): nat {
    match h
    case Start => 0
    case Then(before, now) =>
      PassedIn(before, limit, seconds, from)
      + if Passes(h, limit, seconds) && from <= now < from + seconds then 1 else 0
  }

  predicate NonDecreasing(h: History<Clock>) {
    h.Then? ==> NonDecreasing(h.before) && (h.before.Then? ==> h.before.call <= h.call)
  }

  /** How the admitted calls of an interval relate to the counter. */
  predicate FixedWindowInvariant(row: Option<Counter>, passed: nat, limit: nat, seconds: real, from: Clock) {
    match row
    case None => passed == 0
    case Some(c) =>
      && 1 <= c.count <= limit
      && (c.window < from ==> passed <= c.count - 1)
      && (from <= c.window < from + seconds ==> passed <= limit - 1 + c.count)
      && passed <= 2 * limit - 1
  }

  lemma {:induction false} FixedWindow(h: History<Clock>, limit: nat, seconds: real, from: Clock)
    requires NonDecreasing(h) && limit >= 1 && seconds > 0.0
    ensures FixedWindowInvariant(Row(h, limit, seconds), PassedIn(h, limit, seconds, from), limit, seconds, from)
    ensures h.Then? && h.call < from ==> PassedIn(h, limit, seconds, from) == 0
    ensures h.Then? ==> Row(h, limit, seconds).Some? && Row(h, limit, seconds).value.window <= h.call
  {
    if h.Then? {
      FixedWindow(h.before, limit, seconds, from);
    }
  }

  /** In every half-open interval as long as the window, an identity that is never cleared passes at
      most twice its limit; in fact one less, because the first window's opening call lies outside. */
  lemma FixedWindowBound(h: History<Clock>, limit: nat, seconds: real, from: Clock)
    requires NonDecreasing(h) && limit >= 1 && seconds > 0.0
    ensures PassedIn(h, limit, seconds, from) <= 2 * limit - 1
  {
    FixedWindow(h, limit, seconds, from);
  }

  /** n more calls, all at one time. */
  function Burst(h: History<Clock>, at: Clock, n: nat): History<Clock> {
    if n == 0 then h else Then(Burst(h, at, n - 1), at)
  }

  /** Calls inside an open window all pass while the limit allows. */
  lemma {:induction false} BurstPasses(h: History<Clock>, at: Clock, n: nat, limit: nat, seconds: real, from: Clock)
    requires Row(h, limit, seconds).Some? && from <= at < from + seconds
    requires var c := Row(h, limit, seconds).value; at - c.window < seconds && c.count + n <= limit
    ensures var c := Row(h, limit, seconds).value;
      && Row(Burst(h, at, n), limit, seconds) == Some(Counter(c.count + n, c.window))
      && PassedIn(Burst(h, at, n), limit, seconds, from) == PassedIn(h, limit, seconds, from) + n
  {
    if n > 0 {
      BurstPasses(h, at, n - 1, limit, seconds, from);
    }
  }

  lemma {:induction false} BurstNonDecreasing(h: History<Clock>, at: Clock, n: nat)
    requires NonDecreasing(h) && h.Then? && h.call <= at
    ensures var b := Burst(h, at, n); NonDecreasing(b) && b.Then? && h.call <= b.call <= at
  {
    if n > 0 {
      BurstNonDecreasing(h, at, n - 1);
    }
  }

  /** The bound is attained: fill a window late, then fill the next one as soon as it opens. */
  lemma FixedWindowBoundAttained(limit: nat, seconds: real) returns (h: History<Clock>, from: Clock)
    requires limit >= 1 && seconds > 0.0
    ensures NonDecreasing(h) && PassedIn(h, limit, seconds, from) == 2 * limit - 1
  {
    from := seconds / 2.0;
    var opening := Then(Start, 0.0);
    assert Row(opening, limit, seconds) == Some(Counter(1, 0.0));
    BurstPasses(opening, from, limit - 1, limit, seconds, from);
    BurstNonDecreasing(opening, from, limit - 1);
    var next := Then(Burst(opening, from, limit - 1), seconds);
    assert Row(next, limit, seconds) == Some(Counter(1, seconds));
    BurstPasses(next, seconds, limit - 1, limit, seconds, from);
    BurstNonDecreasing(next, seconds, limit - 1);
    h := Burst(next, seconds, limit - 1);
  }
}
