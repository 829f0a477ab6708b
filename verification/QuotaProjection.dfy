/** Projecting how far a usage quota will last (crates/jig-agents-tui/src/model.rs). Fractions and
    percentages are reals; counts of seconds are 64-bit. */
module QuotaProjection {
  import opened Wrappers

  const U64_MAX: nat := 0xFFFF_FFFF_FFFF_FFFF
  const STALE_AFTER: nat := 15 * 60
  const MIN_ELAPSED_FRACTION: real := 0.1

  function SaturatingAdd(a: nat, b: nat): nat {
    if a + b <= U64_MAX then a + b else U64_MAX
  }

  /** `f64::round` of a number that is not negative, as an unsigned integer. */
  function Round(x: real): int {
    (x + 0.5).Floor
  }

  // ---- one window ----

  datatype Window = Window(usedPercent: Option<real>, durationMinutes: Option<nat>, resetsAt: Option<int>)

  datatype WindowProjection =
    | Unavailable
    | Collecting(remainingPercent: real)
    | Remaining(percent: real)
    | ExhaustsEarly(seconds: int, score: real)
    | Exhausted

  function ValidUsedPercent(w: Window): Option<real> {
    if w.usedPercent.Some? && w.usedPercent.value >= 0.0 then w.usedPercent else None
  }

  function Reset(w: Window): Option<nat> {
    if w.resetsAt.Some? && w.resetsAt.value >= 0 then Some(w.resetsAt.value) else None
  }

  function Duration(w: Window): Option<nat> {
    if w.durationMinutes.Some? && 0 < w.durationMinutes.value && w.durationMinutes.value * 60 <= U64_MAX
    then Some(w.durationMinutes.value * 60)
    else None
  }

  /** `timing_at`: the length of the window and the elapsed part of it, when `now` is inside. */
  function TimingAt(w: Window, now: nat): Option<(nat, real)> {
    var duration, reset := Duration(w), Reset(w);
    if duration.None? || reset.None? || reset.value < duration.value then None
    else
      var start := reset.value - duration.value;
      if now < start || now - start >= duration.value then None
      else Some((duration.value, (now - start) as real / duration.value as real))
  }

  /** How long before the reset everything is used. */
  function TimeEarly(used: real, elapsed: real, duration: nat): real
    requires used > 0.0
  {
    (1.0 - elapsed * (100.0 / used)) * duration as real
  }

  function Verdict(projectedUse: real, early: real): WindowProjection {
    var score := 100.0 - projectedUse;
    if score >= 0.0 then Remaining(score) else ExhaustsEarly(Round(if early > 0.0 then early else 0.0), score)
  }

  /** Past the warmup: `elapsed` of the window has passed. */
  function Projected(used: real, elapsed: real, duration: nat): WindowProjection
    requires used > 0.0 && elapsed > 0.0
  {
    Verdict(used / elapsed, TimeEarly(used, elapsed, duration))
  }

  /** `RateLimitWindow::projection_at`. */
  function ProjectionAt(w: Window, now: nat): WindowProjection {
    var used := ValidUsedPercent(w);
    if used.None? then Unavailable
    else if used.value >= 100.0 then Exhausted
    else
      var timing := TimingAt(w, now);
      if timing.None? then Unavailable
      else
        var (duration, elapsed) := timing.value;
        if used.value == 0.0 then Remaining(100.0)
        else if elapsed < MIN_ELAPSED_FRACTION then Collecting(100.0 - used.value)
        else Projected(used.value, elapsed, duration)
  }

  // ---- what a projection means ----

  /** The percentage used `t` seconds into the window, if it keeps growing as it has for the first
      `elapsed` seconds. */
  ghost function Pace(used: real, elapsed: real, t: real): real
    requires elapsed > 0.0
  {
    used * (t / elapsed)
  }

  /** When that reaches everything. */
  ghost function ExhaustedAfter(used: real, elapsed: real): real
    requires used > 0.0
  {
    elapsed * (100.0 / used)
  }

  /** The seconds of a window that lasts at least a minute, while 64 bits hold them. */
  lemma DurationMeaning(w: Window, seconds: nat)
    ensures Duration(w) == Some(seconds) <==>
            seconds % 60 == 0 && w.durationMinutes == Some(seconds / 60)
            && 0 < seconds <= 0xFFFF_FFFF_FFFF_FFFF
  {
  }

  /** When a projection made at `now` can say something: the percentage is all used, or `now` is
      inside of the window that ends at the reset. */
  lemma ProjectableMeaning(w: Window, now: nat)
    ensures Projectable(w, now) <==>
            && IsSampled(w)
            && (w.usedPercent.value >= 100.0
                || (&& w.durationMinutes.Some? && w.resetsAt.Some?
                    && 0 <= w.resetsAt.value - 60 * w.durationMinutes.value <= now < w.resetsAt.value
                    && 60 * w.durationMinutes.value <= 0xFFFF_FFFF_FFFF_FFFF))
  {
  }

  lemma Cancel(a: real, b: real)
    requires b != 0.0
    ensures (a / b) * b == a
  {
  }

  lemma MulOrder(a: real, b: real, c: real)
    requires c > 0.0
    ensures a < b <==> a * c < b * c
  {
    if a < b { Positive(b - a, c); }
    if a * c < b * c && b <= a { NotNegative(a - b, c); }
  }

  lemma Positive(a: real, c: real)
    requires a > 0.0 && c > 0.0
    ensures a * c > 0.0
  {
  }

  lemma NotNegative(a: real, c: real)
    requires a >= 0.0 && c > 0.0
    ensures a * c >= 0.0
  {
  }

  lemma CancelFactor(a: real, b: real, c: real)
    requires c > 0.0 && a * c == b * c
    ensures a == b
  {
    MulOrder(a, b, c);
    MulOrder(b, a, c);
  }

  lemma Associate(a: real, b: real, c: real)
    ensures (a * b) * c == a * (b * c) == (a * c) * b
  {
  }

  lemma FractionOf(e: real, d: real)
    requires 0.0 < e < d
    ensures 0.0 < e / d < 1.0 && (d / e) * (e / d) == 1.0
  {
    var f, g := e / d, d / e;
    Cancel(e, d);
    Cancel(d, e);
    MulOrder(0.0, f, d);
    MulOrder(f, 1.0, d);
    Associate(g, f, d);
    CancelFactor(g * f, 1.0, d);
  }

  lemma QuotientIs(u: real, f: real, g: real, q: real)
    requires f > 0.0 && g * f == 1.0 && q * f == u
    ensures q == u * g
  {
    Associate(u, g, f);
    CancelFactor(q, u * g, f);
  }

  /** The projected use at the reset is the pace there. */
  lemma ProjectedUse(u: real, e: real, d: real)
    requires 0.0 < e < d
    ensures e / d != 0.0 && u / (e / d) == Pace(u, e, d)
  {
    FractionOf(e, d);
    Cancel(u, e / d);
    QuotientIs(u, e / d, d / e, u / (e / d));
  }

  lemma Later(u: real, e: real, x: real)
    requires 0.0 < u < 100.0 && 0.0 < e && x * u == 100.0
    ensures e < e * x
  {
    MulOrder(1.0, x, u);
    MulOrder(1.0, x, e);
  }

  lemma TimeLeft(e: real, d: real, f: real, x: real)
    requires f * d == e
    ensures (1.0 - f * x) * d == d - e * x
  {
    Associate(f, x, d);
    Distribute(f * x, d);
  }

  lemma Distribute(y: real, d: real)
    ensures (1.0 - y) * d == d - y * d
  {
  }

  lemma OverrunMeansEarly(u: real, e: real, d: real, g: real, x: real)
    requires 0.0 < u && 0.0 < e && x * u == 100.0 && g * e == d
    ensures 100.0 < u * g <==> e * x < d
  {
    MulOrder(100.0, u * g, e);
    Associate(u, g, e);
    MulOrder(e * x, d, u);
    Associate(e, x, u);
  }

  lemma ExhaustionFacts(u: real, e: real)
    requires 0.0 < u < 100.0 && 0.0 < e
    ensures e < ExhaustedAfter(u, e) && Pace(u, e, ExhaustedAfter(u, e)) == 100.0
  {
    Cancel(100.0, u);
    Later(u, e, 100.0 / u);
    PaceAtExhaustion(u, e, 100.0 / u);
  }

  lemma EarlyIsTheRest(u: real, e: real, d: nat)
    requires 0.0 < u && 0 < d
    ensures TimeEarly(u, e / d as real, d) == d as real - ExhaustedAfter(u, e)
  {
    Cancel(e, d as real);
    TimeLeft(e, d as real, e / d as real, 100.0 / u);
  }

  lemma EarlyMeansOverrun(u: real, e: real, d: real)
    requires 0.0 < u < 100.0 && 0.0 < e < d
    ensures 100.0 < Pace(u, e, d) <==> ExhaustedAfter(u, e) < d
  {
    var g, x := d / e, 100.0 / u;
    Cancel(100.0, u);
    Cancel(d, e);
    OverrunMeansEarly(u, e, d, g, x);
    assert Pace(u, e, d) == u * g;
    assert ExhaustedAfter(u, e) == e * x;
  }

  lemma PaceAtExhaustion(u: real, e: real, x: real)
    requires u > 0.0 && e > 0.0 && x * u == 100.0
    ensures u * ((e * x) / e) == 100.0
  {
    Cancel(e * x, e);
    CancelFactor((e * x) / e, x, e);
  }

  lemma RoundBelow(x: real, n: int)
    requires 0.0 <= x < n as real
    ensures 0 <= Round(x) <= n
  {
  }

  /** `now` lies in the window that ends at the reset. */
  predicate InWindow(w: Window, now: nat) {
    && Duration(w).Some? && Reset(w).Some?
    && Reset(w).value - Duration(w).value >= 0
    && Reset(w).value - Duration(w).value <= now < Reset(w).value
  }

  /** Which kind of projection there is, without fractions: none without a usable percentage or
      outside the window; exhausted from 100 percent on; collecting while less than a tenth of
      the window has passed. */
  lemma ProjectionKinds(w: Window, now: nat)
    ensures var used, p := ValidUsedPercent(w), ProjectionAt(w, now);
            && (p.Exhausted? <==> used.Some? && used.value >= 100.0)
            && (p.Unavailable? <==> used.None? || (used.value < 100.0 && !InWindow(w, now)))
            && (p.Collecting? <==> used.Some? && 0.0 < used.value < 100.0 && InWindow(w, now)
                                   && 10 * (now - (Reset(w).value - Duration(w).value)) < Duration(w).value)
            && (used == Some(0.0) && InWindow(w, now) ==> p == Remaining(100.0))
  {
    if TimingAt(w, now).Some? {
      UnderATenth(now - (Reset(w).value - Duration(w).value), Duration(w).value);
    }
  }

  lemma UnderATenth(e: nat, d: nat)
    requires 0 < d
    ensures e as real / d as real < MIN_ELAPSED_FRACTION <==> 10 * e < d
  {
    var x, y := e as real, d as real;
    Cancel(x, y);
    MulOrder(x / y, MIN_ELAPSED_FRACTION, y);
    assert x < MIN_ELAPSED_FRACTION * y <==> 10.0 * x < y;
    assert 10.0 * x == (10 * e) as real;
  }

  /** A window past its warmup: some of its time has passed, and some is left. */
  lemma WindowFacts(w: Window, now: nat)
    requires TimingAt(w, now).Some? && TimingAt(w, now).value.1 >= MIN_ELAPSED_FRACTION
    ensures var d, e := Duration(w).value, now - (Reset(w).value - Duration(w).value);
            0 < e < d && TimingAt(w, now).value == (d, e as real / d as real)
  {
    var d, e := Duration(w).value as real, (now - (Reset(w).value - Duration(w).value)) as real;
    Cancel(e, d);
    Positive(TimingAt(w, now).value.1, d);
  }

  lemma ProjectedFollowsThePace(u: real, e: nat, d: nat)
    requires 0 < e < d && 0.0 < u < 100.0
    ensures e as real / d as real > 0.0
    ensures var t, score := ExhaustedAfter(u, e as real), 100.0 - Pace(u, e as real, d as real);
            && (e as real) < t && Pace(u, e as real, t) == 100.0
            && (t >= d as real ==> Projected(u, e as real / d as real, d) == Remaining(score))
            && (t < d as real ==> 0 <= Round(d as real - t) <= d - e
                                  && Projected(u, e as real / d as real, d) ==
                                      ExhaustsEarly(Round(d as real - t), score))
  {
    FractionOf(e as real, d as real);
    ProjectedUse(u, e as real, d as real);
    ExhaustionFacts(u, e as real);
    EarlyIsTheRest(u, e as real, d);
    EarlyMeansOverrun(u, e as real, d as real);
    var t := ExhaustedAfter(u, e as real);
    assert TimeEarly(u, e as real / d as real, d) == d as real - t;
    assert Projected(u, e as real / d as real, d) == Verdict(Pace(u, e as real, d as real), d as real - t);
    if t < d as real { RoundBelow(d as real - t, d - e); }
  }

  /** Past the warmup, with some but not all of the quota used, the projection is what the pace so
      far leads to at the reset. It says "early" exactly when that exhausts the quota before the
      reset. That moment is later than `now`, and the stated seconds are the rounded time from it
      to the reset, at most the time left. */
  lemma ProjectionFollowsThePace(w: Window, now: nat, u: real)
    requires ValidUsedPercent(w) == Some(u) && 0.0 < u < 100.0
    requires TimingAt(w, now).Some? && TimingAt(w, now).value.1 >= MIN_ELAPSED_FRACTION
    ensures var d, reset := Duration(w).value, Reset(w).value;
            var e := now - (reset - d);
            && 0 < e && (e as real) < ExhaustedAfter(u, e as real)
                && Pace(u, e as real, ExhaustedAfter(u, e as real)) == 100.0
            && (ExhaustedAfter(u, e as real) >= d as real ==>
                  ProjectionAt(w, now) == Remaining(100.0 - Pace(u, e as real, d as real)))
            && (ExhaustedAfter(u, e as real) < d as real ==>
                  var seconds := Round(d as real - ExhaustedAfter(u, e as real));
                  && ProjectionAt(w, now) == ExhaustsEarly(seconds, 100.0 - Pace(u, e as real, d as real))
                  && 0 <= seconds <= reset - now)
  {
    WindowFacts(w, now);
    var d := Duration(w).value;
    var e := now - (Reset(w).value - d);
    ProjectedFollowsThePace(u, e, d);
  }

  /** So for every window and time, a projected early exhaustion lies strictly between `now` and
      the reset, and the stated seconds are at most the time left. */
  lemma EarlyExhaustionIsAhead(w: Window, now: nat)
    requires ProjectionAt(w, now).ExhaustsEarly?
    ensures var d, reset, u := Duration(w).value, Reset(w).value, ValidUsedPercent(w).value;
            var at := (reset - d) as real + ExhaustedAfter(u, (now - (reset - d)) as real);
            now as real < at < reset as real && 0 <= ProjectionAt(w, now).seconds <= reset - now
  {
    ProjectionFollowsThePace(w, now, ValidUsedPercent(w).value);
  }

  // ---- expiry ----

  function Min(a: nat, b: nat): nat {
    if a <= b then a else b
  }

  predicate HasSample(w: Window) {
    ValidUsedPercent(w).Some?
  }

  predicate Projectable(w: Window, observedAt: nat) {
    !ProjectionAt(w, observedAt).Unavailable?
  }

  /** When a window's own reset makes a sample of it worthless; never, without one. */
  function ResetCap(w: Window, cap: nat): nat {
    if Reset(w).Some? then Min(Reset(w).value, cap) else cap
  }

  /** `quota_expires_at`, with the cap given. */
  function QuotaExpiry(windows: seq<Window>, cap: nat): nat {
    if windows == [] then cap
    else
      var rest, last := QuotaExpiry(windows[..|windows| - 1], cap), windows[|windows| - 1];
      if HasSample(last) && Reset(last).Some? then Min(rest, Reset(last).value) else rest
  }

  /** `projection_expires_at`, with the cap given. */
  function ProjectionExpiry(windows: seq<Window>, observedAt: nat, cap: nat): Option<nat> {
    if windows == [] then None
    else
      var rest, last := ProjectionExpiry(windows[..|windows| - 1], observedAt, cap), windows[|windows| - 1];
      if !Projectable(last, observedAt) then rest
      else if rest.None? then Some(ResetCap(last, cap))
      else Some(Min(rest.value, ResetCap(last, cap)))
  }

  /** The quota expiry is the earliest of the cap and the resets of the sampled windows. */
  lemma {:induction false} QuotaExpiryIsEarliest(windows: seq<Window>, cap: nat)
    ensures QuotaExpiry(windows, cap) <= cap
    ensures forall w | w in windows && HasSample(w) :: QuotaExpiry(windows, cap) <= ResetCap(w, cap)
    ensures QuotaExpiry(windows, cap) == cap ||
            exists w | w in windows && HasSample(w) :: Reset(w) == Some(QuotaExpiry(windows, cap))
  {
    if windows != [] {
      var front, last := windows[..|windows| - 1], windows[|windows| - 1];
      assert windows == front + [last];
      QuotaExpiryIsEarliest(front, cap);
      assert last in windows;
      if w :| w in front && HasSample(w) && Reset(w) == Some(QuotaExpiry(front, cap)) { assert w in windows; }
    }
  }

  /** The projection expiry is the earliest of the cap and the resets of the windows that can be
      projected, and there is one exactly when some window can be. */
  lemma {:induction false} ProjectionExpiryIsEarliest(windows: seq<Window>, observedAt: nat, cap: nat)
    ensures ProjectionExpiry(windows, observedAt, cap).Some? <==> exists w | w in windows :: Projectable(w, observedAt)
    ensures ProjectionExpiry(windows, observedAt, cap).Some? ==>
              var expiry := ProjectionExpiry(windows, observedAt, cap).value;
              && (forall w | w in windows && Projectable(w, observedAt) :: expiry <= ResetCap(w, cap))
              && (exists w | w in windows && Projectable(w, observedAt) :: expiry == ResetCap(w, cap))
  {
    if windows != [] {
      var front, last := windows[..|windows| - 1], windows[|windows| - 1];
      assert windows == front + [last];
      ProjectionExpiryIsEarliest(front, observedAt, cap);
      assert last in windows;
      assert forall w | w in front :: w in windows;
    }
  }

  /** A window that can be projected has a sample, so a quota sample never outlives the projection
      made from it. */
  lemma QuotaExpiresFirst(windows: seq<Window>, observedAt: nat, cap: nat)
    ensures var projection := ProjectionExpiry(windows, observedAt, cap);
            projection.Some? ==> QuotaExpiry(windows, cap) <= projection.value
  {
    QuotaExpiryIsEarliest(windows, cap);
    ProjectionExpiryIsEarliest(windows, observedAt, cap);
    if ProjectionExpiry(windows, observedAt, cap).Some? {
      var expiry := ProjectionExpiry(windows, observedAt, cap).value;
      var w :| w in windows && Projectable(w, observedAt) && expiry == ResetCap(w, cap);
      assert HasSample(w);
    }
  }

  // ---- freshness ----

  datatype Freshness = NotSampled | Fresh | Stale

  function SampledAt(now: nat, expiresAt: nat): Freshness {
    if now >= expiresAt then Stale else Fresh
  }

  /** `usage_snapshot_assessment_at`: the freshness of the quota and of the projection, from the
      primary bucket's windows, if there is one, and whether its sample is presented. */
  function FreshnessAt(primary: Option<seq<Window>>, presented: bool, observedAt: nat, now: nat)
    : (Freshness, Freshness)
  {
    var cap := SaturatingAdd(observedAt, STALE_AFTER);
    var quotaExpiry := if primary.Some? then QuotaExpiry(primary.value, cap) else cap;
    var found := if primary.Some? then ProjectionExpiry(primary.value, observedAt, cap) else None;
    var projectionExpiry := if found.Some? then found.value else quotaExpiry;
    var sampled := presented && primary.Some? && exists w | w in primary.value :: HasSample(w);
    if sampled then (SampledAt(now, quotaExpiry), SampledAt(now, projectionExpiry)) else (NotSampled, NotSampled)
  }

  /** A usable percentage was sampled. */
  ghost predicate IsSampled(w: Window) {
    w.usedPercent.Some? && w.usedPercent.value >= 0.0
  }

  /** Less than a quarter of an hour ago; the clock itself ends at 64 bits. */
  ghost predicate Recent(observedAt: nat, now: nat) {
    now < observedAt + 900 && now < 0xFFFF_FFFF_FFFF_FFFF
  }

  /** The window was not reset yet, as far as is known. */
  ghost predicate NotYetReset(w: Window, now: nat) {
    w.resetsAt.Some? && 0 <= w.resetsAt.value ==> now < w.resetsAt.value
  }

  /** The quota is fresh while the observation is recent and no sampled window was reset; the
      projection, while it is recent and no window that was projected was reset. */
  lemma FreshnessMeaning(windows: seq<Window>, presented: bool, observedAt: nat, now: nat)
    ensures var (quota, projection) := FreshnessAt(Some(windows), presented, observedAt, now);
            && (quota != NotSampled <==> presented && exists w | w in windows :: IsSampled(w))
            && (quota != NotSampled ==>
                  && (quota == Fresh <==>
                        Recent(observedAt, now) && forall w | w in windows && IsSampled(w) :: NotYetReset(w, now))
                  && (projection == Fresh <==>
                        if exists w | w in windows :: Projectable(w, observedAt)
                        then Recent(observedAt, now) &&
                             forall w | w in windows && Projectable(w, observedAt) :: NotYetReset(w, now)
                        else quota == Fresh))
    ensures FreshnessAt(None, presented, observedAt, now) == (NotSampled, NotSampled)
  {
    var cap := SaturatingAdd(observedAt, STALE_AFTER);
    assert now < cap <==> Recent(observedAt, now);
    assert forall w :: HasSample(w) <==> IsSampled(w);
    assert forall w :: now < ResetCap(w, cap) <==> now < cap && NotYetReset(w, now);
    QuotaExpiryIsEarliest(windows, cap);
    ProjectionExpiryIsEarliest(windows, observedAt, cap);
  }

  /** A fresh quota sample implies a fresh projection; a stale projection implies a stale quota. */
  lemma FreshQuotaFreshProjection(primary: Option<seq<Window>>, presented: bool, observedAt: nat, now: nat)
    ensures var (quota, projection) := FreshnessAt(primary, presented, observedAt, now);
            (quota.Fresh? ==> projection.Fresh?) && (quota.NotSampled? <==> projection.NotSampled?)
  {
    if primary.Some? {
      QuotaExpiresFirst(primary.value, observedAt, SaturatingAdd(observedAt, STALE_AFTER));
    }
  }

  // ---- the worst window of a bucket ----

  datatype Role = FiveHour | Weekly | DurationMinutes(minutes: nat) | AnyWindow

  datatype Projection =
    | NoProjection
    | StillCollecting(role: Role, remaining: real)
    | Scored(role: Role, window: WindowProjection, partial: bool)

  /** Minus infinity, or a number. */
  datatype Score = Lowest | At(value: real)

  predicate ScoreLess(a: Score, b: Score) {
    b.At? && (a.Lowest? || a.value < b.value)
  }

  predicate IsScored(p: WindowProjection) {
    p.Remaining? || p.ExhaustsEarly? || p.Exhausted?
  }

  /** `severity_score`. */
  function Severity(p: WindowProjection): Score
    requires IsScored(p)
  {
    match p
    case Remaining(percent) => At(percent)
    case ExhaustsEarly(_, score) => At(score)
    case Exhausted => Lowest
  }

  function RoleOf(subscription: bool, w: Window): Role {
    if !subscription || w.durationMinutes.None? then AnyWindow
    else if w.durationMinutes.value == 300 then FiveHour
    else if w.durationMinutes.value == 10080 then Weekly
    else DurationMinutes(w.durationMinutes.value)
  }

  ghost predicate IsRole(subscription: bool, w: Window, role: Role) {
    match role
    case FiveHour => subscription && w.durationMinutes == Some(5 * 60)
    case Weekly => subscription && w.durationMinutes == Some(7 * 24 * 60)
    case DurationMinutes(m) => subscription && w.durationMinutes == Some(m) && m != 5 * 60 && m != 7 * 24 * 60
    case AnyWindow => !subscription || w.durationMinutes.None?
  }

  /** An exhausted window is worst, then the one that will exceed its quota by most, then the one
      that will have least left. */
  ghost predicate Worse(p: WindowProjection, q: WindowProjection) {
    match p
    case Exhausted => q.ExhaustsEarly? || q.Remaining?
    case ExhaustsEarly(_, score) => q.Remaining? || (q.ExhaustsEarly? && score < q.score)
    case Remaining(percent) => q.Remaining? && percent < q.percent
    case _ => false
  }

  /** Scores order projections in that way. */
  lemma ScoresOrder(v: Window, w: Window, now: nat)
    requires IsScored(ProjectionAt(v, now)) && IsScored(ProjectionAt(w, now))
    ensures ScoreLess(Severity(ProjectionAt(v, now)), Severity(ProjectionAt(w, now))) <==>
            Worse(ProjectionAt(v, now), ProjectionAt(w, now))
  {
  }

  /** The first of the worst windows. */
  ghost predicate IsWorst(windows: seq<Window>, now: nat, n: nat, i: nat)
    requires n <= |windows|
  {
    && i < n && IsScored(ProjectionAt(windows[i], now))
    && (forall j | 0 <= j < n && IsScored(ProjectionAt(windows[j], now)) ::
          !Worse(ProjectionAt(windows[j], now), ProjectionAt(windows[i], now)))
    && (forall j | 0 <= j < i && IsScored(ProjectionAt(windows[j], now)) ::
          Worse(ProjectionAt(windows[i], now), ProjectionAt(windows[j], now)))
  }

  /** The first of the windows still collecting with the least remaining. */
  ghost predicate IsScarcest(windows: seq<Window>, now: nat, n: nat, i: nat)
    requires n <= |windows|
  {
    && i < n && ProjectionAt(windows[i], now).Collecting?
    && (forall j | 0 <= j < n && ProjectionAt(windows[j], now).Collecting? ::
          ProjectionAt(windows[i], now).remainingPercent <= ProjectionAt(windows[j], now).remainingPercent)
    && (forall j | 0 <= j < i && ProjectionAt(windows[j], now).Collecting? ::
          ProjectionAt(windows[i], now).remainingPercent < ProjectionAt(windows[j], now).remainingPercent)
  }

  ghost predicate Incomplete(windows: seq<Window>, now: nat, n: nat)
    requires n <= |windows|
  {
    exists i | 0 <= i < n :: !IsScored(ProjectionAt(windows[i], now))
  }

  /** What a pass over the first `n` windows knows of the worst: its role, projection and place. */
  ghost predicate WorstSoFar(subscription: bool, windows: seq<Window>, now: nat, n: nat,
                             worst: Option<(Role, WindowProjection)>, at: nat)
    requires n <= |windows|
  {
    if worst.None? then forall k | 0 <= k < n :: !IsScored(ProjectionAt(windows[k], now))
    else
      IsWorst(windows, now, n, at)
      && IsRole(subscription, windows[at], worst.value.0) && worst.value.1 == ProjectionAt(windows[at], now)
  }

  ghost predicate ScarcestSoFar(subscription: bool, windows: seq<Window>, now: nat, n: nat,
                                collecting: Option<(Role, real)>, at: nat)
    requires n <= |windows|
  {
    if collecting.None? then forall k | 0 <= k < n :: !ProjectionAt(windows[k], now).Collecting?
    else
      IsScarcest(windows, now, n, at) && IsRole(subscription, windows[at], collecting.value.0)
      && collecting.value.1 == ProjectionAt(windows[at], now).remainingPercent
  }

  method UpdateWorst(subscription: bool, windows: seq<Window>, now: nat, n: nat,
                     worst: Option<(Role, WindowProjection)>, ghost at: nat)
    returns (worst': Option<(Role, WindowProjection)>, ghost at': nat)
    requires n < |windows| && WorstSoFar(subscription, windows, now, n, worst, at)
    ensures WorstSoFar(subscription, windows, now, n + 1, worst', at')
  {
    var projection := ProjectionAt(windows[n], now);
    worst', at' := worst, at;
    if IsScored(projection) && worst.Some? { ScoresOrder(windows[n], windows[at], now); }
    if IsScored(projection) && (worst.None? || ScoreLess(Severity(projection), Severity(worst.value.1))) {
      worst', at' := Some((RoleOf(subscription, windows[n]), projection)), n;
    }
  }

  method UpdateCollecting(subscription: bool, windows: seq<Window>, now: nat, n: nat,
                          collecting: Option<(Role, real)>, ghost at: nat)
    returns (collecting': Option<(Role, real)>, ghost at': nat)
    requires n < |windows| && ScarcestSoFar(subscription, windows, now, n, collecting, at)
    ensures ScarcestSoFar(subscription, windows, now, n + 1, collecting', at')
  {
    var projection := ProjectionAt(windows[n], now);
    collecting', at' := collecting, at;
    if projection.Collecting? && (collecting.None? || projection.remainingPercent < collecting.value.1) {
      collecting', at' := Some((RoleOf(subscription, windows[n]), projection.remainingPercent)), n;
    }
  }

  /** `RateLimitBucket::projection_at`: the worst scored window speaks for the bucket, marked
      partial when some window has no score; failing that the scarcest one still collecting. */
  method BucketProjectionAt(subscription: bool, windows: seq<Window>, now: nat) returns (r: Projection, ghost i: nat)
    ensures r.Scored? ==> && IsWorst(windows, now, |windows|, i) && IsRole(subscription, windows[i], r.role)
                          && r.window == ProjectionAt(windows[i], now)
                          && (r.partial <==> Incomplete(windows, now, |windows|))
    ensures r.StillCollecting? ==> && IsScarcest(windows, now, |windows|, i)
                                   && IsRole(subscription, windows[i], r.role)
                                   && r.remaining == ProjectionAt(windows[i], now).remainingPercent
    ensures !r.Scored? ==> forall k | 0 <= k < |windows| :: !IsScored(ProjectionAt(windows[k], now))
    ensures r.NoProjection? ==> forall k | 0 <= k < |windows| :: ProjectionAt(windows[k], now).Unavailable?
  {
    var worst: Option<(Role, WindowProjection)> := None;
    var collecting: Option<(Role, real)> := None;
    var incomplete := false;
    ghost var worstAt, scarcestAt := 0, 0;
    var n := 0;
    while n < |windows|
      invariant 0 <= n <= |windows| && (incomplete <==> Incomplete(windows, now, n))
      invariant WorstSoFar(subscription, windows, now, n, worst, worstAt)
      invariant ScarcestSoFar(subscription, windows, now, n, collecting, scarcestAt)
    {
      if !IsScored(ProjectionAt(windows[n], now)) { incomplete := true; }
      collecting, scarcestAt := UpdateCollecting(subscription, windows, now, n, collecting, scarcestAt);
      worst, worstAt := UpdateWorst(subscription, windows, now, n, worst, worstAt);
      n := n + 1;
    }
    if worst.Some? {
      return Scored(worst.value.0, worst.value.1, incomplete), worstAt;
    }
    if collecting.Some? {
      return StillCollecting(collecting.value.0, collecting.value.1), scarcestAt;
    }
    return NoProjection, 0;
  }
}
