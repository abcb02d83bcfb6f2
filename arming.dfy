/**
 * What `Timer::Start` hands to the operating system: the Linux
 * `itimerspec` given to `timerfd_settime`, built from the period in
 * milliseconds, and the Win32 due time, repeat period and flags given to
 * `CreateTimerQueueTimer`.
 */
module Arming {
  import opened CppInt

  const MS_PER_SEC: int := 1000
  const NS_PER_MS: int := 1_000_000
  const NS_PER_SEC: int := 1_000_000_000

  /** A `struct timespec`: whole seconds and nanoseconds. */
  datatype TimeSpec = TimeSpec(tvSec: int, tvNsec: int)

  /** A `struct itimerspec`: the reload interval and the initial expiration. */
  datatype ItimerSpec = ItimerSpec(itInterval: TimeSpec, itValue: TimeSpec)

  /** The all-zero `timespec` that `memset` leaves behind. */
  const ZERO: TimeSpec := TimeSpec(0, 0)

  /** A non-negative time value whose nanosecond part is below one second. */
  predicate Normalized(ts: TimeSpec) {
    0 <= ts.tvSec && 0 <= ts.tvNsec < NS_PER_SEC
  }

  /** The nanoseconds a `timespec` stands for. */
  function TotalNanos(ts: TimeSpec): int {
    ts.tvSec * NS_PER_SEC + ts.tvNsec
  }

  /** The whole milliseconds in a non-negative `timespec` (the inverse of ToTimeSpec). */
  function ToMillis(ts: TimeSpec): int {
    ts.tvSec * MS_PER_SEC + ts.tvNsec / NS_PER_MS
  }

  /**
   * The `it_value` of Timer::Start: the millisecond count is narrowed to
   * `int`, then split into seconds (`/ 1000`) and nanoseconds
   * (`1000000 * (... % 1000)`) with C++'s truncating operators.
   * It always stands for exactly the narrowed count of milliseconds.
   */
  function ToTimeSpec(ms: Int64): (ts: TimeSpec)
    ensures TotalNanos(ts) == ToInt32(ms) * NS_PER_MS
    ensures ToInt32(ms) >= 0 ==> Normalized(ts) && ts.tvNsec % NS_PER_MS == 0
    ensures ToInt32(ms) < 0 ==> ts.tvSec <= 0 && -NS_PER_SEC < ts.tvNsec <= 0
  {
    var v := ToInt32(ms);
    TimeSpec(Quot(v, MS_PER_SEC), NS_PER_MS * Rem(v, MS_PER_SEC))
  }

  /**
   * The `itimerspec` Timer::Start arms the timer descriptor with: zeroed,
   * then `it_value` set from the period; `it_interval` gets a copy of
   * `it_value` only for a periodic timer.
   */
  function ArmingValue(ms: Int64, periodic: bool): (spec: ItimerSpec)
    ensures spec.itValue == ToTimeSpec(ms)
    ensures periodic ==> spec.itInterval == spec.itValue
    ensures !periodic ==> spec.itInterval == ZERO
  {
    var zeroed := ItimerSpec(ZERO, ZERO);
    var valued := zeroed.(itValue := ToTimeSpec(ms));
    if periodic then valued.(itInterval := valued.itValue) else valued
  }

  /**
   * For every period `int` can hold, the seconds and nanoseconds are the
   * quotient and scaled remainder of the period by 1000, and they give the
   * period back.
   */
  lemma MillisRoundTrip(ms: Int64)
    requires 0 <= ms < TWO_31
    ensures ToTimeSpec(ms).tvSec == ms / MS_PER_SEC
    ensures ToTimeSpec(ms).tvNsec == NS_PER_MS * (ms % MS_PER_SEC)
    ensures 0 <= ToTimeSpec(ms).tvNsec <= 999_000_000
    ensures ToMillis(ToTimeSpec(ms)) == ms
  {
    var ts := ToTimeSpec(ms);
    assert ToInt32(ms) == ms;
    assert ts.tvNsec / NS_PER_MS == ms % MS_PER_SEC;
  }

  /** A `timespec` of whole milliseconds that fit `int`. */
  predicate WholeMillis(ts: TimeSpec) {
    Normalized(ts) && ts.tvNsec % NS_PER_MS == 0 && ToMillis(ts) < TWO_31
  }

  /** Every whole-millisecond `timespec` is the conversion of its own millisecond count. */
  lemma TimeSpecRoundTrip(ts: TimeSpec)
    requires WholeMillis(ts)
    ensures 0 <= ToMillis(ts) < TWO_31
    ensures ToTimeSpec(ToMillis(ts)) == ts
  {
    var ms := ToMillis(ts);
    var k := ts.tvNsec / NS_PER_MS;
    assert ts.tvNsec == k * NS_PER_MS;
    assert 0 <= k < MS_PER_SEC;
    assert ms == ts.tvSec * MS_PER_SEC + k;
    MillisRoundTrip(ms);
    assert ms / MS_PER_SEC == ts.tvSec && ms % MS_PER_SEC == k;
  }

  /**
   * The conversion yields a normalised `timespec` exactly when the period,
   * narrowed to `int`, is not negative.
   */
  lemma NormalizedIffNonNegative(ms: Int64)
    ensures Normalized(ToTimeSpec(ms)) <==> ToInt32(ms) >= 0
  {
    var ts := ToTimeSpec(ms);
    if ToInt32(ms) < 0 {
      assert TotalNanos(ts) < 0;
    }
  }

  /**
   * A period of 2^31 ms (about 24.8 days) or more, up to 2^32 ms, narrows to
   * a negative `int`, so the armed value is not a normalised `timespec`.
   */
  lemma LongPeriodsWrap(ms: Int64)
    requires TWO_31 <= ms < TWO_32
    ensures ToInt32(ms) == ms - TWO_32
    ensures !Normalized(ToTimeSpec(ms))
  {
    NormalizedIffNonNegative(ms);
  }

  /**
   * Periods of 2^32 ms and more wrap: from 2^32 ms up to 2^32 + 2^31 ms the
   * descriptor is armed as for the period less 2^32 ms.
   */
  lemma PeriodsWrapModulo(ms: Int64, periodic: bool)
    requires TWO_32 <= ms < TWO_32 + TWO_31
    ensures 0 <= ms - TWO_32 < TWO_31
    ensures ArmingValue(ms, periodic) == ArmingValue(ms - TWO_32, periodic)
  {
    assert ToInt32(ms) == ms - TWO_32 == ToInt32(ms - TWO_32);
  }

  /**
   * A period of exactly 2^32 ms narrows to 0: the kernel accepts the
   * all-zero value, which leaves the descriptor disarmed.
   */
  lemma PeriodTwo32Disarms(periodic: bool)
    ensures ArmingValue(TWO_32, periodic) == ItimerSpec(ZERO, ZERO)
    ensures KernelAccepts(ArmingValue(TWO_32, periodic))
  {
    assert ToInt32(TWO_32) == 0;
  }

  /**
   * The initial expiration is all zero, which makes `timerfd_settime`
   * disarm the descriptor, exactly when the narrowed period is zero.
   */
  lemma ZeroValueIffZeroPeriod(ms: Int64, periodic: bool)
    ensures ArmingValue(ms, periodic).itValue == ZERO <==> ToInt32(ms) == 0
  {
    var ts := ToTimeSpec(ms);
    if ts == ZERO {
      assert TotalNanos(ts) == 0;
    }
  }

  /**
   * The armed value reloads (a non-zero `it_interval`) exactly when the
   * timer is periodic and its narrowed period is not zero.
   */
  lemma ReloadsIffPeriodic(ms: Int64, periodic: bool)
    ensures ArmingValue(ms, periodic).itInterval != ZERO <==> periodic && ToInt32(ms) != 0
  {
    ZeroValueIffZeroPeriod(ms, periodic);
  }

  /**
   * What `timerfd_settime` accepts: both members of the `itimerspec` are
   * normalised; any other value is rejected with EINVAL (timerfd_settime(2)).
   */
  predicate KernelAccepts(spec: ItimerSpec) {
    Normalized(spec.itValue) && Normalized(spec.itInterval)
  }

  /** The arguments Timer::Start gives `CreateTimerQueueTimer` after the callback pointers. */
  datatype QueueTimerRequest = QueueTimerRequest(dueTime: nat, period: nat, flags: nat)

  /**
   * Win32 Start: the timer is due at once (`DueTime` 0), repeats every
   * `static_cast<DWORD>(period)` milliseconds when periodic and never
   * otherwise (`Period` 0), with default flags.
   */
  function QueueTimerArgs(ms: Int64, periodic: bool): (req: QueueTimerRequest)
    ensures req.dueTime == 0 && req.flags == 0
    ensures req.period < TWO_32
    ensures !periodic ==> req.period == 0
    ensures periodic ==> (req.period - ms) % TWO_32 == 0
    ensures periodic && 0 <= ms < TWO_32 ==> req.period == ms
  {
    var period := if periodic then ToDword(ms) else 0;
    QueueTimerRequest(0, period, 0)
  }
}
