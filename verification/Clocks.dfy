/** Normalised timespecs and what they refine: src/utils/clock.rs. */
module Clocks {
  import opened Wrappers

  const NANOS_PER_SEC: int := 1_000_000_000

  /** A Timespec, and likewise a Duration: whole seconds and the nanoseconds left over. */
  datatype Timespec = Timespec(sec: int, nsec: int)

  predicate Normal(t: Timespec) {
    t.sec >= 0 && 0 <= t.nsec < NANOS_PER_SEC
  }

  type Time = t: Timespec | Normal(t) witness Timespec(0, 0)

  const ZERO: Time := Timespec(0, 0)

  /** The number of nanoseconds meant. */
  function Nanos(t: Timespec): int { t.sec * NANOS_PER_SEC + t.nsec }

  function Cmp(self: Time, other: Time): Ordering {
    var sec := Compare(self.sec, other.sec);
    if sec == Equal then Compare(self.nsec, other.nsec) else sec
  }

  function CheckedSub(a: int, b: int): Option<int> {
    if a >= b then Some(a - b) else None
  }

  function SaturatingSubTimespec(lhs: Time, rhs: Time): Option<Time> {
    match CheckedSub(lhs.sec, rhs.sec)
    case None => None
    case Some(secs) =>
      if lhs.nsec >= rhs.nsec then Some(Timespec(secs, lhs.nsec - rhs.nsec))
      else match CheckedSub(secs, 1)
        case None => None
        case Some(subSecs) => Some(Timespec(subSecs, lhs.nsec + NANOS_PER_SEC - rhs.nsec))
  }

  function Elapsed(elapsed: Time, later: Time): Time {
    match SaturatingSubTimespec(later, elapsed)
    case Some(d) => d
    case None => ZERO
  }

  function Add(self: Time, rhs: Time): Time {
    Timespec(self.sec + rhs.sec + (self.nsec + rhs.nsec) / NANOS_PER_SEC, (self.nsec + rhs.nsec) % NANOS_PER_SEC)
  }

  /** `Duration / 2`. */
  function Half(self: Time): Time {
    Timespec(self.sec / 2, self.nsec / 2 + (self.sec % 2 * NANOS_PER_SEC + self.nsec % 2) / 2)
  }

  /** Comparing normalised times is comparing nanoseconds. */
  lemma CmpRefines(a: Time, b: Time)
    ensures Cmp(a, b) == Compare(Nanos(a), Nanos(b))
  {
  }

  /** A normalised time is determined by its nanoseconds. */
  lemma NanosInjective(a: Time, b: Time)
    requires Nanos(a) == Nanos(b)
    ensures a == b
  {
    CmpRefines(a, b);
  }

  /** The borrowing subtraction is exact, and None exactly when the difference is negative. */
  lemma SubRefines(lhs: Time, rhs: Time)
    ensures match SaturatingSubTimespec(lhs, rhs)
            case Some(d) => Nanos(d) == Nanos(lhs) - Nanos(rhs)
            case None => Nanos(lhs) < Nanos(rhs)
  {
  }

  lemma ElapsedRefines(a: Time, later: Time)
    ensures Nanos(Elapsed(a, later)) == if Nanos(later) >= Nanos(a) then Nanos(later) - Nanos(a) else 0
  {
    SubRefines(later, a);
  }

  /** The carrying addition is exact. */
  lemma AddRefines(a: Time, b: Time)
    ensures Nanos(Add(a, b)) == Nanos(a) + Nanos(b)
  {
  }

  lemma HalfRefines(d: Time)
    ensures Nanos(Half(d)) == Nanos(d) / 2
  {
  }

  /** Adding the elapsed time to the earlier time gives the later one back. */
  lemma AddElapsed(a: Time, later: Time)
    requires Cmp(a, later) != Greater
    ensures Add(a, Elapsed(a, later)) == later
  {
    CmpRefines(a, later);
    ElapsedRefines(a, later);
    AddRefines(a, Elapsed(a, later));
    NanosInjective(Add(a, Elapsed(a, later)), later);
  }
}
