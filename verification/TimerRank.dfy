/**
  The times timers are ordered by: LocTimerDelegate::ranks and the future time that
  LocTimer::start builds (gps/utils/LocTimer.cpp).
  */
module TimerRank {
  import opened Basics
  import opened RankedTree

  const NANOS_PER_SECOND := 1_000_000_000

  datatype Time = Time(sec: int, nsec: int)

  predicate Normal(t: Time) {
    0 <= t.nsec < NANOS_PER_SECOND
  }

  /** A time since boot: non-negative, and below 2^31 seconds, which a boot clock reaches after 68 years. */
  type BootTime = t: Time | Normal(t) && 0 <= t.sec < 0x8000_0000 witness Time(0, 0)

  function Nanos(t: Time): int {
    t.sec * NANOS_PER_SECOND + t.nsec
  }

  /** How `a` ranks against `b`: positive when `a` comes sooner. */
  function RankTimes(a: Time, b: Time): int {
    var rank := ToInt32(b.sec - a.sec);
    if rank == 0 then ToInt32(b.nsec - a.nsec) else rank
  }

  /** While the seconds differ by less than 2^31, rank order is the order of total nanoseconds. */
  lemma RankIsTimeOrder(a: Time, b: Time)
    requires Normal(a) && Normal(b) && -0x8000_0000 <= b.sec - a.sec < 0x8000_0000
    ensures RankTimes(a, b) > 0 <==> Nanos(a) < Nanos(b)
    ensures RankTimes(a, b) == 0 <==> a == b
  {
    assert ToInt32(b.sec - a.sec) == b.sec - a.sec;
    assert ToInt32(b.nsec - a.nsec) == b.nsec - a.nsec;
  }

  /** The bound is exact: of two times up to 2^32 seconds apart, the sooner outranks the later if
      and only if the seconds differ by less than 2^31. Past that the truncated difference is negative. */
  lemma SoonerOutranksIff(a: Time, b: Time)
    requires Normal(a) && Normal(b) && Nanos(a) < Nanos(b) && b.sec - a.sec < 0x1_0000_0000
    ensures RankTimes(a, b) > 0 <==> b.sec - a.sec < 0x8000_0000
  {
    assert b.sec - a.sec >= 0;
    if b.sec - a.sec < 0x8000_0000 {
      RankIsTimeOrder(a, b);
    } else {
      assert ToInt32(b.sec - a.sec) == b.sec - a.sec - 0x1_0000_0000;
    }
  }

  /** The time start() computes from the clock and a delay in milliseconds. */
  function FutureTime(now: Time, ms: nat): Time {
    var sec := now.sec + ms / 1000;
    var nsec := now.nsec + (ms % 1000) * 1_000_000;
    if nsec >= NANOS_PER_SECOND
    then Time(sec + nsec / NANOS_PER_SECOND, nsec % NANOS_PER_SECOND)
    else Time(sec, nsec)
  }

  /** It is normalised and exactly that many milliseconds away. */
  lemma FutureTimeIsExact(now: Time, ms: nat)
    requires Normal(now)
    ensures Normal(FutureTime(now, ms))
    ensures Nanos(FutureTime(now, ms)) == Nanos(now) + ms * 1_000_000
  {
  }

  /** A LocTimerDelegate as the heap sees it: an identity and its unchanging time. */
  datatype Delegate = Delegate(id: nat, time: BootTime)

  function Ranks(a: Delegate, b: Delegate): int {
    RankTimes(a.time, b.time)
  }

  lemma RanksIsTimeOrder(a: Delegate, b: Delegate)
    ensures OutRanks(Ranks, a, b) <==> Nanos(a.time) < Nanos(b.time)
  {
    RankIsTimeOrder(a.time, b.time);
  }

  /** What the heap asks of ranks(), it gets. */
  lemma RanksIsRanking()
    ensures IsRanking(Ranks)
  {
    forall a, b ensures OutRanks(Ranks, a, b) <==> Nanos(a.time) < Nanos(b.time) {
      RanksIsTimeOrder(a, b);
    }
  }
}
