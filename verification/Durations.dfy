/** Converting RMW timeouts, a pair of unsigned 64-bit numbers, to DDS
    durations, whose seconds are signed 32-bit. */
module Durations {
  import opened Options

  const BILLION: nat := 1_000_000_000
  const MAX_INT32: nat := 0x7fff_ffff
  const WORD: nat := 0x1_0000_0000_0000_0000

  type UInt64 = n: nat | n < WORD

  datatype Time = Time(sec: UInt64, nsec: UInt64)
  datatype Duration = Duration(sec: nat, nanosec: nat)

  /** Section 2.3.3 of OMG DDS 1.4. */
  const INFINITE := Duration(MAX_INT32, MAX_INT32)

  /** The timeout that stands for waiting forever, the largest 64-bit signed
      number of nanoseconds. */
  const FOREVER := Time(9223372036, 854775807)

  function Nanoseconds(time: Time): nat {
    time.sec * BILLION + time.nsec
  }

  /** The duration is as long as the time, with less than a second of
      nanoseconds, and its seconds fit. */
  predicate Represents(duration: Duration, time: Time) {
    && duration.sec <= MAX_INT32 && duration.nanosec < BILLION
    && duration.sec * BILLION + duration.nanosec == Nanoseconds(time)
  }

  /** The times that some duration represents. */
  predicate Representable(time: Time) {
    Nanoseconds(time) < (MAX_INT32 + 1) * BILLION
  }

  lemma RepresentableIff(time: Time)
    ensures Representable(time) <==> exists duration :: Represents(duration, time)
    ensures Representable(time) <==> time.sec * 1_000_000_000 + time.nsec < 2147483648 * 1_000_000_000
  {
    if Representable(time) {
      assert Represents(Duration(Nanoseconds(time) / BILLION, Nanoseconds(time) % BILLION), time);
    }
  }

  lemma RepresentsOnce(a: Duration, b: Duration, time: Time)
    requires Represents(a, time) && Represents(b, time)
    ensures a == b
  {
  }

  /** to_dds_duration: no timeout means to wait forever. */
  method ToDdsDuration(timeout: Option<Time>) returns (duration: Option<Duration>)
    ensures timeout.None? ==> duration == Some(Duration(2147483647, 2147483647))
    ensures timeout.Some? ==>
              (duration.Some? <==> timeout.value.sec * 1_000_000_000 + timeout.value.nsec < 2147483648 * 1_000_000_000)
    ensures timeout.Some? && duration.Some? ==>
              && duration.value.nanosec < 1_000_000_000
              && duration.value.sec * 1_000_000_000 + duration.value.nanosec
                   == timeout.value.sec * 1_000_000_000 + timeout.value.nsec
  {
    if timeout.None? {
      return Some(INFINITE);
    }
    var extraSeconds := timeout.value.nsec / BILLION;
    if timeout.value.sec > WORD - 1 - extraSeconds {
      return None;
    }
    var seconds := timeout.value.sec + extraSeconds;
    if seconds > MAX_INT32 {
      return None;
    }
    return Some(Duration(seconds, timeout.value.nsec % BILLION));
  }

  /** The conversion of rmw_publisher_wait_for_all_acked, which gives FOREVER a
      meaning of its own. */
  method AcknowledgmentTimeout(timeout: Time) returns (duration: Option<Duration>)
    ensures timeout == Time(9223372036, 854775807) ==> duration == Some(Duration(2147483647, 2147483647))
    ensures timeout != FOREVER ==>
              (duration.Some? <==> timeout.sec * 1_000_000_000 + timeout.nsec < 2147483648 * 1_000_000_000)
    ensures timeout != FOREVER && duration.Some? ==>
              && duration.value.nanosec < 1_000_000_000
              && duration.value.sec * 1_000_000_000 + duration.value.nanosec
                   == timeout.sec * 1_000_000_000 + timeout.nsec
  {
    if timeout.sec == 9223372036 && timeout.nsec == 854775807 {
      return Some(INFINITE);
    }
    var extraSeconds := timeout.nsec / BILLION;
    if timeout.sec > MAX_INT32 || extraSeconds > MAX_INT32 - timeout.sec {
      return None;
    }
    return Some(Duration(timeout.sec + extraSeconds, timeout.nsec % BILLION));
  }

  /** The two conversions disagree on FOREVER: it is out of range for a wait, and
      a wait that is given no timeout uses INFINITE, which represents no time. */
  lemma ForeverIsOutOfRange()
    ensures !Representable(FOREVER)
    ensures forall time :: !Represents(INFINITE, time)
  {
  }
}
