/** The nanosecond stopwatch: its four fields, the operations that update them
    in place, the elapsed-time query and the human-readable renderings.
    Every reading of the monotonic clock is a `now` parameter. */
module StopWatches {
  import opened JavaLang

  /** NANOS_IN_SECOND. */
  const NanosInSecond: int := 1000 * 1000 * 1000

  /** The unit getReadableTime reports a duration in. */
  datatype Unit = Nanos | Micros | Millis | Seconds

  /** Nanoseconds in one of the unit. */
  function NanosPer(u: Unit): int {
    match u
    case Nanos => 1
    case Micros => 1000
    case Millis => 1000 * 1000
    case Seconds => NanosInSecond
  }

  /** The text written after the number. */
  function Suffix(u: Unit): string {
    match u
    case Nanos => " ns"
    case Micros => " us"
    case Millis => " ms"
    case Seconds => " s"
  }

  /** A duration as getReadableTime shows it: a whole count of one unit. */
  datatype Reading = Reading(count: int, unit: Unit)

  /** The unit getReadableTime picks for `ns` nanoseconds and the (truncated)
      count of it. Each threshold is 50 of the next coarser unit, so every
      count shown in a coarser unit is at least 50 and every count shown
      below seconds is under 50,000. */
  function Scale(ns: int): (r: Reading)
    ensures r.unit == Nanos <==> ns < 50_000
    ensures r.unit == Micros <==> 50_000 <= ns < 50_000_000
    ensures r.unit == Millis <==> 50_000_000 <= ns < 50_000_000_000
    ensures r.unit == Seconds <==> 50_000_000_000 <= ns
    ensures r.unit == Nanos ==> r.count == ns
    ensures r.unit != Nanos ==> r.count * NanosPer(r.unit) <= ns < (r.count + 1) * NanosPer(r.unit)
    ensures r.unit != Nanos ==> 50 <= r.count
    ensures r.unit != Seconds ==> r.count < 50_000
  {
    if ns < 50_000 then Reading(ns, Nanos)
    else if ns < 50_000_000 then Reading(Div(ns, 1000), Micros)
    else if ns < 50_000_000_000 then Reading(Div(ns, 1000 * 1000), Millis)
    else Reading(Div(ns, NanosInSecond), Seconds)
  }

  /** getReadableTime, given the elapsed nanoseconds it reads: the count
      Scale chose followed by its unit suffix (ReadableTimeRoundTrip shows it
      reads back as exactly that count and unit). */
  function ReadableTime(ns: int): string {
    var r := Scale(ns);
    LongToString(r.count) + Suffix(r.unit)
  }

  predicate HasSuffix(s: string, t: string) {
    |t| <= |s| && s[|s| - |t|..] == t
  }

  function ParseWithUnit(s: string, u: Unit): Option<Reading>
    requires HasSuffix(s, Suffix(u))
  {
    match ParseLong(s[..|s| - |Suffix(u)|])
    case None => None
    case Some(n) => Some(Reading(n, u))
  }

  /** Reads a rendered duration back into its count and unit. */
  function ParseReadable(s: string): Option<Reading> {
    if HasSuffix(s, Suffix(Nanos)) then ParseWithUnit(s, Nanos)
    else if HasSuffix(s, Suffix(Micros)) then ParseWithUnit(s, Micros)
    else if HasSuffix(s, Suffix(Millis)) then ParseWithUnit(s, Millis)
    else if HasSuffix(s, Suffix(Seconds)) then ParseWithUnit(s, Seconds)
    else None
  }

  /** The rendering is unambiguous: it reads back as exactly the count and
      unit Scale chose. */
  lemma ReadableTimeRoundTrip(ns: int)
    ensures ParseReadable(ReadableTime(ns)) == Some(Scale(ns))
  {
    var r := Scale(ns);
    var d := LongToString(r.count);
    var t := Suffix(r.unit);
    var s := d + t;
    assert s[|s| - |t|..] == t;
    assert s[..|s| - |t|] == d;
    LongToStringRoundTrip(r.count);
    // The character before the unit letters tells the suffixes apart.
    assert s[|s| - 2] == t[|t| - 2];
    assert |s| >= 3;
    assert r.unit == Seconds ==> s[|s| - 3] != ' ' && s[|s| - 2] == ' ';
  }

  /** At the nanosecond/microsecond threshold the unit changes: 49,999 ns
      is still shown in nanoseconds, 50,000 ns in microseconds. */
  lemma MicrosThreshold()
    ensures ReadableTime(49_999) == "49999 ns"
    ensures ReadableTime(50_000) == "50 us"
  {
    assert Scale(50_000) == Reading(50, Micros);
    assert NatToDigits(49_999) == "49999" by {
      assert NatToDigits(4) == "4";
      assert NatToDigits(49) == "49";
      assert NatToDigits(499) == "499";
      assert NatToDigits(4999) == "4999";
    }
    assert NatToDigits(50) == "50" by {
      assert NatToDigits(5) == "5";
    }
  }

  /** The same boundary one unit up: 49,999,999 ns is shown in microseconds,
      50,000,000 ns in milliseconds. */
  lemma MillisThreshold()
    ensures ReadableTime(49_999_999) == "49999 us"
    ensures ReadableTime(50_000_000) == "50 ms"
  {
    assert Scale(49_999_999) == Reading(49_999, Micros);
    assert Scale(50_000_000) == Reading(50, Millis);
    assert NatToDigits(49_999) == "49999" by {
      assert NatToDigits(4) == "4";
      assert NatToDigits(49) == "49";
      assert NatToDigits(499) == "499";
      assert NatToDigits(4999) == "4999";
    }
    assert NatToDigits(50) == "50" by {
      assert NatToDigits(5) == "5";
    }
  }

  /** And at the top: 49,999,999,999 ns is shown in milliseconds,
      50,000,000,000 ns in seconds. */
  lemma SecondsThreshold()
    ensures ReadableTime(49_999_999_999) == "49999 ms"
    ensures ReadableTime(50_000_000_000) == "50 s"
  {
    assert Scale(49_999_999_999) == Reading(49_999, Millis);
    assert Scale(50_000_000_000) == Reading(50, Seconds);
    assert NatToDigits(49_999) == "49999" by {
      assert NatToDigits(4) == "4";
      assert NatToDigits(49) == "49";
      assert NatToDigits(499) == "499";
      assert NatToDigits(4999) == "4999";
    }
    assert NatToDigits(50) == "50" by {
      assert NatToDigits(5) == "5";
    }
  }

  /** `iterations * NANOS_IN_SECOND`: an `int` times a `long`, evaluated as a
      `long`, which it always fits. */
  function RateNumerator(iterations: Int32): (p: int)
    ensures MinLong <= p <= MaxLong
    ensures p / NanosInSecond == iterations
  {
    iterations * NanosInSecond
  }

  /** The iterations-per-second figure of toString(int): a `long` division
      that throws when no time has elapsed. */
  function IterationsPerSecond(iterations: Int32, ns: int): (r: Result<int>)
    ensures r.Err? <==> ns == 0
    ensures r.Ok? ==> MinLong <= r.value <= MaxLong
    ensures r.Ok? ==> Abs(RateNumerator(iterations) - r.value * ns) < Abs(ns)
    ensures r.Ok? ==> var rem := RateNumerator(iterations) - r.value * ns;
                      rem == 0 || (rem < 0 <==> RateNumerator(iterations) < 0)
    ensures r.Ok? && iterations >= 0 && ns > 0 ==> r.value >= 0
  {
    if ns == 0 then Err(ArithmeticException)
    else
      var p := RateNumerator(iterations);
      var q := Div(p, ns);
      assert Abs(q) <= Abs(p) <= MaxLong;
      Ok(q)
  }

  /** The rate in the documented example of toString(int) (1000 iterations in
      14.52 s), and 1000 iterations in exactly one second. */
  lemma DocumentedRate()
    ensures IterationsPerSecond(1000, 14_520_000_000) == Ok(68)
    ensures IterationsPerSecond(1000, 1_000_000_000) == Ok(1000)
  {
    assert RateNumerator(1000) == 1_000_000_000_000;
    assert Div(1_000_000_000_000, 14_520_000_000) == 68;
    assert Div(1_000_000_000_000, 1_000_000_000) == 1000;
  }

  /** The message as toString() appends it: directly, or nothing when null. */
  function MessageTail(message: JString): string {
    match message
    case None => ""
    case Some(m) => m
  }

  class StopWatch {
    var startNanos: int
    var stopNanos: int
    var tag: JString
    var message: JString

    /** Stores the tag and message and starts the watch at clock reading `now`;
        the stop timestamp keeps its default 0. */
    constructor (tag: JString, message: JString, now: int)
      ensures this.tag == tag && this.message == message
      ensures startNanos == now && stopNanos == 0
    {
      this.tag := tag;
      this.message := message;
      startNanos := 0;
      stopNanos := 0;
      new;
      var _ := Start(now);
    }

    /** Restarts at clock reading `now`. A previous stop is not cleared. */
    method Start(now: int) returns (self: StopWatch)
      modifies this`startNanos
      ensures self == this
      ensures startNanos == now
      ensures stopNanos == old(stopNanos) && tag == old(tag) && message == old(message)
    {
      startNanos := now;
      self := this;
    }

    method InternalStop(now: int)
      modifies this`stopNanos
      ensures stopNanos == now
      ensures startNanos == old(startNanos) && tag == old(tag) && message == old(message)
    {
      stopNanos := now;
    }

    /** Records the stop timestamp; stopping again overwrites it. */
    method Stop(now: int) returns (self: StopWatch)
      modifies this`stopNanos
      ensures self == this
      ensures stopNanos == now
      ensures startNanos == old(startNanos) && tag == old(tag) && message == old(message)
    {
      InternalStop(now);
      self := this;
    }

    /** stop(String tag). */
    method StopWithTag(tag: JString, now: int) returns (self: StopWatch)
      modifies this`tag, this`stopNanos
      ensures self == this
      ensures this.tag == tag && stopNanos == now
      ensures startNanos == old(startNanos) && message == old(message)
    {
      this.tag := tag;
      var _ := Stop(now);
      self := this;
    }

    /** stop(String tag, String message). */
    method StopWithTagAndMessage(tag: JString, message: JString, now: int) returns (self: StopWatch)
      modifies this`tag, this`message, this`stopNanos
      ensures self == this
      ensures this.tag == tag && this.message == message && stopNanos == now
      ensures startNanos == old(startNanos)
    {
      this.tag := tag;
      this.message := message;
      var _ := Stop(now);
      self := this;
    }

    /** Stops at `stopNow` and immediately restarts at `startNow`. The watch
        then reports the (non-positive, on a monotonic clock) difference
        `stopNow - startNow` until it is stopped again, unless the stop was
        taken at clock reading 0. */
    method Lap(stopNow: int, startNow: int) returns (self: StopWatch)
      modifies this`startNanos, this`stopNanos
      ensures self == this
      ensures stopNanos == stopNow && startNanos == startNow
      ensures tag == old(tag) && message == old(message)
      ensures stopNow != 0 ==> forall now :: GetTimeNanos(now) == stopNow - startNow
    {
      var _ := Stop(stopNow);
      var _ := Start(startNow);
      self := this;
    }

    method GetMessage() returns (m: JString)
      ensures m == message
    {
      m := message;
    }

    method GetTag() returns (t: JString)
      ensures t == tag
    {
      t := tag;
    }

    /** getTimeNanos: a stop timestamp of 0 means "not stopped". */
    function GetTimeNanos(now: int): int
      reads this
    {
      if stopNanos != 0 then stopNanos - startNanos else now - startNanos
    }

    /** toString(): the tag, ": ", the readable time, then the message (if
        any) with no separator in between. The middle part reads back as the
        scaled elapsed time. */
    function ToString(now: int): (s: string)
      reads this
      ensures var head := StringValueOf(tag) + ": ";
              var tail := MessageTail(message);
              |head| + |tail| <= |s| && s[..|head|] == head && s[|s| - |tail|..] == tail &&
              ParseReadable(s[|head|..|s| - |tail|]) == Some(Scale(GetTimeNanos(now)))
    {
      var head := StringValueOf(tag) + ": ";
      var middle := ReadableTime(GetTimeNanos(now));
      var tail := MessageTail(message);
      var s := head + middle + tail;
      assert s[|head|..|s| - |tail|] == middle;
      ReadableTimeRoundTrip(GetTimeNanos(now));
      s
    }

    /** toString(int iterations), built up piece by piece in a StringBuilder
        as zoom4j's toString(int) does. While the watch is running the clock is
        read twice: once for the readable time (`nowReadable`) and once for
        the divisor of the rate (`nowRate`); a stopped watch reads neither.
        When that divisor is 0 the division throws. */
    method ToStringWithRate(iterations: Int32, nowReadable: int, nowRate: int) returns (r: Result<string>)
      ensures r.Err? <==> GetTimeNanos(nowRate) == 0
      ensures r.Ok? ==> var rate := IterationsPerSecond(iterations, GetTimeNanos(nowRate));
                        rate.Ok? &&
                        r.value == StringValueOf(tag) + ": " + ReadableTime(GetTimeNanos(nowReadable))
                                   + (if message.Some? then " " + message.value else "")
                                   + " (" + LongToString(rate.value) + " iterations/second)"
      ensures r.Ok? && message.None? ==> r.value[..|ToString(nowReadable)|] == ToString(nowReadable)
    {
      var readable := ReadableTime(GetTimeNanos(nowReadable));
      var sb := StringValueOf(tag);
      sb := sb + ": ";
      sb := sb + readable;
      if message.Some? {
        sb := sb + " " + message.value;
      }
      var rate := IterationsPerSecond(iterations, GetTimeNanos(nowRate));
      if rate.Err? {
        return Err(rate.error);
      }
      ghost var prefix := sb;
      sb := sb + " (" + LongToString(rate.value) + " iterations/second)";
      assert sb[..|prefix|] == prefix;
      assert message.None? ==> prefix == ToString(nowReadable) by {
        if message.None? {
          assert prefix == StringValueOf(tag) + ": " + readable + MessageTail(message);
        }
      }
      r := Ok(sb);
    }

    /** A new, independent watch with the same tag, message and start, stopped
        where this one stopped or, if it is running, at clock reading `now`.
        zoom4j's freeze builds it with the constructor, which reads the clock once
        more for a start timestamp that is then overwritten; `now` stands for
        that reading too. This watch is not changed. */
    method Freeze(now: int) returns (sw: StopWatch)
      ensures fresh(sw)
      ensures sw.tag == tag && sw.message == message && sw.startNanos == startNanos
      ensures sw.stopNanos == if stopNanos != 0 then stopNanos else now
      ensures sw.stopNanos != 0 ==> forall t :: sw.GetTimeNanos(t) == GetTimeNanos(now)
    {
      sw := new StopWatch(tag, message, now);
      sw.startNanos := startNanos;
      sw.stopNanos := if stopNanos != 0 then stopNanos else now;
    }
  }

  /** A stopped watch reports a fixed duration whatever the clock says; a
      running one reports the time since its start, advancing exactly with
      the clock (so never decreasing on a monotonic clock). */
  lemma TimeNanosClockDependence(w: StopWatch, now1: int, now2: int)
    ensures w.stopNanos != 0 ==> w.GetTimeNanos(now1) == w.GetTimeNanos(now2) == w.stopNanos - w.startNanos
    ensures w.stopNanos == 0 ==> w.GetTimeNanos(now1) == now1 - w.startNanos
    ensures w.stopNanos == 0 ==> w.GetTimeNanos(now2) - w.GetTimeNanos(now1) == now2 - now1
    ensures w.stopNanos == 0 && now1 <= now2 ==> w.GetTimeNanos(now1) <= w.GetTimeNanos(now2)
  {
  }

  /** Once stopped, restarting leaves the old stop in place: the reported time
      is `stop - start` from then on, zero or negative when the restart is at
      or after the stop on a monotonic clock. */
  method RestartAfterStop(w: StopWatch, stopAt: int, restartAt: int) returns (ns: int)
    requires stopAt != 0 && stopAt <= restartAt
    modifies w
    ensures w.stopNanos == stopAt && w.startNanos == restartAt
    ensures forall now :: w.GetTimeNanos(now) == stopAt - restartAt
    ensures ns <= 0
  {
    var _ := w.Stop(stopAt);
    var _ := w.Start(restartAt);
    ns := w.GetTimeNanos(restartAt + 1_000_000);
  }

  /** A stop recorded at clock reading 0 cannot be told from no stop: the
      watch keeps reporting live time. */
  method StopAtZero(w: StopWatch, later: int) returns (ns: int)
    modifies w
    ensures w.stopNanos == 0
    ensures ns == later - w.startNanos
  {
    var _ := w.Stop(0);
    ns := w.GetTimeNanos(later);
  }

  /** A frozen copy and its original share no state. Lapping the original
      leaves both of the copy's timestamps where freezing put them
      (`copyStart`, `copyStop`, observed right after the lap); restarting
      the copy afterwards leaves the original's timestamps as the lap set
      them. */
  method FreezeIsIndependent(w: StopWatch, freezeAt: int, t1: int, t2: int, t3: int)
    returns (copy: StopWatch, copyStart: int, copyStop: int)
    modifies w
    ensures fresh(copy)
    ensures copyStart == old(w.startNanos)
    ensures copyStop == if old(w.stopNanos) != 0 then old(w.stopNanos) else freezeAt
    ensures copy.tag == w.tag && copy.message == w.message
    ensures copy.startNanos == t3 && copy.stopNanos == copyStop
    ensures w.stopNanos == t1 && w.startNanos == t2
  {
    copy := w.Freeze(freezeAt);
    var _ := w.Lap(t1, t2);
    copyStart, copyStop := copy.startNanos, copy.stopNanos;
    var _ := copy.Start(t3);
  }

  /** The example in the Javadoc of toString(int): 1000
      iterations stopped under tag "test" after 14.52 s render as
      "test: 14520 ms (68 iterations/second)". */
  method DocumentedRateExample() returns (r: Result<string>)
    ensures r == Ok("test: 14520 ms (68 iterations/second)")
  {
    var sw := new StopWatch(None, None, 1_000_000);
    var _ := sw.StopWithTag(Some("test"), 14_521_000_000);
    assert sw.GetTimeNanos(20_000_000_000) == 14_520_000_000;
    r := sw.ToStringWithRate(1000, 20_000_000_000, 20_000_000_000);
    DocumentedRate();
    DocumentedRateText();
  }

  lemma DocumentedRateText()
    ensures "test" + ": " + ReadableTime(14_520_000_000) + "" + " (" + LongToString(68) + " iterations/second)"
            == "test: 14520 ms (68 iterations/second)"
  {
    DocumentedReadableTime();
    assert LongToString(68) == "68" by {
      assert NatToDigits(6) == "6";
    }
  }

  lemma DocumentedReadableTime()
    ensures ReadableTime(14_520_000_000) == "14520 ms"
  {
    assert Scale(14_520_000_000) == Reading(14_520, Millis);
    assert NatToDigits(14_520) == "14520" by {
      assert NatToDigits(1) == "1";
      assert NatToDigits(14) == "14";
      assert NatToDigits(145) == "145";
      assert NatToDigits(1452) == "1452";
    }
  }

  /** The readable form of a 120 microsecond stopped watch without a message. */
  method ReadableExample() returns (s: string)
    ensures s == "db-query: 120 us"
  {
    var sw := new StopWatch(Some("db-query"), None, 5_000);
    var _ := sw.Stop(125_000);
    s := sw.ToString(1_000_000);
    assert sw.GetTimeNanos(1_000_000) == 120_000;
    ReadableTime120Micros();
  }

  lemma ReadableTime120Micros()
    ensures ReadableTime(120_000) == "120 us"
  {
    assert Scale(120_000) == Reading(120, Micros);
    assert NatToDigits(120) == "120" by {
      assert NatToDigits(1) == "1";
      assert NatToDigits(12) == "12";
    }
  }
}
