# zoom4j stopwatch and log enable flag, modelled in Dafny

zoom4j measures how long a section of code takes. A `StopWatch` keeps a
start and a stop timestamp in nanoseconds, a tag and an optional message.
`start`, `stop` and its tagged overloads, and `lap` update those fields in
place. `getTimeNanos` reports the elapsed time: stop minus start once
stopped, clock minus start while running. A stop timestamp of 0 means
"not stopped". `toString()` and `toString(int)` render the elapsed time in
ns, us, ms or s, the latter with an iterations-per-second figure. `freeze`
makes an independent stopped copy. The abstract `Log` base class holds an
enable flag that `setEnable` sets from a string: only the exact literal
`"false"` disables.

The project has three modules:

- `JavaLang` (`java_lang.dfy`): the Java semantics the code relies on.
  Nullable strings are `Option<string>`, and `null` is concatenated as
  `"null"`. `long` division truncates toward zero (`Div`). `Long.toString`
  is `LongToString`, and its inverse `ParseLong` shows that the rendering
  loses nothing.
- `StopWatches` (`stopwatch.dfy`): the class `StopWatch`, with one method
  per mutating operation. It also holds the pure rendering functions
  (`Scale`, `ReadableTime`, `IterationsPerSecond`) and their inverse
  `ParseReadable`, plus client methods that exercise the documented
  behaviour and the quirks.
- `Logs` (`log.dfy`): the class `Log` with its one boolean field, and
  `ParseEnable`, the exact-match rule that `setEnable` applies.

Each read of `System.nanoTime()` is an explicit `now: int` parameter. No
ordering between readings is assumed unless a member says so.
`toString(int)` reads the clock up to twice, and only while the watch is
running: once inside `getReadableTime` and once for the divisor. It
therefore takes two readings, `nowReadable` and `nowRate`, which a stopped
watch ignores. `freeze` reads the clock in the constructor, and that start value
is overwritten at once. It may read the clock again for the stop timestamp.
Both reads are modelled by the single `now` parameter.

Behaviour modelled as the code has it:

- `start()` never clears the stop timestamp. After a stop, a later `start`
  or `lap` leaves the watch reporting `stop - start`, which can be zero or
  negative (`StopWatches.RestartAfterStop`).
- A stop taken at clock reading 0 cannot be told apart from "never
  stopped" (`StopWatches.StopAtZero`). By the same rule, freezing a
  running watch at clock reading 0 gives a copy that is still running.
- `toString()` appends the message with no separator. `toString(int)`
  puts a space before it.
- `toString(int)` throws `ArithmeticException` when the elapsed time is 0.
  The model returns `Err(ArithmeticException)` in that case.
- A `null` tag is rendered as `"null"`, as Java string concatenation and
  `StringBuilder.append` do.

## Model

| member | source | states |
|---|---|---|
| `StopWatches.StopWatch.constructor` | src/main/java/com/ecyrd/zoom4j/StopWatch.java:22-27 | stores the given tag and message, starts at the clock reading, and leaves the stop timestamp at 0 |
| `StopWatches.StopWatch.Start` | src/main/java/com/ecyrd/zoom4j/StopWatch.java:29-34 | sets only the start timestamp; the stop timestamp, tag and message are unchanged, so a previous stop is not cleared; returns the same watch |
| `StopWatches.StopWatch.InternalStop` | src/main/java/com/ecyrd/zoom4j/StopWatch.java:36-39 | sets only the stop timestamp to the clock reading |
| `StopWatches.StopWatch.Stop` | src/main/java/com/ecyrd/zoom4j/StopWatch.java:41-46 | sets only the stop timestamp, overwriting an earlier stop; start, tag and message unchanged; returns the same watch |
| `StopWatches.StopWatch.StopWithTag` | src/main/java/com/ecyrd/zoom4j/StopWatch.java:48-54 | replaces the tag and sets the stop timestamp; start and message unchanged |
| `StopWatches.StopWatch.StopWithTagAndMessage` | src/main/java/com/ecyrd/zoom4j/StopWatch.java:56-63 | replaces tag and message and sets the stop timestamp; start unchanged |
| `StopWatches.StopWatch.Lap` | src/main/java/com/ecyrd/zoom4j/StopWatch.java:65-71 | stop at t1 then start at t2; afterwards the watch reports t1 - t2 at every clock reading (when t1 is not 0); tag and message unchanged |
| `StopWatches.StopWatch.GetMessage` | src/main/java/com/ecyrd/zoom4j/StopWatch.java:73-76 | returns the message field (possibly null) |
| `StopWatches.StopWatch.GetTag` | src/main/java/com/ecyrd/zoom4j/StopWatch.java:78-81 | returns the tag field (possibly null) |
| `StopWatches.TimeNanosClockDependence` | src/main/java/com/ecyrd/zoom4j/StopWatch.java:88-94 | getTimeNanos (`StopWatch.GetTimeNanos`): a stopped watch reports stop - start whatever the clock reads; a running watch reports now - start, which advances exactly as the clock does and so never decreases on a monotonic clock |
| `StopWatches.StopAtZero` | src/main/java/com/ecyrd/zoom4j/StopWatch.java:90 | a stop recorded at clock reading 0 leaves the watch reporting live time, as if never stopped |
| `StopWatches.RestartAfterStop` | src/main/java/com/ecyrd/zoom4j/StopWatch.java:29-34 | after stop then start at a later reading, the watch reports the fixed value stop - start, which is at most 0 |
| `StopWatches.Scale` | src/main/java/com/ecyrd/zoom4j/StopWatch.java:144-158 | the unit is ns below 50,000, us below 50,000,000, ms below 50,000,000,000, else s; the count is the elapsed time in that unit, truncated; counts shown in us, ms or s are at least 50; counts shown below s are under 50,000 |
| `StopWatches.ReadableTimeRoundTrip` | src/main/java/com/ecyrd/zoom4j/StopWatch.java:144-158 | getReadableTime (`ReadableTime`): the rendered duration reads back as exactly the count and unit that Scale chose, so the rendering is unambiguous |
| `StopWatches.MicrosThreshold` | src/main/java/com/ecyrd/zoom4j/StopWatch.java:148-152 | 49,999 ns renders as "49999 ns" and 50,000 ns as "50 us" |
| `StopWatches.MillisThreshold` | src/main/java/com/ecyrd/zoom4j/StopWatch.java:151-155 | 49,999,999 ns renders as "49999 us" and 50,000,000 ns as "50 ms" |
| `StopWatches.SecondsThreshold` | src/main/java/com/ecyrd/zoom4j/StopWatch.java:154-157 | 49,999,999,999 ns renders as "49999 ms" and 50,000,000,000 ns as "50 s" |
| `JavaLang.Div` | src/main/java/com/ecyrd/zoom4j/StopWatch.java:134 | Java long division: the remainder is smaller than the divisor in magnitude and has the dividend's sign; the quotient is no larger than the dividend in magnitude and is non-negative when both operands have the same sign |
| `JavaLang.LongToStringRoundTrip` | src/main/java/com/ecyrd/zoom4j/StopWatch.java:149 | the decimal rendering of a long reads back as the same number |
| `JavaLang.LongToStringInjective` | src/main/java/com/ecyrd/zoom4j/StopWatch.java:149 | distinct longs render as distinct strings |
| `JavaLang.LongToString` | src/main/java/com/ecyrd/zoom4j/StopWatch.java:149 | the rendering is non-empty, made of decimal digits, and has a leading '-' exactly when the number is negative |
| `StopWatches.RateNumerator` | src/main/java/com/ecyrd/zoom4j/StopWatch.java:134 | iterations * NANOS_IN_SECOND fits in a long for every int iteration count, and dividing it by NANOS_IN_SECOND gives back the count |
| `StopWatches.IterationsPerSecond` | src/main/java/com/ecyrd/zoom4j/StopWatch.java:134 | throws ArithmeticException exactly when the elapsed time is 0; otherwise it is the quotient truncated toward zero (the remainder is smaller than the elapsed time in magnitude and is zero or has the sign of the dividend), it fits in a long, and it is non-negative for non-negative iterations over positive time |
| `StopWatches.DocumentedRate` | src/main/java/com/ecyrd/zoom4j/StopWatch.java:116-120 | 1000 iterations in 14.52 s give 68 iterations/second; 1000 in exactly one second give 1000 |
| `StopWatches.StopWatch.ToString` | src/main/java/com/ecyrd/zoom4j/StopWatch.java:100-103 | the result starts with the tag (or "null") and ": ", ends with the message (or nothing) with no separator, and its middle reads back as the scaled elapsed time |
| `StopWatches.ReadableExample` | src/main/java/com/ecyrd/zoom4j/StopWatch.java:100-103 | a watch tagged "db-query" with no message, stopped 120,000 ns after its start, renders as "db-query: 120 us" |
| `StopWatches.StopWatch.ToStringWithRate` | src/main/java/com/ecyrd/zoom4j/StopWatch.java:126-137 | fails with ArithmeticException exactly when the time read for the divisor is 0; otherwise the result is tag, ": ", the readable time, " " and the message when present, then " (" rate " iterations/second)"; without a message it extends toString() |
| `StopWatches.DocumentedRateExample` | src/main/java/com/ecyrd/zoom4j/StopWatch.java:110-120 | 1000 iterations stopped under tag "test" after 14.52 s render as "test: 14520 ms (68 iterations/second)" |
| `StopWatches.StopWatch.Freeze` | src/main/java/com/ecyrd/zoom4j/StopWatch.java:167-174 | returns a fresh watch with the same tag, message and start; its stop is the original's stop, or the clock reading if the original was running; when the copy's stop is non-zero (always, unless a running watch is frozen at clock reading 0), the copy reports the original's elapsed time at freeze time, whatever the clock; the original is unchanged |
| `StopWatches.FreezeIsIndependent` | src/main/java/com/ecyrd/zoom4j/StopWatch.java:169 | after a freeze, lapping the original leaves both of the copy's timestamps as freezing set them (observed right after the lap), and restarting the copy afterwards leaves the original's timestamps as the lap set them |
| `Logs.Log.constructor` | src/main/java/com/ecyrd/zoom4j/Log.java:9 | a new log is enabled |
| `Logs.ParseEnable` | src/main/java/com/ecyrd/zoom4j/Log.java:13-14 | a value disables exactly when it equals "false" |
| `Logs.ParseEnableExamples` | src/main/java/com/ecyrd/zoom4j/Log.java:13-14 | "False", "FALSE", "false ", "true", "" and "anything" all enable; only "false" disables (the match is exact and case-sensitive) |
| `Logs.Log.SetEnable` | src/main/java/com/ecyrd/zoom4j/Log.java:11-15 | the new flag is ParseEnable(value), whatever the previous flag was, so a repeated call is idempotent; the argument is a non-null string |
| `Logs.Log.IsEnabled` | src/main/java/com/ecyrd/zoom4j/Log.java:17-20 | returns the flag and changes nothing |
| `Logs.Log.Shutdown` | src/main/java/com/ecyrd/zoom4j/Log.java:28-31 | the base implementation leaves the flag unchanged |

## Left out

- The clock `System.nanoTime()` is not modelled. Every reading is a `now`
  parameter supplied by the caller.
- `StopWatches.StopWatch.GetTimeNanos`: timestamps are unbounded integers,
  so the 64-bit wrap-around of `stop - start` or `now - start` for extreme
  clock values is not modelled.
- `StopWatches.StopWatch.Freeze`: the extra clock reading taken by the
  constructor inside `freeze` is discarded by the code. It is represented
  by the same `now` as the stop reading.
- The initial tag value `"?"` is not modelled. The constructor always
  overwrites it, so no watch can be observed with it.
- `Serializable` and `serialVersionUID` are not modelled. They are JVM
  serialization plumbing.
- The abstract `Log.log(StopWatch)` is not modelled. Its behaviour is
  defined by concrete sinks, which are not part of this model. The same
  holds for resources that concrete sinks release in `shutdown`.
- The abstract class/subclass relationship of `Log` is not modelled. Dafny
  classes here are concrete, so `Logs.Log` stands for the base-class
  state that every sink inherits.
- Thread-safety is not modelled. The code has no synchronization, and the
  model is sequential.
