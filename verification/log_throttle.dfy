/** The per-page throttle on recovery error logging. Each of the two
    counters allows `threshold` detailed lines and is meant to follow them
    with one "will not print errors again" line and then silence. */
module LogThrottle {

  /** The cap on detailed lines per page and counter. */
  const MaxErrorCountThreshold: int := 15

  /** Java's `int` division by two, which truncates toward zero. */
  function JavaHalf(a: int): (r: int)
    ensures -1 <= a - 2 * r <= 1
    ensures (a - 2 * r) * a >= 0
  {
    if a >= 0 then a / 2 else -((-a) / 2)
  }

  /** The threshold set when recovery is first initialised: half the fetch
      page size, but at most 15. */
  function LogThreshold(fetchPageSize: int): (r: int)
    ensures r <= MaxErrorCountThreshold && r <= JavaHalf(fetchPageSize)
    ensures r == MaxErrorCountThreshold || r == JavaHalf(fetchPageSize)
    ensures fetchPageSize >= 0 ==> r >= 0
  {
    if JavaHalf(fetchPageSize) > MaxErrorCountThreshold then MaxErrorCountThreshold else JavaHalf(fetchPageSize)
  }

  /** What one throttled report prints. */
  datatype Printed = Detail | Suppressed | Silent

  /** A report's effect: the counter afterwards and what was printed. */
  datatype Throttled = Throttled(count: int, printed: Printed)

  /** The branch as written: below the threshold a detailed line is printed
      and the counter moves up; at the threshold the "will not print errors
      again" line is printed but the counter stays, so the next report at
      the threshold prints it again. */
  function ThrottleAsWritten(count: int, threshold: int): (r: Throttled)
    ensures count < threshold ==> r == Throttled(count + 1, Detail)
    ensures count == threshold ==> r == Throttled(count, Suppressed)
    ensures count > threshold ==> r == Throttled(count, Silent)
  {
    if count < threshold then Throttled(count + 1, Detail)
    else if count == threshold then Throttled(count, Suppressed)
    else Throttled(count, Silent)
  }

  /** The branch as intended: the "will not print errors again" line also
      moves the counter past the threshold, so it is printed once. */
  function Throttle(count: int, threshold: int): (r: Throttled)
    ensures r.printed != Silent <==> count <= threshold
    ensures r.printed == Suppressed <==> count == threshold
    ensures r.count == (if count <= threshold then count + 1 else count)
  {
    if count < threshold then Throttled(count + 1, Detail)
    else if count == threshold then Throttled(count + 1, Suppressed)
    else Throttled(count, Silent)
  }

  /** Which branch a recovery page runs: the one as written, or the one as
      intended. */
  datatype Logging = AsWritten | Intended

  /** One report through the chosen branch. */
  function Report(logging: Logging, count: int, threshold: int): Throttled {
    match logging
    case AsWritten => ThrottleAsWritten(count, threshold)
    case Intended => Throttle(count, threshold)
  }

  /** The most lines one counter may print in a page. */
  function Cap(threshold: int): (c: nat)
    ensures threshold >= 0 ==> c == threshold + 1
    ensures threshold < 0 ==> c == 0
  {
    if threshold < 0 then 0 else threshold + 1
  }

  /** Lines printed by n reports in a row, starting from `count`. */
  function LinesAsWritten(count: int, threshold: int, n: nat): nat
    decreases n
  {
    if n == 0 then 0
    else
      var t := ThrottleAsWritten(count, threshold);
      (if t.printed == Silent then 0 else 1) + LinesAsWritten(t.count, threshold, n - 1)
  }

  /** The same with the intended throttle. */
  function Lines(count: int, threshold: int, n: nat): nat
    decreases n
  {
    if n == 0 then 0
    else
      var t := Throttle(count, threshold);
      (if t.printed == Silent then 0 else 1) + Lines(t.count, threshold, n - 1)
  }

  /** As written, a threshold of 1 (a fetch page size of 2 or 3) and three
      reports in one page print three lines, one more than the cap of two:
      the "will not print errors again" line comes twice. */
  lemma AsWrittenRepeatsSuppressedLine()
    ensures LogThreshold(2) == 1 && LogThreshold(3) == 1
    ensures LinesAsWritten(0, 1, 3) == 3 > Cap(1)
    ensures ThrottleAsWritten(1, 1).printed == Suppressed
    ensures ThrottleAsWritten(ThrottleAsWritten(1, 1).count, 1).printed == Suppressed
  {
  }

  /** As written, every report from a non-negative threshold on prints a
      line: the number of lines equals the number of reports. */
  lemma {:induction false} AsWrittenNeverFallsSilent(count: int, threshold: int, n: nat)
    requires 0 <= count <= threshold
    ensures LinesAsWritten(count, threshold, n) == n
    decreases n
  {
    if n > 0 {
      AsWrittenNeverFallsSilent(ThrottleAsWritten(count, threshold).count, threshold, n - 1);
    }
  }

  /** With the intended throttle, a page prints at most Cap(threshold) lines
      per counter, however many reports it makes. */
  lemma {:induction false} LinesBounded(count: int, threshold: int, n: nat)
    requires 0 <= count
    ensures count <= Cap(threshold) ==> Lines(count, threshold, n) <= Cap(threshold) - count
    ensures count > Cap(threshold) ==> Lines(count, threshold, n) == 0
    decreases n
  {
    if n > 0 {
      LinesBounded(Throttle(count, threshold).count, threshold, n - 1);
    }
  }
}
