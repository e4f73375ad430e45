/** Game clocks: a fixed budget for each move, counted from the receipt of the previous
    one.  Times and durations are in nanoseconds. */
module Clock {
  import opened Wrappers

  const MILLISECOND := 1_000_000
  const SECOND := 1_000_000_000

  datatype Kind = PerMove | Fischer | Correspondence | Missing | Unknown(name: string)
  datatype TimeControl = TimeControl(kind: Kind, perMoveSeconds: int)
  datatype Error = Invalid | NotImplemented

  /** The value a 64-bit signed register holds. */
  function Int64(x: int): (r: int)
    ensures -0x8000_0000_0000_0000 <= r < 0x8000_0000_0000_0000
    ensures -0x8000_0000_0000_0000 <= x < 0x8000_0000_0000_0000 ==> r == x
    ensures x >= 0 ==> r <= x
  {
    var m := x % 0x1_0000_0000_0000_0000;
    if m < 0x8000_0000_0000_0000 then m else m - 0x1_0000_0000_0000_0000
  }

  /** Seconds as a 64-bit count of nanoseconds, in numerals. */
  function Nanoseconds(seconds: int): int {
    (seconds * 1_000_000_000 + 0x8000_0000_0000_0000) % 0x1_0000_0000_0000_0000 - 0x8000_0000_0000_0000
  }

  lemma RemainderIs(x: int, q: int, r: int)
    requires x == q * 0x1_0000_0000_0000_0000 + r && 0 <= r < 0x1_0000_0000_0000_0000
    ensures x % 0x1_0000_0000_0000_0000 == r
  {
  }

  /** That is what the product of a duration and the second gives. */
  lemma ProductIsNanoseconds(seconds: int)
    ensures Int64(seconds * SECOND) == Nanoseconds(seconds)
  {
    var x := seconds * 1_000_000_000;
    var q, m := x / 0x1_0000_0000_0000_0000, x % 0x1_0000_0000_0000_0000;
    if m < 0x8000_0000_0000_0000 {
      RemainderIs(x + 0x8000_0000_0000_0000, q, m + 0x8000_0000_0000_0000);
    } else {
      RemainderIs(x + 0x8000_0000_0000_0000, q + 1, m - 0x8000_0000_0000_0000);
    }
  }

  /** The count is right for up to 292 years; one second more, and it lies centuries back. */
  lemma NanosecondsExact(seconds: int)
    ensures 0 <= seconds <= 9_223_372_036 ==> Nanoseconds(seconds) == seconds * 1_000_000_000
    ensures Nanoseconds(9_223_372_037) < -9_223_372_036 * 1_000_000_000
  {
  }

  /** The budget as a Go duration: the product of seconds is a 64-bit one. */
  function Budget(tc: TimeControl): Result<int, Error> {
    match tc.kind
    case PerMove => if tc.perMoveSeconds <= 0 then Err(Invalid) else Ok(Int64(tc.perMoveSeconds * SECOND))
    case Fischer => Err(NotImplemented)
    case Correspondence => Err(NotImplemented)
    case Missing => Err(Invalid)
    case Unknown(_) => Err(Invalid)
  }

  /** The deadline counts from the previous receipt; the zero time has none. */
  function DeadlineFor(tc: TimeControl, last: Option<int>): Result<int, Error> {
    var budget :- Budget(tc);
    if last == None then Err(Invalid) else Ok(last.value + budget)
  }

  function RemainingMs(tc: TimeControl, last: Option<int>, now: int): Result<int, Error> {
    var deadline :- DeadlineFor(tc, last);
    if deadline < now then Ok(0) else Ok((deadline - now) / MILLISECOND)
  }

  /** The budget is the one asked for exactly up to 292 years; a longer one wraps. */
  lemma BudgetExact(tc: TimeControl)
    requires tc.kind == PerMove && tc.perMoveSeconds > 0
    ensures Budget(tc) == Ok(tc.perMoveSeconds * SECOND) <==> tc.perMoveSeconds <= 9_223_372_036
  {
  }

  /** What is left is the whole milliseconds before the deadline.  None are left from one
      millisecond before it, not from the deadline itself. */
  lemma RemainingMeans(tc: TimeControl, anchor: int, now: int)
    requires Budget(tc).Ok?
    ensures var left := RemainingMs(tc, Some(anchor), now); var deadline := DeadlineFor(tc, Some(anchor));
      left.Ok? && deadline.Ok? && left.value >= 0 &&
      (left.value == 0 <==> now > deadline.value - MILLISECOND) &&
      (left.value > 0 ==> 0 <= deadline.value - now - left.value * MILLISECOND < MILLISECOND)
  {
  }

  /** The sweeper's query: the anchor plus the seconds of the record, which do not wrap. */
  predicate PastDeadline(tc: TimeControl, anchor: Option<int>, now: int) {
    tc.kind == PerMove && anchor.Some? && anchor.value + tc.perMoveSeconds * SECOND <= now
  }

  /** Every game the sweeper selects has nothing left on its clock. */
  lemma PastDeadlineHasNothingLeft(tc: TimeControl, anchor: Option<int>, now: int)
    requires Budget(tc).Ok? && PastDeadline(tc, anchor, now)
    ensures RemainingMs(tc, anchor, now) == Ok(0)
  {
  }

  /** The converse fails from one millisecond before the deadline that the clock computes until
      the one the query computes: for a millisecond, or, if the budget wraps, for centuries. */
  lemma SweeperAgreesIff(tc: TimeControl, anchor: int, now: int)
    requires Budget(tc).Ok?
    ensures (PastDeadline(tc, Some(anchor), now) <==> RemainingMs(tc, Some(anchor), now) == Ok(0)) <==>
            !(anchor + Budget(tc).value - MILLISECOND < now < anchor + tc.perMoveSeconds * SECOND)
  {
    RemainingMeans(tc, anchor, now);
    if PastDeadline(tc, Some(anchor), now) { PastDeadlineHasNothingLeft(tc, Some(anchor), now); }
  }
}
