/** Record keys (TIDs): the process-local generator, the sortable text form, and
    the record addresses that end in it. */
module Tid {
  import opened Lex

  const SLOTS := 1024

  /** The value written for a position of the generator: microseconds above, the clock
      identifier, offset by the generator's own, below. */
  function Emit(clockId: nat, ordinal: int): int {
    ordinal - ordinal % SLOTS + (clockId + ordinal % SLOTS) % SLOTS
  }

  /** One generator.  Its position counts collision slots since the epoch. */
  class Generator {
    const clockId: nat
    var lastMicros: int
    var lastClockSeq: nat

    ghost predicate Valid()
      reads this
    {
      lastClockSeq < SLOTS
    }

    ghost function Ordinal(): int
      reads this
    {
      lastMicros * SLOTS + lastClockSeq
    }

    constructor (clockId: nat)
      ensures Valid() && Ordinal() == 0 && this.clockId == clockId
    {
      this.clockId := clockId;
      lastMicros, lastClockSeq := 0, 0;
    }

    method Next(now: int) returns (id: int)
      requires Valid()
      modifies this
      ensures Valid()
      ensures Ordinal() == After(old(Ordinal()), now)
      ensures id == Emit(clockId, Ordinal())
    {
      if now > lastMicros {
        lastMicros, lastClockSeq := now, 0;
      } else if lastClockSeq < SLOTS - 1 {
        lastClockSeq := lastClockSeq + 1;
      } else {
        lastMicros, lastClockSeq := lastMicros + 1, 0;
      }
      id := lastMicros * SLOTS + (clockId + lastClockSeq) % SLOTS;
    }
  }

  /** The position after one call: the reading's own microsecond, or the next slot. */
  function After(ordinal: int, now: int): int {
    if now * SLOTS > ordinal then now * SLOTS else ordinal + 1
  }

  /** What a run of calls hands out, given the clock readings. */
  function Emitted(clockId: nat, ordinal: int, readings: seq<int>): (ids: seq<int>)
    ensures |ids| == |readings|
    decreases |readings|
  {
    if readings == [] then []
    else
      var o := After(ordinal, readings[0]);
      [Emit(clockId, o)] + Emitted(clockId, o, readings[1..])
  }

  ghost predicate Ascending(s: seq<int>) {
    forall i, j :: 0 <= i < j < |s| ==> s[i] < s[j]
  }

  lemma EmitWithoutOffset(clockId: nat, ordinal: int)
    requires clockId % SLOTS == 0
    ensures Emit(clockId, ordinal) == ordinal
  {
  }

  lemma {:induction false} EmittedBounds(clockId: nat, ordinal: int, readings: seq<int>, latest: int, i: nat)
    requires clockId % SLOTS == 0 && i < |readings|
    requires forall k :: 0 <= k < |readings| ==> readings[k] <= latest
    ensures ordinal < Emitted(clockId, ordinal, readings)[i] <=
            (if latest * SLOTS > ordinal then latest * SLOTS else ordinal) + i + 1
    decreases |readings|
  {
    var o := After(ordinal, readings[0]);
    EmitWithoutOffset(clockId, o);
    assert readings[0] * SLOTS <= latest * SLOTS;
    if i > 0 { EmittedBounds(clockId, o, readings[1..], latest, i - 1); }
  }

  /** With the zero offset the identifiers are the positions themselves: they ascend for
      every sequence of readings, and outrun the clock by at most one slot a call. */
  lemma {:induction false} EmittedAscends(clockId: nat, ordinal: int, readings: seq<int>, latest: int)
    requires clockId % SLOTS == 0
    requires forall k :: 0 <= k < |readings| ==> readings[k] <= latest
    ensures Ascending(Emitted(clockId, ordinal, readings))
    ensures forall i :: 0 <= i < |readings| ==>
              ordinal < Emitted(clockId, ordinal, readings)[i] <=
              (if latest * SLOTS > ordinal then latest * SLOTS else ordinal) + i + 1
    decreases |readings|
  {
    forall i | 0 <= i < |readings|
      ensures ordinal < Emitted(clockId, ordinal, readings)[i] <=
              (if latest * SLOTS > ordinal then latest * SLOTS else ordinal) + i + 1
    {
      EmittedBounds(clockId, ordinal, readings, latest, i);
    }
    if readings != [] {
      var o := After(ordinal, readings[0]);
      EmittedAscends(clockId, o, readings[1..], latest);
      EmitWithoutOffset(clockId, o);
      assert Emitted(clockId, ordinal, readings) == [o] + Emitted(clockId, o, readings[1..]);
    }
  }

  lemma {:induction false} FrozenClock(clockId: nat, ordinal: int, readings: seq<int>, i: nat)
    requires forall k :: 0 <= k < |readings| ==> readings[k] * SLOTS <= ordinal
    requires i < |readings|
    ensures Emitted(clockId, ordinal, readings)[i] == Emit(clockId, ordinal + i + 1)
    decreases |readings|
  {
    if i > 0 {
      FrozenClock(clockId, ordinal + 1, readings[1..], i - 1);
    }
  }

  function Greatest(s: seq<int>): (m: int)
    ensures forall k :: 0 <= k < |s| ==> s[k] <= m
  {
    if s == [] then 0
    else
      var m := Greatest(s[1..]);
      assert forall k :: 1 <= k < |s| ==> s[k] == s[1..][k - 1];
      if s[0] > m then s[0] else m
  }

  lemma EmitInSecondMicrosecond(clockId: nat, slot: nat)
    requires slot < SLOTS
    ensures Emit(clockId, SLOTS + slot) ==
            SLOTS + (if clockId % SLOTS + slot < SLOTS then clockId % SLOTS + slot else clockId % SLOTS + slot - SLOTS)
  {
  }

  lemma OffsetWraps(clockId: nat)
    requires clockId % SLOTS != 0
    ensures !Ascending(Emitted(clockId, 0, [1] + seq(SLOTS, i => 1)))
  {
    var frozen := seq(SLOTS, i => 1);
    var wrap := SLOTS - clockId % SLOTS;
    var ids := Emitted(clockId, 0, [1] + frozen);
    assert ([1] + frozen)[1..] == frozen;
    assert ids == [Emit(clockId, SLOTS)] + Emitted(clockId, SLOTS, frozen);
    FrozenClock(clockId, SLOTS, frozen, wrap - 1);
    EmitInSecondMicrosecond(clockId, wrap);
    assert ids[wrap] == SLOTS;
    if wrap > 1 { FrozenClock(clockId, SLOTS, frozen, wrap - 2); }
    EmitInSecondMicrosecond(clockId, wrap - 1);
    assert ids[wrap - 1] == 2 * SLOTS - 1;
  }

  /** A new generator's identifiers ascend in every run exactly when its offset is zero, as
      the package generator's is: with another offset the slot number wraps inside a
      microsecond and the value falls. */
  lemma AscendsIffNoOffset(clockId: nat)
    ensures (forall readings: seq<int> :: Ascending(Emitted(clockId, 0, readings))) <==> clockId % SLOTS == 0
  {
    if clockId % SLOTS == 0 {
      forall readings: seq<int> ensures Ascending(Emitted(clockId, 0, readings)) {
        EmittedAscends(clockId, 0, readings, Greatest(readings));
      }
    } else {
      OffsetWraps(clockId);
    }
  }

  // ---- text form ---------------------------------------------------------

  const TID_LENGTH := 13

  function Symbol(d: int): char
    requires 0 <= d < 32
  {
    if d < 6 then ('2' as int + d) as char else ('a' as int + d - 6) as char
  }

  function Power32(n: nat): (p: int)
    ensures p > 0
  {
    if n == 0 then 1 else 32 * Power32(n - 1)
  }

  /** The value in base 32 over the sortable alphabet, most significant digit first. */
  function Text(v: nat, n: nat): (s: string)
    requires v < Power32(n)
    ensures |s| == n
  {
    if n == 0 then ""
    else Text(v / 32, n - 1) + [Symbol(v % 32)]
  }

  lemma {:induction false} LastDigit(x: seq<int>, y: seq<int>, c: int, d: int)
    requires |x| == |y|
    ensures Less(x + [c], y + [d]) <==> Less(x, y) || (x == y && c < d)
  {
    if x == [] {
    } else {
      assert (x + [c])[1..] == x[1..] + [c] && (y + [d])[1..] == y[1..] + [d];
      LastDigit(x[1..], y[1..], c, d);
      assert x == [x[0]] + x[1..] && y == [y[0]] + y[1..];
      assert (x == y) <==> (x[0] == y[0] && x[1..] == y[1..]);
    }
  }

  /** Texts of one length sort as the values they stand for. */
  lemma {:induction false} TextOrder(a: nat, b: nat, n: nat)
    requires a < Power32(n) && b < Power32(n)
    ensures StringLess(Text(a, n), Text(b, n)) <==> a < b
    ensures Text(a, n) == Text(b, n) <==> a == b
  {
    if n > 0 {
      TextOrder(a / 32, b / 32, n - 1);
      var x, y := Text(a / 32, n - 1), Text(b / 32, n - 1);
      var c, d := Symbol(a % 32), Symbol(b % 32);
      assert Codes(x + [c]) == Codes(x) + [c as int];
      assert Codes(y + [d]) == Codes(y) + [d as int];
      LastDigit(Codes(x), Codes(y), c as int, d as int);
      if Codes(x) == Codes(y) { CodesInjective(x, y); }
      assert c as int < d as int <==> a % 32 < b % 32;
      assert (x + [c])[..n - 1] == x && (y + [d])[..n - 1] == y;
      assert (x + [c])[n - 1] == c && (y + [d])[n - 1] == d;
    }
  }

  function GameUri(serviceDid: string, id: nat): string
    requires id < Power32(TID_LENGTH)
  {
    "at://" + serviceDid + "/bot.plays.bot.game/" + Text(id, TID_LENGTH)
  }

  /** Record addresses of one service sort as the identifiers they end in. */
  lemma UriOrder(serviceDid: string, a: nat, b: nat)
    requires a < Power32(TID_LENGTH) && b < Power32(TID_LENGTH)
    ensures StringLess(GameUri(serviceDid, a), GameUri(serviceDid, b)) <==> a < b
  {
    var p := "at://" + serviceDid + "/bot.plays.bot.game/";
    var x, y := Text(a, TID_LENGTH), Text(b, TID_LENGTH);
    assert Codes(p + x) == Codes(p) + Codes(x);
    assert Codes(p + y) == Codes(p) + Codes(y);
    CommonPrefix(Codes(p), Codes(x), Codes(y));
    TextOrder(a, b, TID_LENGTH);
  }
}
