/** One greedy pass over one pool of seekers: the widening rating windows, who may meet whom,
    the choice of partners, and the seats. */
module Pairing {
  import opened Lex
  import Keys

  const PROVISIONAL_GAMES := 10
  const MILLISECOND := 1_000_000

  datatype Candidate = Candidate(
    seekId: string,
    did: string,
    rating: int,
    ratedGames: int,
    ratingWindow: int,
    maxConcurrent: int,
    activeGames: int,
    createdAt: int,
    operatorDid: string,
    lastSeat: string)

  /** Times and durations are in nanoseconds. */
  datatype Params = Params(
    now: int,
    widen: int,
    widenInterval: int,
    windowCap: int,
    repeatCooldown: int,
    distinctOperators: bool,
    recentPairs: set<string>,
    firstSeat: string,
    secondSeat: string)

  datatype Paired = Paired(
    a: Candidate,
    b: Candidate,
    seatA: string,
    seatB: string,
    aPlaysFirst: bool,
    ratingGap: int,
    waitMs: int)

  function Abs(n: int): nat {
    if n < 0 then -n else n
  }

  function Min(a: int, b: int): int {
    if a < b then a else b
  }

  /** Division as Go rounds it, toward zero. */
  function Quotient(n: int, d: int): int
    requires d > 0
  {
    if n < 0 then -(-n / d) else n / d
  }

  // ---- windows -----------------------------------------------------------

  function EffectiveWindow(window: int, wait: int, widen: int, interval: int, cap: int): int {
    var widened := window + widen * Steps(wait, interval);
    var capped := if cap > 0 && widened > cap then cap else widened;
    if capped < 0 then 0 else capped
  }

  lemma StepsOfInterval(wait: int, interval: int, need: int)
    requires interval > 0
    ensures wait / interval >= need <==> wait >= interval * need
  {
    var q, r := wait / interval, wait % interval;
    assert wait == interval * q + r;
    if q >= need {
      assert interval * q >= interval * need;
    } else {
      assert interval * need >= interval * (q + 1);
    }
  }

  /** Whole intervals waited. */
  function Steps(wait: int, interval: int): nat {
    if interval > 0 && wait > 0 then wait / interval else 0
  }

  lemma StepsMonotone(wait: int, later: int, interval: int)
    requires wait <= later
    ensures Steps(wait, interval) <= Steps(later, interval)
  {
    if interval > 0 && wait > 0 {
      StepsOfInterval(later, interval, wait / interval);
      assert wait == interval * (wait / interval) + wait % interval;
    }
  }

  lemma ScaleMonotone(k: int, m: int, n: int)
    requires m <= n
    ensures (k >= 0 ==> k * m <= k * n) && (k <= 0 ==> k * m >= k * n)
  {
  }

  /** Waiting longer never narrows a window that widens, and never widens one that narrows. */
  lemma WindowMonotone(window: int, wait: int, later: int, widen: int, interval: int, cap: int)
    requires wait <= later
    ensures widen >= 0 ==>
      EffectiveWindow(window, wait, widen, interval, cap) <= EffectiveWindow(window, later, widen, interval, cap)
    ensures widen <= 0 ==>
      EffectiveWindow(window, wait, widen, interval, cap) >= EffectiveWindow(window, later, widen, interval, cap)
  {
    StepsMonotone(wait, later, interval);
    ScaleMonotone(widen, Steps(wait, interval), Steps(later, interval));
  }

  function CeilDiv(n: int, d: int): int
    requires d > 0
  {
    -((-n) / d)
  }

  /** The least number of steps of size d that make up n. */
  lemma CeilDivIsLeast(n: int, d: int, k: int)
    requires d > 0
    ensures d * k >= n <==> k >= CeilDiv(n, d)
  {
    var q, r := (-n) / d, (-n) % d;
    assert -n == d * q + r;
    if k >= -q {
      assert d * k >= d * (-q);
    } else {
      assert d * k <= d * (-q - 1);
    }
  }

  /** A window reaches a gap exactly when the cap allows it and the wait has been long enough. */
  lemma WindowReaches(window: int, wait: int, widen: int, interval: int, cap: int, gap: nat)
    requires widen > 0 && interval > 0
    ensures EffectiveWindow(window, wait, widen, interval, cap) >= gap <==>
            gap == 0 || ((cap <= 0 || gap <= cap) && (gap <= window || wait >= interval * CeilDiv(gap - window, widen)))
  {
    var need := CeilDiv(gap - window, widen);
    CeilDivIsLeast(gap - window, widen, 0);
    if wait > 0 {
      CeilDivIsLeast(gap - window, widen, wait / interval);
      StepsOfInterval(wait, interval, need);
    } else if gap > window {
      assert need >= 1;
      assert interval * need >= 1;
    }
  }

  // ---- who may meet whom -------------------------------------------------

  predicate Capped(c: Candidate) {
    c.maxConcurrent > 0 && c.activeGames >= c.maxConcurrent
  }

  function Uncapped(cands: seq<Candidate>): seq<Candidate> {
    if cands == [] then []
    else
      var c, rest := cands[|cands| - 1], Uncapped(cands[..|cands| - 1]);
      if Capped(c) then rest else rest + [c]
  }

  function Window(c: Candidate, p: Params): int {
    EffectiveWindow(c.ratingWindow, p.now - c.createdAt, p.widen, p.widenInterval, p.windowCap)
  }

  predicate Provisional(c: Candidate) {
    c.ratedGames < PROVISIONAL_GAMES
  }

  function Gap(a: Candidate, b: Candidate): nat {
    Abs(a.rating - b.rating)
  }

  /** A provisional rating on either side meets anyone. */
  predicate WithinWindows(a: Candidate, b: Candidate, p: Params) {
    Provisional(a) || Provisional(b) || Gap(a, b) <= Min(Window(a, p), Window(b, p))
  }

  predicate Compatible(a: Candidate, b: Candidate, cooldown: bool, p: Params) {
    && a.did != b.did
    && WithinWindows(a, b, p)
    && !(p.distinctOperators && a.operatorDid != "" && a.operatorDid == b.operatorDid)
    && !(cooldown && Keys.CooldownKey(a.did, b.did) in p.recentPairs)
  }

  lemma CompatibleIsSymmetric(a: Candidate, b: Candidate, cooldown: bool, p: Params)
    ensures Compatible(a, b, cooldown, p) <==> Compatible(b, a, cooldown, p)
  {
    Keys.CooldownKeyIsUnordered(a.did, b.did, a.did, b.did);
  }

  /** Two rated seekers at a gap the cap allows are within each other's windows exactly when
      both have waited long enough. */
  lemma RatedMeetAfterWaiting(a: Candidate, b: Candidate, p: Params)
    requires p.widen > 0 && p.widenInterval > 0 && !Provisional(a) && !Provisional(b)
    requires 0 < Gap(a, b) && (p.windowCap <= 0 || Gap(a, b) <= p.windowCap)
    ensures WithinWindows(a, b, p) <==>
            && (Gap(a, b) <= a.ratingWindow || p.now - a.createdAt >= p.widenInterval * CeilDiv(Gap(a, b) - a.ratingWindow, p.widen))
            && (Gap(a, b) <= b.ratingWindow || p.now - b.createdAt >= p.widenInterval * CeilDiv(Gap(a, b) - b.ratingWindow, p.widen))
  {
    WindowReaches(a.ratingWindow, p.now - a.createdAt, p.widen, p.widenInterval, p.windowCap, Gap(a, b));
    WindowReaches(b.ratingWindow, p.now - b.createdAt, p.widen, p.widenInterval, p.windowCap, Gap(a, b));
  }

  /** Once within each other's windows, two seekers stay so. */
  lemma WithinWindowsStays(a: Candidate, b: Candidate, p: Params, later: int)
    requires p.widen >= 0 && p.now <= later && WithinWindows(a, b, p)
    ensures WithinWindows(a, b, p.(now := later))
  {
    WindowMonotone(a.ratingWindow, p.now - a.createdAt, later - a.createdAt, p.widen, p.widenInterval, p.windowCap);
    WindowMonotone(b.ratingWindow, p.now - b.createdAt, later - b.createdAt, p.widen, p.widenInterval, p.windowCap);
  }

  // ---- order -------------------------------------------------------------

  /** Longest wait first; the DID breaks ties.  The wait is counted from `createdAt`. */
  predicate Before(a: Candidate, b: Candidate) {
    a.createdAt < b.createdAt || (a.createdAt == b.createdAt && StringLess(a.did, b.did))
  }

  /** As a partner for `a`, x is preferred to y: smaller gap, then `Before`. */
  predicate Better(a: Candidate, x: Candidate, y: Candidate) {
    Gap(a, x) < Gap(a, y) || (Gap(a, x) == Gap(a, y) && Before(x, y))
  }

  lemma StringOrder(a: string, b: string, c: string)
    ensures !StringLess(a, a)
    ensures StringLess(a, b) && !StringLess(c, b) ==> StringLess(a, c)
    ensures StringLess(a, b) ==> !StringLess(b, a)
  {
    StringTrichotomy(a, b);
    StringTrichotomy(b, c);
    StringTrichotomy(a, a);
    if StringLess(a, b) && StringLess(b, c) { Transitive(Codes(a), Codes(b), Codes(c)); }
  }

  /** `Before` and `Better` are weak orders. */
  lemma BeforeOrder(a: Candidate, b: Candidate, c: Candidate)
    ensures !Before(a, a)
    ensures Before(a, b) && !Before(c, b) ==> Before(a, c)
    ensures Before(a, b) ==> !Before(b, a)
  {
    StringOrder(a.did, b.did, c.did);
  }

  lemma BetterOrder(s: Candidate, a: Candidate, b: Candidate, c: Candidate)
    ensures !Better(s, a, a)
    ensures Better(s, a, b) && !Better(s, c, b) ==> Better(s, a, c)
    ensures Better(s, a, b) ==> !Better(s, b, a)
  {
    BeforeOrder(a, b, c);
  }

  // ---- the sort ----------------------------------------------------------

  /** The library's stable sort, as insertion from the right. */
  function Insert(s: seq<Candidate>, c: Candidate): seq<Candidate> {
    if s == [] || !Before(c, s[|s| - 1]) then s + [c] else Insert(s[..|s| - 1], c) + [s[|s| - 1]]
  }

  function ByWait(s: seq<Candidate>): seq<Candidate> {
    if s == [] then [] else Insert(ByWait(s[..|s| - 1]), s[|s| - 1])
  }

  predicate Sorted(s: seq<Candidate>) {
    forall i, j :: 0 <= i < j < |s| ==> !Before(s[j], s[i])
  }

  lemma {:induction false} InsertElements(s: seq<Candidate>, c: Candidate)
    ensures multiset(Insert(s, c)) == multiset(s) + multiset{c}
  {
    if s != [] && Before(c, s[|s| - 1]) {
      InsertElements(s[..|s| - 1], c);
      assert s == s[..|s| - 1] + [s[|s| - 1]];
    }
  }

  lemma {:induction false} InsertSorts(s: seq<Candidate>, c: Candidate)
    requires Sorted(s)
    ensures Sorted(Insert(s, c))
  {
    if s == [] {
    } else if !Before(c, s[|s| - 1]) {
      forall i | 0 <= i < |s| ensures !Before(c, s[i]) {
        BeforeOrder(c, s[i], s[|s| - 1]);
      }
    } else {
      var n := |s| - 1;
      var r := Insert(s[..n], c);
      InsertSorts(s[..n], c);
      InsertElements(s[..n], c);
      forall i | 0 <= i < |r| ensures !Before(s[n], r[i]) {
        assert r[i] in multiset(r);
        assert r[i] == c || r[i] in s[..n];
        BeforeOrder(c, s[n], s[n]);
      }
    }
  }

  /** Sorting permutes the seekers and puts longer waits first. */
  lemma {:induction false} ByWaitSorts(s: seq<Candidate>)
    ensures Sorted(ByWait(s)) && multiset(ByWait(s)) == multiset(s)
  {
    if s != [] {
      var n := |s| - 1;
      ByWaitSorts(s[..n]);
      InsertSorts(ByWait(s[..n]), s[n]);
      InsertElements(ByWait(s[..n]), s[n]);
      assert s == s[..n] + [s[n]];
    }
  }

  // ---- the greedy choice -------------------------------------------------

  /** A pick is the index of a seeker and of the partner chosen for it. */
  type Pick = (nat, nat)

  function Used(picks: seq<Pick>): set<nat> {
    if picks == [] then {} else Used(picks[..|picks| - 1]) + {picks[|picks| - 1].0, picks[|picks| - 1].1}
  }

  /** j is free to partner i. */
  predicate Open(pool: seq<Candidate>, used: set<nat>, cooldown: bool, p: Params, i: nat, j: nat) {
    i < |pool| && j < |pool| && i != j && i !in used && j !in used && Compatible(pool[i], pool[j], cooldown, p)
  }

  ghost predicate Lonely(pool: seq<Candidate>, used: set<nat>, cooldown: bool, p: Params, i: nat) {
    forall j: nat :: j < |pool| ==> !Open(pool, used, cooldown, p, i, j)
  }

  /** j is the partner of i: nobody open is preferred, and nobody earlier is as good. */
  ghost predicate BestPartner(pool: seq<Candidate>, used: set<nat>, cooldown: bool, p: Params, i: nat, j: nat) {
    && Open(pool, used, cooldown, p, i, j)
    && forall k: nat :: Open(pool, used, cooldown, p, i, k) ==>
         !Better(pool[i], pool[k], pool[j]) && (k < j ==> Better(pool[i], pool[j], pool[k]))
  }

  /** The first seeker, in order of waiting, that has anybody open takes its best partner. */
  ghost predicate GreedyPick(pool: seq<Candidate>, used: set<nat>, cooldown: bool, p: Params, pick: Pick) {
    && BestPartner(pool, used, cooldown, p, pick.0, pick.1)
    && AllLonely(pool, used, cooldown, p, pick.0)
  }

  /** Greedy picks in order. */
  ghost predicate GreedyPicks(pool: seq<Candidate>, cooldown: bool, p: Params, picks: seq<Pick>) {
    picks == [] ||
    (GreedyPicks(pool, cooldown, p, picks[..|picks| - 1]) &&
     GreedyPick(pool, Used(picks[..|picks| - 1]), cooldown, p, picks[|picks| - 1]))
  }

  /** Greedy picks until nobody has anybody open. */
  ghost predicate GreedyRun(pool: seq<Candidate>, cooldown: bool, p: Params, picks: seq<Pick>) {
    GreedyPicks(pool, cooldown, p, picks) && AllLonely(pool, Used(picks), cooldown, p, |pool|)
  }

  ghost predicate AllLonely(pool: seq<Candidate>, used: set<nat>, cooldown: bool, p: Params, n: nat) {
    forall i: nat :: i < n ==> Lonely(pool, used, cooldown, p, i)
  }

  lemma LonelyStays(pool: seq<Candidate>, used: set<nat>, more: set<nat>, cooldown: bool, p: Params, i: nat)
    requires used <= more && Lonely(pool, used, cooldown, p, i)
    ensures Lonely(pool, more, cooldown, p, i)
  {
    forall j: nat | j < |pool| ensures !Open(pool, more, cooldown, p, i, j) {
      assert !Open(pool, used, cooldown, p, i, j);
    }
  }

  lemma OpenIsSymmetric(pool: seq<Candidate>, used: set<nat>, cooldown: bool, p: Params, i: nat, j: nat)
    requires Open(pool, used, cooldown, p, i, j)
    ensures Open(pool, used, cooldown, p, j, i)
  {
    CompatibleIsSymmetric(pool[i], pool[j], cooldown, p);
  }

  /** The scan for a partner starts at the front again, yet the seeker that chooses always
      stands before the one it chooses. */
  lemma ChooserComesFirst(pool: seq<Candidate>, used: set<nat>, cooldown: bool, p: Params, pick: Pick)
    requires GreedyPick(pool, used, cooldown, p, pick)
    ensures pick.0 < pick.1
  {
    OpenIsSymmetric(pool, used, cooldown, p, pick.0, pick.1);
    assert pick.1 < pick.0 ==> Lonely(pool, used, cooldown, p, pick.1);
  }

  lemma PickIsUnique(pool: seq<Candidate>, used: set<nat>, cooldown: bool, p: Params, x: Pick, y: Pick)
    requires GreedyPick(pool, used, cooldown, p, x) && GreedyPick(pool, used, cooldown, p, y)
    ensures x == y
  {
    assert Open(pool, used, cooldown, p, x.0, x.1) && Open(pool, used, cooldown, p, y.0, y.1);
    assert x.0 < y.0 ==> Lonely(pool, used, cooldown, p, x.0);
    assert y.0 < x.0 ==> Lonely(pool, used, cooldown, p, y.0);
  }

  lemma NoPickIsLeft(pool: seq<Candidate>, used: set<nat>, cooldown: bool, p: Params, pick: Pick)
    requires AllLonely(pool, used, cooldown, p, |pool|)
    ensures !GreedyPick(pool, used, cooldown, p, pick)
  {
    assert pick.0 < |pool| ==> Lonely(pool, used, cooldown, p, pick.0);
  }

  lemma {:induction false} PicksSoFar(pool: seq<Candidate>, cooldown: bool, p: Params, picks: seq<Pick>, n: nat)
    requires GreedyPicks(pool, cooldown, p, picks) && n <= |picks|
    ensures GreedyPicks(pool, cooldown, p, picks[..n])
    ensures n < |picks| ==> GreedyPick(pool, Used(picks[..n]), cooldown, p, picks[n])
    decreases |picks|
  {
    if n == |picks| {
      assert picks[..n] == picks;
    } else if n < |picks| - 1 {
      var init := picks[..|picks| - 1];
      PicksSoFar(pool, cooldown, p, init, n);
      assert init[..n] == picks[..n];
    }
  }

  lemma NextAgrees(pool: seq<Candidate>, cooldown: bool, p: Params, xs: seq<Pick>, ys: seq<Pick>, n: nat)
    requires GreedyPicks(pool, cooldown, p, xs) && GreedyPicks(pool, cooldown, p, ys)
    requires n < |xs| && n < |ys| && xs[..n] == ys[..n]
    ensures xs[n] == ys[n]
  {
    PicksSoFar(pool, cooldown, p, xs, n);
    PicksSoFar(pool, cooldown, p, ys, n);
    PickIsUnique(pool, Used(xs[..n]), cooldown, p, xs[n], ys[n]);
  }

  lemma {:induction false} RunsAgree(pool: seq<Candidate>, cooldown: bool, p: Params, xs: seq<Pick>, ys: seq<Pick>, n: nat)
    requires GreedyPicks(pool, cooldown, p, xs) && GreedyPicks(pool, cooldown, p, ys)
    requires n <= |xs| && n <= |ys|
    ensures xs[..n] == ys[..n]
  {
    if n > 0 {
      RunsAgree(pool, cooldown, p, xs, ys, n - 1);
      NextAgrees(pool, cooldown, p, xs, ys, n - 1);
      assert xs[..n] == xs[..n - 1] + [xs[n - 1]] && ys[..n] == ys[..n - 1] + [ys[n - 1]];
    }
  }

  lemma RunIsNotLonger(pool: seq<Candidate>, cooldown: bool, p: Params, xs: seq<Pick>, ys: seq<Pick>)
    requires GreedyRun(pool, cooldown, p, xs) && GreedyPicks(pool, cooldown, p, ys)
    ensures |ys| <= |xs|
  {
    if |xs| < |ys| {
      RunsAgree(pool, cooldown, p, xs, ys, |xs|);
      assert xs[..|xs|] == xs;
      NoPickIsLeft(pool, Used(xs), cooldown, p, ys[|xs|]);
      PicksSoFar(pool, cooldown, p, ys, |xs|);
    }
  }

  /** The rules leave no choice: a sorted pool has one greedy run. */
  lemma GreedyRunIsUnique(pool: seq<Candidate>, cooldown: bool, p: Params, xs: seq<Pick>, ys: seq<Pick>)
    requires GreedyRun(pool, cooldown, p, xs) && GreedyRun(pool, cooldown, p, ys)
    ensures xs == ys
  {
    RunIsNotLonger(pool, cooldown, p, xs, ys);
    RunIsNotLonger(pool, cooldown, p, ys, xs);
    RunsAgree(pool, cooldown, p, xs, ys, |xs|);
    assert xs[..|xs|] == xs && ys[..|ys|] == ys;
  }

  // ---- seats -------------------------------------------------------------

  function FirstSeat(p: Params): string {
    if p.firstSeat == "" then "first" else p.firstSeat
  }

  function SecondSeat(p: Params): string {
    if p.secondSeat == "" then "second" else p.secondSeat
  }

  /** Both or neither moved first in their last game: the coin decides. */
  predicate Tie(a: Candidate, b: Candidate, p: Params) {
    a.lastSeat == FirstSeat(p) <==> b.lastSeat == FirstSeat(p)
  }

  predicate APlaysFirst(a: Candidate, b: Candidate, p: Params, coin: bool) {
    if Tie(a, b, p) then coin else b.lastSeat == FirstSeat(p)
  }

  function PairUp(a: Candidate, b: Candidate, gap: int, p: Params, coin: bool): Paired {
    var first := APlaysFirst(a, b, p, coin);
    var wait := if p.now - b.createdAt > p.now - a.createdAt then p.now - b.createdAt else p.now - a.createdAt;
    Paired(a, b, if first then FirstSeat(p) else SecondSeat(p), if first then SecondSeat(p) else FirstSeat(p),
           first, gap, Quotient(wait, MILLISECOND))
  }

  /** A seeded source of coin flips. */
  class Coins {
    const flips: nat -> bool
    var used: nat

    constructor (flips: nat -> bool)
      ensures this.flips == flips && used == 0
    {
      this.flips, used := flips, 0;
    }

    method Flip() returns (heads: bool)
      modifies this`used
      ensures heads == flips(old(used)) && used == old(used) + 1
    {
      heads := flips(used);
      used := used + 1;
    }
  }

  method NewPairing(a: Candidate, b: Candidate, gap: int, p: Params, coins: Coins) returns (r: Paired)
    modifies coins`used
    ensures r == PairUp(a, b, gap, p, coins.flips(old(coins.used)))
    ensures coins.used == old(coins.used) + if Tie(a, b, p) then 1 else 0
  {
    var first, second := FirstSeat(p), SecondSeat(p);
    var aWasFirst, bWasFirst := a.lastSeat == first, b.lastSeat == first;
    var aPlaysFirst: bool;
    if aWasFirst && !bWasFirst {
      aPlaysFirst := false;
    } else if bWasFirst && !aWasFirst {
      aPlaysFirst := true;
    } else {
      aPlaysFirst := coins.Flip();
    }
    var wait := p.now - a.createdAt;
    if p.now - b.createdAt > wait { wait := p.now - b.createdAt; }
    r := Paired(a, b, if aPlaysFirst then first else second, if aPlaysFirst then second else first,
                aPlaysFirst, gap, Quotient(wait, MILLISECOND));
  }

  // ---- the pass ----------------------------------------------------------

  predicate InPool(pool: seq<Candidate>, picks: seq<Pick>) {
    forall n :: 0 <= n < |picks| ==> picks[n].0 < |pool| && picks[n].1 < |pool|
  }

  /** The flips used up when those items toss for which `tie` holds. */
  function Tossed<T>(tie: T -> bool, items: seq<T>): nat {
    if items == [] then 0
    else Tossed(tie, items[..|items| - 1]) + if tie(items[|items| - 1]) then 1 else 0
  }

  /** Each item made into a result with the next flip, numbered from `from` on. */
  function Made<T, R>(tie: T -> bool, make: (T, bool) -> R, items: seq<T>, flips: nat -> bool, from: nat): (r: seq<R>)
    ensures |r| == |items|
  {
    if items == [] then []
    else
      var init := items[..|items| - 1];
      Made(tie, make, init, flips, from) + [make(items[|items| - 1], flips(from + Tossed(tie, init)))]
  }

  /** What is written down when one more item is dealt with. */
  lemma OneMore<T, R>(tie: T -> bool, make: (T, bool) -> R, items: seq<T>, item: T, flips: nat -> bool, from: nat,
                      out: seq<R>, r: R, used: nat)
    requires out == Made(tie, make, items, flips, from) && used == from + Tossed(tie, items) && r == make(item, flips(used))
    ensures out + [r] == Made(tie, make, items + [item], flips, from)
    ensures Tossed(tie, items + [item]) == Tossed(tie, items) + if tie(item) then 1 else 0
  {
  }

  type Couple = (Candidate, Candidate)

  function Couples(pool: seq<Candidate>, picks: seq<Pick>): seq<Couple>
    requires InPool(pool, picks)
  {
    seq(|picks|, n requires 0 <= n < |picks| => (pool[picks[n].0], pool[picks[n].1]))
  }

  function Ties(p: Params): Couple -> bool {
    (c: Couple) => Tie(c.0, c.1, p)
  }

  function Makes(p: Params): (Couple, bool) -> Paired {
    (c: Couple, coin: bool) => PairUp(c.0, c.1, Gap(c.0, c.1), p, coin)
  }

  lemma MadeByPairUp(a: Candidate, b: Candidate, gap: int, p: Params, r: Paired, coin: bool)
    requires gap == Gap(a, b) && r == PairUp(a, b, gap, p, coin)
    ensures r == Makes(p)((a, b), coin)
  {
  }

  /** The flips the picks use up. */
  function Flips(pool: seq<Candidate>, p: Params, picks: seq<Pick>): nat
    requires InPool(pool, picks)
  {
    Tossed(Ties(p), Couples(pool, picks))
  }

  /** The pairings of the picks. */
  function Pairings(pool: seq<Candidate>, p: Params, picks: seq<Pick>, flips: nat -> bool, from: nat): seq<Paired>
    requires InPool(pool, picks)
  {
    Made(Ties(p), Makes(p), Couples(pool, picks), flips, from)
  }

  function Pool(cands: seq<Candidate>): seq<Candidate> {
    ByWait(Uncapped(cands))
  }

  /** Repeat games are only avoided in pools of more than three. */
  predicate CooldownActive(cands: seq<Candidate>, p: Params) {
    |Uncapped(cands)| > 3 && p.repeatCooldown > 0
  }

  method FilterCapped(cands: seq<Candidate>) returns (pool: seq<Candidate>)
    ensures pool == Uncapped(cands)
  {
    pool := [];
    var i := 0;
    while i < |cands|
      invariant 0 <= i <= |cands|
      invariant pool == Uncapped(cands[..i])
    {
      assert cands[..i + 1][..i] == cands[..i];
      if !Capped(cands[i]) { pool := pool + [cands[i]]; }
      i := i + 1;
    }
    assert cands[..i] == cands;
  }

  /** The inner loop: scan all indices for the best partner of i. */
  method FindPartner(pool: seq<Candidate>, used: set<nat>, cooldown: bool, p: Params, i: nat)
    returns (best: int, bestGap: int)
    requires i < |pool| && i !in used
    ensures -1 <= best < |pool|
    ensures best == -1 ==> Lonely(pool, used, cooldown, p, i)
    ensures best != -1 ==> BestPartner(pool, used, cooldown, p, i, best) && bestGap == Gap(pool[i], pool[best])
  {
    best, bestGap := -1, 0;
    var a := pool[i];
    var j := 0;
    while j < |pool|
      invariant 0 <= j <= |pool| && -1 <= best < j
      invariant best == -1 ==> forall k: nat :: k < j ==> !Open(pool, used, cooldown, p, i, k)
      invariant best != -1 ==> BestSoFar(pool, used, cooldown, p, i, best, j) && bestGap == Gap(a, pool[best])
    {
      if j != i && j !in used && Compatible(a, pool[j], cooldown, p) {
        var gap := Gap(a, pool[j]);
        if best == -1 || gap < bestGap
          || (gap == bestGap && pool[j].createdAt < pool[best].createdAt)
          || (gap == bestGap && pool[j].createdAt == pool[best].createdAt && StringLess(pool[j].did, pool[best].did))
        {
          if best != -1 { BetterReplaces(pool, used, cooldown, p, i, best, j); }
          best, bestGap := j, gap;
          assert !Better(a, a, a) by { BetterOrder(a, a, a, a); }
          BetterOrder(a, pool[j], pool[j], pool[j]);
        }
      }
      j := j + 1;
    }
  }

  ghost predicate BestSoFar(pool: seq<Candidate>, used: set<nat>, cooldown: bool, p: Params, i: nat, best: nat, j: nat) {
    && Open(pool, used, cooldown, p, i, best)
    && forall k: nat :: k < j && Open(pool, used, cooldown, p, i, k) ==>
         !Better(pool[i], pool[k], pool[best]) && (k < best ==> Better(pool[i], pool[best], pool[k]))
  }

  lemma BetterReplaces(pool: seq<Candidate>, used: set<nat>, cooldown: bool, p: Params, i: nat, best: nat, j: nat)
    requires BestSoFar(pool, used, cooldown, p, i, best, j) && Open(pool, used, cooldown, p, i, j)
    requires Better(pool[i], pool[j], pool[best])
    ensures BestSoFar(pool, used, cooldown, p, i, j, j + 1)
  {
    forall k: nat | k < j + 1 && Open(pool, used, cooldown, p, i, k)
      ensures !Better(pool[i], pool[k], pool[j]) && (k < j ==> Better(pool[i], pool[j], pool[k]))
    {
      BetterOrder(pool[i], pool[j], pool[best], pool[k]);
      BetterOrder(pool[i], pool[j], pool[k], pool[k]);
    }
  }

  /** Everybody before i has been given what there was. */
  ghost predicate ScannedTo(pool: seq<Candidate>, cooldown: bool, p: Params, picks: seq<Pick>, paired: set<nat>, i: nat) {
    GreedyPicks(pool, cooldown, p, picks) && paired == Used(picks) && AllLonely(pool, paired, cooldown, p, i)
  }

  lemma ScanPicks(pool: seq<Candidate>, cooldown: bool, p: Params, picks: seq<Pick>, paired: set<nat>, i: nat, best: nat)
    requires ScannedTo(pool, cooldown, p, picks, paired, i) && BestPartner(pool, paired, cooldown, p, i, best)
    ensures ScannedTo(pool, cooldown, p, picks + [(i, best)], paired + {i, best}, i)
  {
    NextPick(pool, cooldown, p, picks, (i, best));
    AllLonelyStays(pool, paired, paired + {i, best}, cooldown, p, i);
  }

  lemma ScanPasses(pool: seq<Candidate>, cooldown: bool, p: Params, picks: seq<Pick>, paired: set<nat>, i: nat)
    requires ScannedTo(pool, cooldown, p, picks, paired, i)
    requires i in paired || Lonely(pool, paired, cooldown, p, i)
    ensures ScannedTo(pool, cooldown, p, picks, paired, i + 1)
  {
  }

  /** The outer loop. */
  method PairSorted(pool: seq<Candidate>, cooldown: bool, p: Params, coins: Coins) returns (out: seq<Paired>, ghost picks: seq<Pick>)
    modifies coins`used
    ensures InPool(pool, picks) && GreedyRun(pool, cooldown, p, picks)
    ensures out == Pairings(pool, p, picks, coins.flips, old(coins.used))
    ensures coins.used == old(coins.used) + Flips(pool, p, picks)
  {
    out, picks := [], [];
    var paired: set<nat> := {};
    ghost var couples: seq<Couple> := [];
    var i := 0;
    while i < |pool|
      invariant 0 <= i <= |pool|
      invariant InPool(pool, picks) && ScannedTo(pool, cooldown, p, picks, paired, i)
      invariant couples == Couples(pool, picks)
      invariant out == Made(Ties(p), Makes(p), couples, coins.flips, old(coins.used))
      invariant coins.used == old(coins.used) + Tossed(Ties(p), couples)
    {
      if i !in paired {
        var best, gap := FindPartner(pool, paired, cooldown, p, i);
        if best != -1 {
          ghost var couple, used := (pool[i], pool[best]), coins.used;
          var r := NewPairing(pool[i], pool[best], gap, p, coins);
          MadeByPairUp(pool[i], pool[best], gap, p, r, coins.flips(used));
          ScanPicks(pool, cooldown, p, picks, paired, i, best);
          OneMore(Ties(p), Makes(p), couples, couple, coins.flips, old(coins.used), out, r, used);
          CouplesGrow(pool, picks, (i, best));
          out := out + [r];
          paired := paired + {i, best};
          picks := picks + [(i, best)];
          couples := couples + [couple];
        }
      }
      ScanPasses(pool, cooldown, p, picks, paired, i);
      i := i + 1;
    }
  }

  lemma CouplesGrow(pool: seq<Candidate>, picks: seq<Pick>, pick: Pick)
    requires InPool(pool, picks) && pick.0 < |pool| && pick.1 < |pool|
    ensures InPool(pool, picks + [pick])
    ensures Couples(pool, picks + [pick]) == Couples(pool, picks) + [(pool[pick.0], pool[pick.1])]
  {
  }

  method Pair(cands: seq<Candidate>, p: Params, coins: Coins) returns (out: seq<Paired>, ghost picks: seq<Pick>)
    modifies coins`used
    ensures InPool(Pool(cands), picks) && GreedyRun(Pool(cands), CooldownActive(cands, p), p, picks)
    ensures out == Pairings(Pool(cands), p, picks, coins.flips, old(coins.used))
    ensures coins.used == old(coins.used) + Flips(Pool(cands), p, picks)
  {
    var eligible := FilterCapped(cands);
    var pool := ByWait(eligible);
    PoolSize(cands);
    if |pool| < 2 {
      out, picks := [], [];
      return;
    }
    out, picks := PairSorted(pool, |pool| > 3 && p.repeatCooldown > 0, p, coins);
  }

  lemma PoolSize(cands: seq<Candidate>)
    ensures |Pool(cands)| == |Uncapped(cands)|
  {
    ByWaitSorts(Uncapped(cands));
    assert |Pool(cands)| == |multiset(Pool(cands))| == |Uncapped(cands)|;
  }

  lemma AllLonelyStays(pool: seq<Candidate>, used: set<nat>, more: set<nat>, cooldown: bool, p: Params, n: nat)
    requires used <= more && AllLonely(pool, used, cooldown, p, n)
    ensures AllLonely(pool, more, cooldown, p, n)
  {
    forall i: nat | i < n ensures Lonely(pool, more, cooldown, p, i) {
      LonelyStays(pool, used, more, cooldown, p, i);
    }
  }

  lemma NextPick(pool: seq<Candidate>, cooldown: bool, p: Params, picks: seq<Pick>, pick: Pick)
    requires GreedyPicks(pool, cooldown, p, picks) && GreedyPick(pool, Used(picks), cooldown, p, pick)
    ensures GreedyPicks(pool, cooldown, p, picks + [pick]) && Used(picks + [pick]) == Used(picks) + {pick.0, pick.1}
  {
  }
}
