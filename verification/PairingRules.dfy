/** The rules of a pairing pass in the columns of the seekers and of the result: who may meet,
    who is chosen, who moves first. */
module PairingRules {
  import opened Lex
  import Keys
  import opened Pairing
  import opened PairingLaws

  // ---- who may meet ------------------------------------------------------

  /** k whole intervals have gone by since the seek was created. */
  predicate Waited(c: Candidate, p: Params, k: nat) {
    if p.widenInterval > 0 && p.now > c.createdAt then
      k * p.widenInterval <= p.now - c.createdAt < (k + 1) * p.widenInterval
    else k == 0
  }

  /** A gap the seek accepts after k intervals: within the window it asked for, widened at each
      interval, and within the cap if there is one. */
  predicate Accepts(c: Candidate, p: Params, k: nat, gap: nat) {
    gap == 0 || (gap <= c.ratingWindow + p.widen * k && (p.windowCap <= 0 || gap <= p.windowCap))
  }

  ghost predicate Reaches(c: Candidate, p: Params, gap: nat) {
    exists k: nat :: Waited(c, p, k) && Accepts(c, p, k, gap)
  }

  function Apart(a: int, b: int): nat {
    if a >= b then a - b else b - a
  }

  /** Fewer than ten rated games on either side, or a gap both accept. */
  ghost predicate CloseEnough(a: Candidate, b: Candidate, p: Params) {
    a.ratedGames < 10 || b.ratedGames < 10 || (Reaches(a, p, Apart(a.rating, b.rating)) && Reaches(b, p, Apart(a.rating, b.rating)))
  }

  predicate OneOperator(a: Candidate, b: Candidate) {
    a.operatorDid != "" && a.operatorDid == b.operatorDid
  }

  /** The pair's key, with the lesser DID first. */
  predicate MetLately(a: Candidate, b: Candidate, p: Params) {
    if StringLess(b.did, a.did) then b.did + "|" + a.did in p.recentPairs else a.did + "|" + b.did in p.recentPairs
  }

  ghost predicate MayMeet(a: Candidate, b: Candidate, many: bool, p: Params) {
    && a.did != b.did
    && !(p.distinctOperators && OneOperator(a, b))
    && !(many && p.repeatCooldown > 0 && MetLately(a, b, p))
    && CloseEnough(a, b, p)
  }

  lemma WaitedSteps(c: Candidate, p: Params)
    ensures forall k: nat :: Waited(c, p, k) <==> k == Steps(p.now - c.createdAt, p.widenInterval)
  {
    var wait := p.now - c.createdAt;
    if p.widenInterval > 0 && wait > 0 {
      forall k: nat ensures Waited(c, p, k) <==> k == wait / p.widenInterval {
        StepsOfInterval(wait, p.widenInterval, k);
        StepsOfInterval(wait, p.widenInterval, k + 1);
        assert k * p.widenInterval == p.widenInterval * k && (k + 1) * p.widenInterval == p.widenInterval * (k + 1);
      }
    }
  }

  lemma WindowReachesIff(c: Candidate, p: Params, gap: nat)
    ensures gap <= Window(c, p) <==> Reaches(c, p, gap)
  {
    WaitedSteps(c, p);
    var k := Steps(p.now - c.createdAt, p.widenInterval);
    assert Waited(c, p, k);
  }

  /** What the pass calls compatible is this, no more and no less. */
  lemma CompatibleIsMayMeet(a: Candidate, b: Candidate, cooldown: bool, many: bool, p: Params)
    requires cooldown <==> many && p.repeatCooldown > 0
    ensures Compatible(a, b, cooldown, p) <==> MayMeet(a, b, many, p)
  {
    WindowReachesIff(a, p, Apart(a.rating, b.rating));
    WindowReachesIff(b, p, Apart(a.rating, b.rating));
  }

  // ---- the pool ----------------------------------------------------------

  /** Below the seeker's own cap on concurrent games, if it set one. */
  predicate HasRoom(c: Candidate) {
    c.maxConcurrent <= 0 || c.activeGames < c.maxConcurrent
  }

  /** The pool holds each seeker with room as often as it was a candidate, the longest wait
      first and equal waits by DID. */
  lemma PoolInColumns(cands: seq<Candidate>, c: Candidate)
    ensures multiset(Pool(cands))[c] == if HasRoom(c) then multiset(cands)[c] else 0
    ensures var pool := Pool(cands);
      forall i, j :: 0 <= i < j < |pool| ==>
        pool[i].createdAt < pool[j].createdAt || (pool[i].createdAt == pool[j].createdAt && !StringLess(pool[j].did, pool[i].did))
  {
    PoolIsEligible(cands, c);
  }

  predicate Many(cands: seq<Candidate>) {
    |Pool(cands)| > 3
  }

  lemma CooldownIsMany(cands: seq<Candidate>, p: Params)
    ensures CooldownActive(cands, p) <==> Many(cands) && p.repeatCooldown > 0
  {
    PoolSize(cands);
  }

  // ---- every pairing -----------------------------------------------------

  /** Every pairing of a pass: two seekers with room that may meet, A the one that waited longer,
      with the gap and the wait in the record. */
  lemma PairingObeysRules(cands: seq<Candidate>, p: Params, picks: seq<Pick>, flips: nat -> bool, from: nat, n: nat)
    requires GreedyPicks(Pool(cands), CooldownActive(cands, p), p, picks) && InPool(Pool(cands), picks) && n < |picks|
    ensures |Pairings(Pool(cands), p, picks, flips, from)| == |picks|
    ensures var r := Pairings(Pool(cands), p, picks, flips, from)[n];
      && r.a == Pool(cands)[picks[n].0] && r.b == Pool(cands)[picks[n].1] && MayMeet(r.a, r.b, Many(cands), p)
      && HasRoom(r.a) && HasRoom(r.b) && r.a.createdAt <= r.b.createdAt
      && r.ratingGap == Apart(r.a.rating, r.b.rating)
      && (p.now >= r.a.createdAt ==> r.waitMs == (p.now - r.a.createdAt) / 1_000_000)
  {
    ResultIsFair(cands, p, picks, flips, from, n);
    CooldownIsMany(cands, p);
    var r := Pairings(Pool(cands), p, picks, flips, from)[n];
    CompatibleIsMayMeet(r.a, r.b, CooldownActive(cands, p), Many(cands), p);
  }

  /** Two seekers of the pool left over could not have met. */
  lemma LeftoversMayNotMeet(cands: seq<Candidate>, p: Params, picks: seq<Pick>, i: nat, j: nat)
    requires GreedyRun(Pool(cands), CooldownActive(cands, p), p, picks)
    requires i != j && Unpaired(Pool(cands), picks, i) && Unpaired(Pool(cands), picks, j)
    ensures !MayMeet(Pool(cands)[i], Pool(cands)[j], Many(cands), p)
  {
    NobodyLeftCouldMeet(cands, p, picks, i, j);
    CooldownIsMany(cands, p);
    CompatibleIsMayMeet(Pool(cands)[i], Pool(cands)[j], CooldownActive(cands, p), Many(cands), p);
  }

  // ---- the choice --------------------------------------------------------

  /** Nobody has been given seeker i among the first n pairs. */
  predicate Free(picks: seq<Pick>, n: nat, i: nat)
    requires n <= |picks|
  {
    forall m :: 0 <= m < n ==> picks[m].0 != i && picks[m].1 != i
  }

  lemma {:induction false} FreeIsUnused(picks: seq<Pick>, n: nat, i: nat)
    requires n <= |picks|
    ensures Free(picks, n, i) <==> i !in Used(picks[..n])
  {
    if n > 0 {
      FreeIsUnused(picks, n - 1, i);
      assert picks[..n][..n - 1] == picks[..n - 1];
    }
  }

  /** b is at least as good a partner for a as c: nearer in rating, or as near and waiting longer,
      or as long and not after it by DID. */
  predicate AtLeastAsGood(a: Candidate, b: Candidate, c: Candidate) {
    var x, y := Apart(a.rating, b.rating), Apart(a.rating, c.rating);
    x < y || (x == y && (b.createdAt < c.createdAt || (b.createdAt == c.createdAt && !StringLess(c.did, b.did))))
  }

  /** The partner chosen for a seeker is at least as good as anybody else still free that it may
      meet. */
  lemma PartnerIsBest(cands: seq<Candidate>, p: Params, picks: seq<Pick>, n: nat, k: nat)
    requires GreedyPicks(Pool(cands), CooldownActive(cands, p), p, picks) && n < |picks|
    requires k < |Pool(cands)| && k != picks[n].0 && Free(picks, n, k) && picks[n].0 < |Pool(cands)| && picks[n].1 < |Pool(cands)|
    requires MayMeet(Pool(cands)[picks[n].0], Pool(cands)[k], Many(cands), p)
    ensures AtLeastAsGood(Pool(cands)[picks[n].0], Pool(cands)[picks[n].1], Pool(cands)[k])
  {
    var pool, cooldown, i := Pool(cands), CooldownActive(cands, p), picks[n].0;
    PicksAreSound(pool, cooldown, p, picks, n);
    CooldownIsMany(cands, p);
    CompatibleIsMayMeet(pool[i], pool[k], cooldown, Many(cands), p);
    FreeIsUnused(picks, n, k);
    assert Open(pool, Used(picks[..n]), cooldown, p, i, k);
    StringTrichotomy(pool[k].did, pool[picks[n].1].did);
  }

  /** The seeker that chooses is the first, in order of waiting, that may meet anybody free. */
  lemma ChooserIsFirst(cands: seq<Candidate>, p: Params, picks: seq<Pick>, n: nat, h: nat, k: nat)
    requires GreedyPicks(Pool(cands), CooldownActive(cands, p), p, picks) && n < |picks|
    requires h < picks[n].0 && h < |Pool(cands)| && k < |Pool(cands)| && h != k && Free(picks, n, h) && Free(picks, n, k)
    ensures !MayMeet(Pool(cands)[h], Pool(cands)[k], Many(cands), p)
  {
    var pool, cooldown := Pool(cands), CooldownActive(cands, p);
    PicksSoFar(pool, cooldown, p, picks, n);
    CooldownIsMany(cands, p);
    CompatibleIsMayMeet(pool[h], pool[k], cooldown, Many(cands), p);
    FreeIsUnused(picks, n, h);
    FreeIsUnused(picks, n, k);
    assert Lonely(pool, Used(picks[..n]), cooldown, p, h);
    assert !Open(pool, Used(picks[..n]), cooldown, p, h, k);
  }

  // ---- seats and coins ---------------------------------------------------

  /** The seats are those of the engine, or have these names. */
  lemma SeatNames(p: Params)
    ensures FirstSeat(p) == (if |p.firstSeat| > 0 then p.firstSeat else "first")
    ensures SecondSeat(p) == (if |p.secondSeat| > 0 then p.secondSeat else "second")
  {
  }

  /** Both or neither moved first last time. */
  predicate Even(r: Paired, first: string) {
    r.a.lastSeat == first <==> r.b.lastSeat == first
  }

  /** The even pairings among the first n. */
  function EvenBefore(out: seq<Paired>, first: string, n: nat): nat
    requires n <= |out|
  {
    if n == 0 then 0 else EvenBefore(out, first, n - 1) + if Even(out[n - 1], first) then 1 else 0
  }

  /** The items among the first n that toss. */
  function TossesBefore<T>(tie: T -> bool, items: seq<T>, n: nat): nat
    requires n <= |items|
  {
    if n == 0 then 0 else TossesBefore(tie, items, n - 1) + if tie(items[n - 1]) then 1 else 0
  }

  lemma {:induction false} TossedIsBefore<T>(tie: T -> bool, items: seq<T>, n: nat)
    requires n <= |items|
    ensures Tossed(tie, items[..n]) == TossesBefore(tie, items, n)
  {
    if n > 0 {
      TossedIsBefore(tie, items, n - 1);
      assert items[..n][..n - 1] == items[..n - 1];
    }
  }

  lemma {:induction false} TossesOfPrefix<T>(tie: T -> bool, items: seq<T>, init: seq<T>, n: nat)
    requires init <= items && n <= |init|
    ensures TossesBefore(tie, items, n) == TossesBefore(tie, init, n)
  {
    if n > 0 { TossesOfPrefix(tie, items, init, n - 1); }
  }

  lemma {:induction false} MadeWithFlip<T, R>(tie: T -> bool, make: (T, bool) -> R, items: seq<T>, flips: nat -> bool, from: nat, n: nat, out: seq<R>)
    requires n < |items| && out == Pairing.Made(tie, make, items, flips, from)
    ensures |out| == |items| && out[n] == make(items[n], flips(from + TossesBefore(tie, items, n)))
    decreases |items|
  {
    var init := items[..|items| - 1];
    if n < |items| - 1 {
      MadeWithFlip(tie, make, init, flips, from, n, Pairing.Made(tie, make, init, flips, from));
      TossesOfPrefix(tie, items, init, n);
    } else {
      TossedIsBefore(tie, items, n);
    }
  }

  lemma TieIsEven(p: Params, c: Couple, coin: bool)
    ensures Ties(p)(c) <==> Even(Makes(p)(c, coin), FirstSeat(p))
  {
  }

  lemma EvenOneMore(out: seq<Paired>, first: string, n: nat)
    requires 0 < n <= |out|
    ensures EvenBefore(out, first, n) == EvenBefore(out, first, n - 1) + if Even(out[n - 1], first) then 1 else 0
  {
  }

  lemma TossOneMore<T>(tie: T -> bool, items: seq<T>, n: nat)
    requires 0 < n <= |items|
    ensures TossesBefore(tie, items, n) == TossesBefore(tie, items, n - 1) + if tie(items[n - 1]) then 1 else 0
  {
  }

  lemma {:induction false} TossesAreEven(couples: seq<Couple>, p: Params, flips: nat -> bool, from: nat, n: nat, out: seq<Paired>)
    requires n <= |couples| && out == Pairing.Made(Ties(p), Makes(p), couples, flips, from)
    ensures TossesBefore(Ties(p), couples, n) == EvenBefore(out, FirstSeat(p), n)
  {
    if n > 0 {
      TossesAreEven(couples, p, flips, from, n - 1, out);
      MadeWithFlip(Ties(p), Makes(p), couples, flips, from, n - 1, out);
      TieIsEven(p, couples[n - 1], flips(from + TossesBefore(Ties(p), couples, n - 1)));
      EvenOneMore(out, FirstSeat(p), n);
      TossOneMore(Ties(p), couples, n);
    }
  }

  predicate Seated(r: Paired, first: string, second: string, coin: bool) {
    && (r.seatA, r.seatB) == (if r.aPlaysFirst then (first, second) else (second, first))
    && (r.a.lastSeat == first && r.b.lastSeat != first ==> !r.aPlaysFirst)
    && (r.a.lastSeat != first && r.b.lastSeat == first ==> r.aPlaysFirst)
    && (Even(r, first) ==> r.aPlaysFirst == coin)
  }

  lemma PairUpSeats(p: Params, c: Couple, coin: bool)
    ensures Seated(Makes(p)(c, coin), FirstSeat(p), SecondSeat(p), coin)
  {
  }

  lemma CouplesAreSeated(couples: seq<Couple>, p: Params, flips: nat -> bool, from: nat, n: nat, out: seq<Paired>)
    requires n < |couples| && out == Pairing.Made(Ties(p), Makes(p), couples, flips, from)
    ensures |out| == |couples| && Seated(out[n], FirstSeat(p), SecondSeat(p), flips(from + EvenBefore(out, FirstSeat(p), n)))
  {
    MadeWithFlip(Ties(p), Makes(p), couples, flips, from, n, out);
    TossesAreEven(couples, p, flips, from, n, out);
    PairUpSeats(p, couples[n], flips(from + TossesBefore(Ties(p), couples, n)));
  }

  /** Whoever moved first last time gets the second seat, if the other did not; else the coin
      decides, each even pairing taking the next flip. */
  lemma SeatsInColumns(pool: seq<Candidate>, p: Params, picks: seq<Pick>, flips: nat -> bool, from: nat, n: nat, out: seq<Paired>)
    requires InPool(pool, picks) && n < |picks| && out == Pairings(pool, p, picks, flips, from)
    ensures |out| == |picks| && Seated(out[n], FirstSeat(p), SecondSeat(p), flips(from + EvenBefore(out, FirstSeat(p), n)))
  {
    CouplesAreSeated(Couples(pool, picks), p, flips, from, n, out);
  }

  /** The wait in the record is that of whoever waited longer, in whole milliseconds toward zero. */
  lemma WaitIsTheLonger(a: Candidate, b: Candidate, gap: int, p: Params, coin: bool)
    ensures var wait := p.now - if a.createdAt <= b.createdAt then a.createdAt else b.createdAt;
      PairUp(a, b, gap, p, coin).waitMs == if wait >= 0 then wait / 1_000_000 else -(-wait / 1_000_000)
  {
  }
}
