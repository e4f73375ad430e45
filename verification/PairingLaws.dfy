/** What a pairing pass guarantees, whatever the seekers and the coin. */
module PairingLaws {
  import opened Lex
  import opened Pairing

  // ---- a matching --------------------------------------------------------

  lemma {:induction false} UsedByPicks(picks: seq<Pick>, n: nat)
    requires n < |picks|
    ensures picks[n].0 in Used(picks) && picks[n].1 in Used(picks)
    decreases |picks|
  {
    if n < |picks| - 1 {
      UsedByPicks(picks[..|picks| - 1], n);
    }
  }

  lemma {:induction false} PickedWhenUsed(picks: seq<Pick>, i: nat) returns (n: nat)
    requires i in Used(picks)
    ensures n < |picks| && (i == picks[n].0 || i == picks[n].1)
    decreases |picks|
  {
    n := |picks| - 1;
    if i != picks[n].0 && i != picks[n].1 {
      n := PickedWhenUsed(picks[..n], i);
    }
  }

  predicate Apart(x: Pick, y: Pick) {
    x.0 != y.0 && x.0 != y.1 && x.1 != y.0 && x.1 != y.1
  }

  /** No seek is used twice, and every pick is a compatible pair with the longer wait first,
      the chosen partner being the best of those still open at that step. */
  lemma PicksAreSound(pool: seq<Candidate>, cooldown: bool, p: Params, picks: seq<Pick>, n: nat)
    requires GreedyPicks(pool, cooldown, p, picks) && n < |picks|
    ensures picks[n].0 < picks[n].1 < |pool|
    ensures Compatible(pool[picks[n].0], pool[picks[n].1], cooldown, p)
    ensures BestPartner(pool, Used(picks[..n]), cooldown, p, picks[n].0, picks[n].1)
    ensures forall m :: 0 <= m < n ==> Apart(picks[m], picks[n])
  {
    PicksSoFar(pool, cooldown, p, picks, n);
    ChooserComesFirst(pool, Used(picks[..n]), cooldown, p, picks[n]);
    forall m | 0 <= m < n ensures Apart(picks[m], picks[n]) {
      UsedByPicks(picks[..n], m);
    }
  }

  // ---- the pool ----------------------------------------------------------

  lemma {:induction false} UncappedCount(cands: seq<Candidate>, c: Candidate)
    ensures multiset(Uncapped(cands))[c] == if Capped(c) then 0 else multiset(cands)[c]
  {
    if cands != [] {
      UncappedCount(cands[..|cands| - 1], c);
      assert cands == cands[..|cands| - 1] + [cands[|cands| - 1]];
    }
  }

  /** The pool is the seekers below their cap, no more and no fewer, longest wait first. */
  lemma PoolIsEligible(cands: seq<Candidate>, c: Candidate)
    ensures multiset(Pool(cands))[c] == if Capped(c) then 0 else multiset(cands)[c]
    ensures Sorted(Pool(cands))
  {
    ByWaitSorts(Uncapped(cands));
    UncappedCount(cands, c);
  }

  // ---- the result --------------------------------------------------------

  lemma {:induction false} MadeAt<T, R>(tie: T -> bool, make: (T, bool) -> R, items: seq<T>, flips: nat -> bool, from: nat, n: nat)
    returns (coin: bool)
    requires n < |items|
    ensures Made(tie, make, items, flips, from)[n] == make(items[n], coin)
    decreases |items|
  {
    var init := items[..|items| - 1];
    if n < |items| - 1 {
      coin := MadeAt(tie, make, init, flips, from, n);
    } else {
      coin := flips(from + Tossed(tie, init));
    }
  }

  /** One result of the pass, for any seekers: who meets whom, and how long the longer-waiting
      side, which is always A, has waited. */
  predicate Fair(r: Paired, a: Candidate, b: Candidate, cooldown: bool, p: Params) {
    && r.a == a && r.b == b && Compatible(a, b, cooldown, p) && !Capped(a) && !Capped(b)
    && a.createdAt <= b.createdAt
    && r.waitMs == Quotient(p.now - a.createdAt, MILLISECOND)
    && r.ratingGap == Gap(a, b)
    && (r.aPlaysFirst ==> r.seatA == FirstSeat(p) && r.seatB == SecondSeat(p))
    && (!r.aPlaysFirst ==> r.seatA == SecondSeat(p) && r.seatB == FirstSeat(p))
    && (!Tie(a, b, p) ==> (r.aPlaysFirst <==> b.lastSeat == FirstSeat(p)))
  }

  lemma PairUpIsFair(a: Candidate, b: Candidate, cooldown: bool, p: Params, coin: bool)
    requires Compatible(a, b, cooldown, p) && !Capped(a) && !Capped(b) && a.createdAt <= b.createdAt
    ensures Fair(PairUp(a, b, Gap(a, b), p, coin), a, b, cooldown, p)
  {
  }

  lemma ResultIsFair(cands: seq<Candidate>, p: Params, picks: seq<Pick>, flips: nat -> bool, from: nat, n: nat)
    requires GreedyPicks(Pool(cands), CooldownActive(cands, p), p, picks) && InPool(Pool(cands), picks) && n < |picks|
    ensures var pool := Pool(cands);
      |Pairings(pool, p, picks, flips, from)| == |picks| &&
      Fair(Pairings(pool, p, picks, flips, from)[n], pool[picks[n].0], pool[picks[n].1], CooldownActive(cands, p), p)
  {
    var pool := Pool(cands);
    var a, b := pool[picks[n].0], pool[picks[n].1];
    PicksAreSound(pool, CooldownActive(cands, p), p, picks, n);
    var coin := MadeAt(Ties(p), Makes(p), Couples(pool, picks), flips, from, n);
    PoolIsEligible(cands, a);
    PoolIsEligible(cands, b);
    assert a in multiset(pool) && b in multiset(pool);
    assert !Before(b, a);
    PairUpIsFair(a, b, CooldownActive(cands, p), p, coin);
  }

  ghost predicate Unpaired(pool: seq<Candidate>, picks: seq<Pick>, i: nat) {
    i < |pool| && forall n :: 0 <= n < |picks| ==> picks[n].0 != i && picks[n].1 != i
  }

  /** The matching is maximal: two eligible seekers left over could not have met. */
  lemma NobodyLeftCouldMeet(cands: seq<Candidate>, p: Params, picks: seq<Pick>, i: nat, j: nat)
    requires GreedyRun(Pool(cands), CooldownActive(cands, p), p, picks)
    requires i != j && Unpaired(Pool(cands), picks, i) && Unpaired(Pool(cands), picks, j)
    ensures !Compatible(Pool(cands)[i], Pool(cands)[j], CooldownActive(cands, p), p)
  {
    if i in Used(picks) { var n := PickedWhenUsed(picks, i); }
    if j in Used(picks) { var n := PickedWhenUsed(picks, j); }
    assert Lonely(Pool(cands), Used(picks), CooldownActive(cands, p), p, i);
    assert !Open(Pool(cands), Used(picks), CooldownActive(cands, p), p, i, j);
  }

  // ---- order of the candidates -------------------------------------------

  /** Different seekers differ in (createdAt, DID). */
  ghost predicate Told(cands: seq<Candidate>) {
    forall a, b :: a in cands && b in cands && a != b ==> a.createdAt != b.createdAt || a.did != b.did
  }

  lemma ToldIsTotal(a: Candidate, b: Candidate)
    requires a.createdAt != b.createdAt || a.did != b.did
    ensures Before(a, b) || Before(b, a)
  {
    StringTrichotomy(a.did, b.did);
  }

  lemma FirstIsUnique(a: seq<Candidate>, b: seq<Candidate>)
    requires Sorted(a) && Sorted(b) && Told(a) && multiset(a) == multiset(b) && a != [] && b != []
    ensures a[0] == b[0]
  {
    assert a[0] in multiset(b) && b[0] in multiset(a);
    if a[0] != b[0] { ToldIsTotal(a[0], b[0]); }
  }

  lemma RestOf(a: seq<Candidate>)
    requires a != []
    ensures multiset(a[1..]) == multiset(a) - multiset{a[0]}
  {
    assert a == [a[0]] + a[1..];
  }

  lemma {:induction false} SortedIsUnique(a: seq<Candidate>, b: seq<Candidate>)
    requires Sorted(a) && Sorted(b) && Told(a) && multiset(a) == multiset(b)
    ensures a == b
    decreases |a|
  {
    assert |a| == |multiset(a)| == |multiset(b)| == |b|;
    if a != [] {
      FirstIsUnique(a, b);
      RestOf(a);
      RestOf(b);
      SortedIsUnique(a[1..], b[1..]);
      assert a == [a[0]] + a[1..] && b == [b[0]] + b[1..];
    }
  }

  lemma PoolIgnoresOrder(cands: seq<Candidate>, cands': seq<Candidate>)
    requires multiset(cands) == multiset(cands') && Told(cands)
    ensures Pool(cands) == Pool(cands')
  {
    forall c ensures multiset(Pool(cands))[c] == multiset(Pool(cands'))[c] {
      PoolIsEligible(cands, c);
      PoolIsEligible(cands', c);
    }
    forall c | c in Pool(cands) ensures c in cands {
      assert c in multiset(Pool(cands));
      PoolIsEligible(cands, c);
      assert c in multiset(cands);
    }
    ByWaitSorts(Uncapped(cands));
    ByWaitSorts(Uncapped(cands'));
    SortedIsUnique(Pool(cands), Pool(cands'));
  }

  /** The pass gives the same pairings, seats included, for every order of the candidates. */
  lemma PairIgnoresOrder(cands: seq<Candidate>, cands': seq<Candidate>, p: Params, picks: seq<Pick>, picks': seq<Pick>,
                         flips: nat -> bool, from: nat)
    requires multiset(cands) == multiset(cands') && Told(cands)
    requires InPool(Pool(cands), picks) && GreedyRun(Pool(cands), CooldownActive(cands, p), p, picks)
    requires InPool(Pool(cands'), picks') && GreedyRun(Pool(cands'), CooldownActive(cands', p), p, picks')
    ensures Pairings(Pool(cands), p, picks, flips, from) == Pairings(Pool(cands'), p, picks', flips, from)
  {
    PoolIgnoresOrder(cands, cands');
    PoolSize(cands);
    PoolSize(cands');
    GreedyRunIsUnique(Pool(cands), CooldownActive(cands, p), p, picks, picks');
  }
}
