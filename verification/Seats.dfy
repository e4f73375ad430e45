/** Seats over passes of the matcher.  A pass reads the stored seat of every seeker, pairs the
    whole pool, and only then turns the pairings into games, each of which stores two seats. */
module Seats {
  import opened Pairing
  import PairingLaws

  type History = map<string, string>

  function LastSeat(h: History, did: string): string {
    if did in h then h[did] else ""
  }

  // ---- one game ----------------------------------------------------------

  /** Who the game record names first: the pairing's seat names mapped onto the turn order. */
  function FirstMover(r: Paired, first: string): string {
    if r.seatA == first then r.a.did else r.b.did
  }

  function SecondMover(r: Paired, first: string): string {
    if r.seatA == first then r.b.did else r.a.did
  }

  function Recorded(h: History, r: Paired, first: string, second: string): History {
    h[FirstMover(r, first) := first][SecondMover(r, first) := second]
  }

  function AllRecorded(h: History, rs: seq<Paired>, first: string, second: string): History {
    if rs == [] then h else Recorded(AllRecorded(h, rs[..|rs| - 1], first, second), rs[|rs| - 1], first, second)
  }

  class SeatHistory {
    var lastSeat: History

    constructor ()
      ensures lastSeat == map[]
    {
      lastSeat := map[];
    }

    /** The seat bookkeeping of turning a pairing into a game. */
    method Materialize(r: Paired, first: string, second: string) returns (firstDid: string, secondDid: string)
      modifies this`lastSeat
      ensures firstDid == FirstMover(r, first) && secondDid == SecondMover(r, first)
      ensures lastSeat == Recorded(old(lastSeat), r, first, second)
    {
      if r.seatA == first {
        firstDid, secondDid := r.a.did, r.b.did;
      } else {
        firstDid, secondDid := r.b.did, r.a.did;
      }
      lastSeat := lastSeat[firstDid := first];
      lastSeat := lastSeat[secondDid := second];
    }

    /** The pairings of a pass become games one after the other. */
    method MaterializeAll(rs: seq<Paired>, first: string, second: string)
      modifies this`lastSeat
      ensures lastSeat == AllRecorded(old(lastSeat), rs, first, second)
    {
      for n := 0 to |rs|
        invariant lastSeat == AllRecorded(old(lastSeat), rs[..n], first, second)
      {
        assert rs[..n + 1][..n] == rs[..n];
        var _, _ := Materialize(rs[n], first, second);
      }
      assert rs[..|rs|] == rs;
    }
  }

  // ---- passes ------------------------------------------------------------

  /** Two seekers a pass pairs up; their stored seats are read when it begins. */
  datatype Meeting = Meeting(a: Candidate, b: Candidate, p: Params)

  /** The pairing of a meeting, from the seats stored before the pass and the coin. */
  function Made(h: History, m: Meeting, coin: bool): Paired {
    PairUp(m.a.(lastSeat := LastSeat(h, m.a.did)), m.b.(lastSeat := LastSeat(h, m.b.did)), Gap(m.a, m.b), m.p, coin)
  }

  function Games(h: History, pass: seq<Meeting>, coins: nat -> bool): (rs: seq<Paired>)
    ensures |rs| == |pass|
  {
    seq(|pass|, n requires 0 <= n < |pass| => Made(h, pass[n], coins(n)))
  }

  /** A schedule of passes, for an engine with two seat names. */
  datatype Schedule = Schedule(passes: seq<seq<Meeting>>, first: string, second: string)

  predicate WellFormed(s: Schedule) {
    && s.first != "" && s.second != "" && s.first != s.second
    && forall i, n :: 0 <= i < |s.passes| && 0 <= n < |s.passes[i]| ==> Proper(s, s.passes[i][n])
  }

  predicate Proper(s: Schedule, m: Meeting) {
    m.a.did != m.b.did && m.p.firstSeat == s.first && m.p.secondSeat == s.second
  }

  /** The seats stored when pass i begins. */
  function BeforePass(h: History, s: Schedule, coins: nat -> nat -> bool, i: nat): History
    requires i <= |s.passes|
  {
    if i == 0 then h
    else
      var before := BeforePass(h, s, coins, i - 1);
      AllRecorded(before, Games(before, s.passes[i - 1], coins(i - 1)), s.first, s.second)
  }

  function GameAt(h: History, s: Schedule, coins: nat -> nat -> bool, i: nat, n: nat): Paired
    requires i < |s.passes| && n < |s.passes[i]|
  {
    Made(BeforePass(h, s, coins, i), s.passes[i][n], coins(i)(n))
  }

  predicate Plays(m: Meeting, did: string) {
    m.a.did == did || m.b.did == did
  }

  predicate Between(m: Meeting, x: string, y: string) {
    Plays(m, x) && Plays(m, y)
  }

  /** The second game seats the players of the first the other way round. */
  predicate Changed(r: Paired, r': Paired, first: string) {
    FirstMover(r', first) == SecondMover(r, first) && SecondMover(r', first) == FirstMover(r, first)
  }

  // ---- one game's seats --------------------------------------------------

  /** Whatever the orientation and the coin, the two movers are the two seekers. */
  lemma MoversArePlayers(h: History, s: Schedule, m: Meeting, coin: bool, x: string, y: string)
    requires s.first != "" && s.second != "" && s.first != s.second && Proper(s, m) && x != y && Between(m, x, y)
    ensures var r := Made(h, m, coin);
      (FirstMover(r, s.first) == x && SecondMover(r, s.first) == y) || (FirstMover(r, s.first) == y && SecondMover(r, s.first) == x)
  {
  }

  lemma RecordedSeats(h: History, r: Paired, first: string, second: string, did: string)
    requires FirstMover(r, first) != SecondMover(r, first)
    ensures LastSeat(Recorded(h, r, first, second), did) ==
            if did == FirstMover(r, first) then first else if did == SecondMover(r, first) then second else LastSeat(h, did)
  {
  }

  /** Whoever moved first last time moves second now. */
  lemma FirstBecomesSecond(h: History, s: Schedule, m: Meeting, coin: bool, x: string, y: string)
    requires s.first != "" && s.second != "" && s.first != s.second && Proper(s, m) && x != y && Between(m, x, y)
    requires LastSeat(h, x) == s.first && LastSeat(h, y) == s.second
    ensures var r := Made(h, m, coin); FirstMover(r, s.first) == y && SecondMover(r, s.first) == x
  {
  }

  // ---- seats across games ------------------------------------------------

  predicate Away(pass: seq<Meeting>, from: nat, to: nat, did: string)
    requires to <= |pass|
  {
    forall n :: from <= n < to ==> !Plays(pass[n], did)
  }

  /** Seats of `did` are kept while others play. */
  lemma {:induction false} SeatKeptInPass(h: History, before: History, s: Schedule, pass: seq<Meeting>, coins: nat -> bool, from: nat, to: nat, did: string)
    requires s.first != "" && s.second != "" && s.first != s.second && from <= to <= |pass|
    requires (forall n :: from <= n < to ==> Proper(s, pass[n])) && Away(pass, from, to, did)
    ensures LastSeat(AllRecorded(h, Games(before, pass, coins)[..to], s.first, s.second), did) ==
            LastSeat(AllRecorded(h, Games(before, pass, coins)[..from], s.first, s.second), did)
  {
    if from < to {
      var rs := Games(before, pass, coins);
      SeatKeptInPass(h, before, s, pass, coins, from, to - 1, did);
      assert rs[..to][..to - 1] == rs[..to - 1];
      MoversArePlayers(before, s, pass[to - 1], coins(to - 1), pass[to - 1].a.did, pass[to - 1].b.did);
      RecordedSeats(AllRecorded(h, rs[..to - 1], s.first, s.second), rs[to - 1], s.first, s.second, did);
    }
  }

  lemma {:induction false} SeatKeptOverPasses(h: History, s: Schedule, coins: nat -> nat -> bool, i: nat, j: nat, did: string)
    requires WellFormed(s) && i <= j <= |s.passes|
    requires forall k :: i <= k < j ==> Away(s.passes[k], 0, |s.passes[k]|, did)
    ensures LastSeat(BeforePass(h, s, coins, j), did) == LastSeat(BeforePass(h, s, coins, i), did)
  {
    if i < j {
      SeatKeptOverPasses(h, s, coins, i, j - 1, did);
      var before, pass := BeforePass(h, s, coins, j - 1), s.passes[j - 1];
      var rs := Games(before, pass, coins(j - 1));
      assert forall n :: 0 <= n < |pass| ==> Proper(s, pass[n]);
      SeatKeptInPass(before, before, s, pass, coins(j - 1), 0, |pass|, did);
      assert rs[..|pass|] == rs && rs[..0] == [];
    }
  }

  // ---- consecutive games of two agents -----------------------------------

  predicate Earlier(i: nat, a: nat, j: nat, b: nat) {
    i < j || (i == j && a < b)
  }

  predicate IsGame(s: Schedule, i: nat, a: nat) {
    i < |s.passes| && a < |s.passes[i]|
  }

  /** Game (j, b) is the next game of x and y after (i, a), with whom alone they play. */
  ghost predicate NextGame(s: Schedule, x: string, y: string, i: nat, a: nat, j: nat, b: nat) {
    && IsGame(s, i, a) && IsGame(s, j, b) && Earlier(i, a, j, b) && x != y
    && Between(s.passes[i][a], x, y) && Between(s.passes[j][b], x, y)
    && forall k: nat, n: nat :: IsGame(s, k, n) && Earlier(i, a, k, n) && Earlier(k, n, j, b) ==>
         !Plays(s.passes[k][n], x) && !Plays(s.passes[k][n], y)
  }

  /** After game (i, a), and until the next pass in which either plays, one of the two is stored
      as having moved first and the other second. */
  lemma SeatsAfterGame(h: History, s: Schedule, coins: nat -> nat -> bool, i: nat, a: nat, x: string, y: string)
    requires WellFormed(s) && IsGame(s, i, a) && x != y && Between(s.passes[i][a], x, y)
    requires Away(s.passes[i], a + 1, |s.passes[i]|, x) && Away(s.passes[i], a + 1, |s.passes[i]|, y)
    ensures var r, after := GameAt(h, s, coins, i, a), BeforePass(h, s, coins, i + 1);
      LastSeat(after, FirstMover(r, s.first)) == s.first && LastSeat(after, SecondMover(r, s.first)) == s.second
  {
    var before, pass := BeforePass(h, s, coins, i), s.passes[i];
    var rs := Games(before, pass, coins(i));
    assert rs[..a + 1][..a] == rs[..a] && rs[..|pass|] == rs;
    assert forall n :: 0 <= n < |pass| ==> Proper(s, pass[n]);
    MoversArePlayers(before, s, pass[a], coins(i)(a), x, y);
    RecordedSeats(AllRecorded(before, rs[..a], s.first, s.second), rs[a], s.first, s.second, x);
    RecordedSeats(AllRecorded(before, rs[..a], s.first, s.second), rs[a], s.first, s.second, y);
    SeatKeptInPass(before, before, s, pass, coins(i), a + 1, |pass|, x);
    SeatKeptInPass(before, before, s, pass, coins(i), a + 1, |pass|, y);
  }

  /** Neither plays after game (i, a) and before pass j. */
  predicate Quiet(s: Schedule, x: string, y: string, i: nat, a: nat, j: nat)
    requires i < j < |s.passes|
  {
    && Away(s.passes[i], a + 1, |s.passes[i]|, x) && Away(s.passes[i], a + 1, |s.passes[i]|, y)
    && (forall k :: i < k < j ==> Away(s.passes[k], 0, |s.passes[k]|, x))
    && (forall k :: i < k < j ==> Away(s.passes[k], 0, |s.passes[k]|, y))
  }

  lemma AwayAfter(s: Schedule, x: string, y: string, i: nat, a: nat, j: nat, b: nat)
    requires NextGame(s, x, y, i, a, j, b) && i < j
    ensures Away(s.passes[i], a + 1, |s.passes[i]|, x) && Away(s.passes[i], a + 1, |s.passes[i]|, y)
  {
    forall n | a + 1 <= n < |s.passes[i]| ensures !Plays(s.passes[i][n], x) && !Plays(s.passes[i][n], y) {
      assert IsGame(s, i, n) && Earlier(i, a, i, n) && Earlier(i, n, j, b);
    }
  }

  lemma AwayBetween(s: Schedule, x: string, y: string, i: nat, a: nat, j: nat, b: nat, k: nat)
    requires NextGame(s, x, y, i, a, j, b) && i < k < j
    ensures Away(s.passes[k], 0, |s.passes[k]|, x) && Away(s.passes[k], 0, |s.passes[k]|, y)
  {
    forall n | 0 <= n < |s.passes[k]| ensures !Plays(s.passes[k][n], x) && !Plays(s.passes[k][n], y) {
      assert IsGame(s, k, n) && Earlier(i, a, k, n) && Earlier(k, n, j, b);
    }
  }

  lemma NextIsQuiet(s: Schedule, x: string, y: string, i: nat, a: nat, j: nat, b: nat)
    requires NextGame(s, x, y, i, a, j, b) && i < j
    ensures Quiet(s, x, y, i, a, j)
  {
    AwayAfter(s, x, y, i, a, j, b);
    forall k | i < k < j ensures Away(s.passes[k], 0, |s.passes[k]|, x) && Away(s.passes[k], 0, |s.passes[k]|, y) {
      AwayBetween(s, x, y, i, a, j, b, k);
    }
  }

  /** One of the two is stored as having moved first, the other second, when pass j begins. */
  lemma SeatsBeforeNext(h: History, s: Schedule, coins: nat -> nat -> bool, x: string, y: string, i: nat, a: nat, j: nat)
    requires WellFormed(s) && IsGame(s, i, a) && i < j < |s.passes| && x != y && Between(s.passes[i][a], x, y) && Quiet(s, x, y, i, a, j)
    ensures var r, before := GameAt(h, s, coins, i, a), BeforePass(h, s, coins, j);
      LastSeat(before, FirstMover(r, s.first)) == s.first && LastSeat(before, SecondMover(r, s.first)) == s.second
  {
    SeatsAfterGame(h, s, coins, i, a, x, y);
    SeatKeptOverPasses(h, s, coins, i + 1, j, x);
    SeatKeptOverPasses(h, s, coins, i + 1, j, y);
    assert Proper(s, s.passes[i][a]);
    MoversArePlayers(BeforePass(h, s, coins, i), s, s.passes[i][a], coins(i)(a), x, y);
  }

  lemma QuietChanges(h: History, s: Schedule, coins: nat -> nat -> bool, x: string, y: string, i: nat, a: nat, j: nat, b: nat)
    requires WellFormed(s) && IsGame(s, i, a) && IsGame(s, j, b) && i < j && x != y
    requires Between(s.passes[i][a], x, y) && Between(s.passes[j][b], x, y) && Quiet(s, x, y, i, a, j)
    ensures Changed(GameAt(h, s, coins, i, a), GameAt(h, s, coins, j, b), s.first)
  {
    SeatsBeforeNext(h, s, coins, x, y, i, a, j);
    assert Proper(s, s.passes[i][a]) && Proper(s, s.passes[j][b]);
    MoversArePlayers(BeforePass(h, s, coins, i), s, s.passes[i][a], coins(i)(a), x, y);
    var r := GameAt(h, s, coins, i, a);
    FirstBecomesSecond(BeforePass(h, s, coins, j), s, s.passes[j][b], coins(j)(b), FirstMover(r, s.first), SecondMover(r, s.first));
  }

  lemma OtherPassChanges(h: History, s: Schedule, coins: nat -> nat -> bool, x: string, y: string, i: nat, a: nat, j: nat, b: nat)
    requires WellFormed(s) && NextGame(s, x, y, i, a, j, b) && i < j
    ensures Changed(GameAt(h, s, coins, i, a), GameAt(h, s, coins, j, b), s.first)
  {
    NextIsQuiet(s, x, y, i, a, j, b);
    QuietChanges(h, s, coins, x, y, i, a, j, b);
  }

  /** Two games from the same stored seats, with coins that favour x: whether the seats or the
      coins decide, one agent moves first in both. */
  lemma SameSeatsSameFirst(h: History, s: Schedule, m: Meeting, m': Meeting, x: string, y: string)
    requires s.first != "" && s.second != "" && s.first != s.second && x != y
    requires Proper(s, m) && Proper(s, m') && Between(m, x, y) && Between(m', x, y)
    ensures FirstMover(Made(h, m, m.a.did == x), s.first) == FirstMover(Made(h, m', m'.a.did == x), s.first)
  {
  }

  lemma SamePassRepeats(h: History, s: Schedule, x: string, y: string, i: nat, a: nat, b: nat) returns (coins: nat -> nat -> bool)
    requires WellFormed(s) && NextGame(s, x, y, i, a, i, b)
    ensures !Changed(GameAt(h, s, coins, i, a), GameAt(h, s, coins, i, b), s.first)
  {
    var m, m' := s.passes[i][a], s.passes[i][b];
    coins := (k: nat) => (n: nat) => if n == a then m.a.did == x else m'.a.did == x;
    var before := BeforePass(h, s, coins, i);
    assert Proper(s, m) && Proper(s, m');
    SameSeatsSameFirst(before, s, m, m', x, y);
    MoversArePlayers(before, s, m, m.a.did == x, x, y);
    MoversArePlayers(before, s, m', m'.a.did == x, x, y);
  }

  /** Two agents who only meet each other are sure to change seats from one game to the next,
      whatever the coins, the orientation and whoever else plays, exactly if the two games were
      not paired in one pass. */
  lemma SeatsChangeIff(h: History, s: Schedule, x: string, y: string, i: nat, a: nat, j: nat, b: nat)
    requires WellFormed(s) && NextGame(s, x, y, i, a, j, b)
    ensures (forall coins: nat -> nat -> bool :: Changed(GameAt(h, s, coins, i, a), GameAt(h, s, coins, j, b), s.first)) <==> i != j
  {
    if i != j {
      forall coins: nat -> nat -> bool ensures Changed(GameAt(h, s, coins, i, a), GameAt(h, s, coins, j, b), s.first) {
        OtherPassChanges(h, s, coins, x, y, i, a, j, b);
      }
    } else {
      var coins := SamePassRepeats(h, s, x, y, i, a, b);
    }
  }

  // ---- one seek each -----------------------------------------------------

  /** The meetings a pairing pass decides on. */
  function Meetings(pool: seq<Candidate>, p: Params, picks: seq<Pick>): (pass: seq<Meeting>)
    requires InPool(pool, picks)
    ensures |pass| == |picks|
  {
    seq(|picks|, n requires 0 <= n < |picks| => Meeting(pool[picks[n].0], pool[picks[n].1], p))
  }

  /** The matcher's candidates carry the seats stored when the pass begins. */
  ghost predicate ReadFrom(h: History, cands: seq<Candidate>) {
    forall n :: 0 <= n < |cands| ==> cands[n].lastSeat == LastSeat(h, cands[n].did)
  }

  /** What the pass returns is what the schedule makes of its meetings. */
  lemma PassMakesMeetings(h: History, pool: seq<Candidate>, p: Params, picks: seq<Pick>, flips: nat -> bool, from: nat, n: nat)
    returns (coin: bool)
    requires InPool(pool, picks) && ReadFrom(h, pool) && n < |picks|
    ensures Pairings(pool, p, picks, flips, from)[n] == Made(h, Meetings(pool, p, picks)[n], coin)
  {
    coin := PairingLaws.MadeAt(Ties(p), Makes(p), Couples(pool, picks), flips, from, n);
    var a, b := pool[picks[n].0], pool[picks[n].1];
    assert a.(lastSeat := LastSeat(h, a.did)) == a && b.(lastSeat := LastSeat(h, b.did)) == b;
  }

  ghost predicate OneGameEach(pass: seq<Meeting>) {
    forall n, m :: 0 <= n < m < |pass| ==> NobodyInBoth(pass[n], pass[m])
  }

  predicate NobodyInBoth(m: Meeting, m': Meeting) {
    !Plays(m', m.a.did) && !Plays(m', m.b.did)
  }

  /** While each agent has one eligible seek in the pool, a pass gives nobody two games. */
  lemma OneSeekOneGame(pool: seq<Candidate>, cooldown: bool, p: Params, picks: seq<Pick>)
    requires InPool(pool, picks) && GreedyPicks(pool, cooldown, p, picks)
    requires forall i, j :: 0 <= i < j < |pool| ==> pool[i].did != pool[j].did
    ensures OneGameEach(Meetings(pool, p, picks))
  {
    var pass := Meetings(pool, p, picks);
    forall n, m | 0 <= n < m < |pass| ensures NobodyInBoth(pass[n], pass[m]) {
      PairingLaws.PicksAreSound(pool, cooldown, p, picks, m);
      assert PairingLaws.Apart(picks[n], picks[m]);
    }
  }

  lemma NextIsInAnotherPass(s: Schedule, x: string, y: string, i: nat, a: nat, j: nat, b: nat)
    requires NextGame(s, x, y, i, a, j, b)
    requires forall k :: 0 <= k < |s.passes| ==> OneGameEach(s.passes[k])
    ensures i < j
  {
    var pass := s.passes[i];
    assert forall n :: a < n < |pass| ==> NobodyInBoth(pass[a], pass[n]);
  }

  /** So then two agents who only meet each other change seats in every game after the first. */
  lemma SeatsAlternate(h: History, s: Schedule, coins: nat -> nat -> bool, x: string, y: string, i: nat, a: nat, j: nat, b: nat)
    requires WellFormed(s) && NextGame(s, x, y, i, a, j, b)
    requires forall k :: 0 <= k < |s.passes| ==> OneGameEach(s.passes[k])
    ensures Changed(GameAt(h, s, coins, i, a), GameAt(h, s, coins, j, b), s.first)
  {
    NextIsInAnotherPass(s, x, y, i, a, j, b);
    OtherPassChanges(h, s, coins, x, y, i, a, j, b);
  }

  // ---- two seeks each ----------------------------------------------------

  function Seeker(seekId: string, did: string, createdAt: int, lastSeat: string): Candidate {
    Candidate(seekId, did, 1500, 0, 200, 5, 0, createdAt, "", lastSeat)
  }

  const BUSY_POOL: seq<Candidate> :=
    [Seeker("s1", "x", 1, "white"), Seeker("s2", "y", 2, "black"), Seeker("s3", "x", 3, "white"), Seeker("s4", "y", 4, "black")]

  const BUSY_PARAMS := Params(5, 50, 30, 800, 600, true, {}, "white", "black")

  lemma {:induction false} PoolInOrder(s: seq<Candidate>)
    requires Sorted(s) && forall n :: 0 <= n < |s| ==> !Capped(s[n])
    ensures Uncapped(s) == s && ByWait(s) == s
  {
    if s != [] {
      PoolInOrder(s[..|s| - 1]);
      assert s == s[..|s| - 1] + [s[|s| - 1]];
    }
  }

  lemma BusyPicks()
    ensures GreedyRun(BUSY_POOL, true, BUSY_PARAMS, [(0, 1), (2, 3)])
  {
    var c, p := BUSY_POOL, BUSY_PARAMS;
    assert "x"[0] != "y"[0];
    assert GreedyPick(c, {}, true, p, (0, 1));
    var one: seq<Pick> := [(0, 1)];
    assert one[..0] == [] && Used(one) == {0, 1};
    assert GreedyPick(c, {0, 1}, true, p, (2, 3));
    var two: seq<Pick> := [(0, 1), (2, 3)];
    assert two[..1] == one && Used(two) == {0, 1, 2, 3};
  }

  lemma BusyPoolIsEligible()
    ensures Pool(BUSY_POOL) == BUSY_POOL && CooldownActive(BUSY_POOL, BUSY_PARAMS)
  {
    PoolInOrder(BUSY_POOL);
  }

  /** A meeting of x, who moved first last time, with y: y moves first. */
  lemma BusyMeeting(h: History, m: Meeting, coin: bool)
    requires m.a.did == "x" && m.b.did == "y" && m.p == BUSY_PARAMS
    requires LastSeat(h, "x") == "white" && LastSeat(h, "y") == "black"
    ensures FirstMover(Made(h, m, coin), "white") == "y"
  {
    assert "x"[0] != "y"[0] && "white"[0] != "black"[0];
    FirstBecomesSecond(h, Schedule([], "white", "black"), m, coin, "x", "y");
  }

  /** Two agents with two seeks each, who moved first and second last time, are paired twice in
      one pass, and the same one moves first in both games, whatever the coin. */
  lemma BusyPassRepeats(flips: nat -> bool, from: nat)
    ensures var picks: seq<Pick> := [(0, 1), (2, 3)];
      && InPool(Pool(BUSY_POOL), picks) && ReadFrom(map["x" := "white", "y" := "black"], BUSY_POOL)
      && GreedyRun(Pool(BUSY_POOL), CooldownActive(BUSY_POOL, BUSY_PARAMS), BUSY_PARAMS, picks)
      && var rs := Pairings(Pool(BUSY_POOL), BUSY_PARAMS, picks, flips, from);
         |rs| == 2 && FirstMover(rs[0], "white") == "y" && FirstMover(rs[1], "white") == "y"
  {
    BusyPoolIsEligible();
    BusyPicks();
    assert "x"[0] != "y"[0];
    var picks: seq<Pick> := [(0, 1), (2, 3)];
    var h := map["x" := "white", "y" := "black"];
    var meetings := Meetings(BUSY_POOL, BUSY_PARAMS, picks);
    var c0 := PassMakesMeetings(h, BUSY_POOL, BUSY_PARAMS, picks, flips, from, 0);
    BusyMeeting(h, meetings[0], c0);
    var c1 := PassMakesMeetings(h, BUSY_POOL, BUSY_PARAMS, picks, flips, from, 1);
    BusyMeeting(h, meetings[1], c1);
  }
}
