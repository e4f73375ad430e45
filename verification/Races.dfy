/** Requests that overlap.  A request loads the rows, decides on what it loaded, and commits
    later.  The move table admits one row for each ply, and a finish is conditional on the row
    still being active; nothing else stops a commit on rows that have moved on. */
module Races {
  import opened Wrappers
  import Clock
  import Engine
  import opened Games
  import opened GameRuns

  datatype Commit = Conflict | Committed(rows: World)

  predicate PlyTaken(moves: seq<MoveRow>, ply: int) {
    exists k :: 0 <= k < |moves| && moves[k].ply == ply
  }

  /** The commit of a decision taken on `loaded`, against the rows as they now are.  A move
      fails on a taken ply, and else its row update overwrites every mutable column; so does
      that of a draw offer or a decline.  Any other finish touches the finish columns only. */
  function CommitOf<G>(lib: Engine.Library<G>, loaded: World, cur: World, r: Request): Commit {
    var (decided, resp) := Step(lib, loaded, r);
    var g := decided.game;
    if |decided.moves| > |loaded.moves| then
      var row := decided.moves[|loaded.moves|];
      if PlyTaken(cur.moves, row.ply) then Conflict else Committed(World(g, cur.moves + [row]))
    else if r.OfferDraw? || r.DeclineDraw? then
      Committed(if resp == Done then cur.(game := g) else cur)
    else if loaded.game.active && !g.active && g.result.Some? && g.finishedAt.Some? && cur.game.active then
      Committed(cur.(game := Finish(cur.game, g.result.value, g.finishedAt.value)))
    else Committed(cur)
  }

  /** Nothing happened, or what the request does when it loads and commits at once. */
  predicate Atomic<G>(lib: Engine.Library<G>, loaded: World, cur: World, r: Request) {
    CommitOf(lib, loaded, cur, r) in {Conflict, Committed(cur), Committed(Step(lib, cur, r).0)}
  }

  /** What was loaded lies behind the rows in the same game. */
  ghost predicate Older(loaded: World, cur: World) {
    && loaded.moves <= cur.moves
    && loaded.game.players == cur.game.players && loaded.game.timeControl == cur.game.timeControl
    && loaded.game.startedAt == cur.game.startedAt
  }

  // ---- when a commit is atomic -------------------------------------------

  /** The offer that stands once a player has moved. */
  function OfferLeft(g: Game, player: string): (Option<string>, Option<int>) {
    if g.drawOfferDid == Some(player) then (None, None) else (g.drawOfferDid, g.drawOfferPly)
  }

  /** The rows have moved on from what a decision rests on, and the commit goes through. */
  predicate Overtaken<G>(lib: Engine.Library<G>, loaded: World, cur: World, r: Request) {
    var (decided, resp) := Step(lib, loaded, r);
    var newMoves := |loaded.moves| != |cur.moves|;
    match r
    case Submit(p, _, _, _, _) =>
      if resp.Accepted? && |decided.moves| > |loaded.moves| then
        !newMoves && (!cur.game.active || OfferLeft(loaded.game, p) != OfferLeft(cur.game, p))
      else resp == Rejected(ClockExpired) && newMoves && cur.game.active
    case Resign(_, _) => false
    case OfferDraw(_) => resp == Done && (newMoves || !cur.game.active)
    case DeclineDraw(_) => resp == Done && (newMoves || !cur.game.active)
    case AcceptDraw(p, _) => resp.Finished? && cur.game.active && cur.game.drawOfferDid in {None, Some(p)}
    case Sweep(now) =>
      resp.Finished? && cur.game.active &&
      !(Clock.PastDeadline(cur.game.timeControl, cur.game.clockAnchor, now) && cur.game.turnDid == loaded.game.turnDid)
  }

  /** Active rows with the same moves differ in the draw offer at most. */
  lemma SameMovesSameGame<G>(lib: Engine.Library<G>, loaded: World, cur: World)
    requires Inv(lib, loaded) && Inv(lib, cur) && Older(loaded, cur)
    requires |loaded.moves| == |cur.moves| && loaded.game.active && cur.game.active
    ensures loaded.moves == cur.moves
    ensures cur.game == loaded.game.(drawOfferDid := cur.game.drawOfferDid, drawOfferPly := cur.game.drawOfferPly)
  {
  }

  function WithOffer(w: World, did: Option<string>, ply: Option<int>): World {
    w.(game := w.game.(drawOfferDid := did, drawOfferPly := ply))
  }

  lemma ChecksIgnoreOffer<G>(lib: Engine.Library<G>, w: World, did: Option<string>, ply: Option<int>, r: Request)
    returns (st: Engine.State<G>, seat: string, remaining: int)
    requires r.Submit? && |Submitted(lib, w, r).0.moves| > |w.moves|
    ensures w.game.active && Submitted(lib, w, r) == Played(lib, w, r, st, seat, remaining)
    ensures Submitted(lib, WithOffer(w, did, ply), r) == Played(lib, WithOffer(w, did, ply), r, st, seat, remaining)
  {
    st := Load(lib, w).value;
    seat := SeatOf(w.game.players, r.player).value;
    remaining := Clock.RemainingMs(w.game.timeControl, Anchor(w.game), r.receivedAt).value;
  }

  lemma PlayIgnoresOffer<G>(lib: Engine.Library<G>, w: World, did: Option<string>, ply: Option<int>, r: Request,
                            st: Engine.State<G>, seat: string, remaining: int)
    requires r.Submit? && w.game.active && |Played(lib, w, r, st, seat, remaining).0.moves| > |w.moves|
    ensures var (left, left') := OfferLeft(WithOffer(w, did, ply).game, r.player);
      Played(lib, WithOffer(w, did, ply), r, st, seat, remaining).0 == WithOffer(Played(lib, w, r, st, seat, remaining).0, left, left')
  {
  }

  /** A submission looks at the draw offer only to clear it. */
  lemma OfferDoesNotDecide<G>(lib: Engine.Library<G>, w: World, did: Option<string>, ply: Option<int>, r: Request)
    requires r.Submit? && |Step(lib, w, r).0.moves| > |w.moves|
    ensures var (left, left') := OfferLeft(WithOffer(w, did, ply).game, r.player);
      Step(lib, WithOffer(w, did, ply), r).0 == WithOffer(Step(lib, w, r).0, left, left')
  {
    var st, seat, remaining := ChecksIgnoreOffer(lib, w, did, ply, r);
    PlayIgnoresOffer(lib, w, did, ply, r, st, seat, remaining);
  }

  /** A move on rows with as many moves writes its decision, and on longer ones nothing. */
  lemma MoveCommit<G>(lib: Engine.Library<G>, loaded: World, cur: World, r: Request, decided: World)
    requires r.Submit? && decided == Step(lib, loaded, r).0 && |decided.moves| > |loaded.moves|
    requires Inv(lib, loaded) && MovesInTurn(cur.game.players, cur.moves) && loaded.moves <= cur.moves
    ensures CommitOf(lib, loaded, cur, r) == if |loaded.moves| == |cur.moves| then Committed(decided) else Conflict
    ensures Step(lib, loaded, r).1.Accepted? && loaded.game.active
  {
    LoadIsReplay(lib, loaded);
    SubmittedCases(lib, loaded, r);
    var n := |loaded.moves|;
    if n < |cur.moves| {
      assert cur.moves[n].ply == r.ply;
    } else {
      assert decided.moves == cur.moves + [decided.moves[n]];
    }
  }

  /** A move is overtaken by a finish, or by a draw offer made or declined since. */
  lemma MoveIsAtomicIff<G>(lib: Engine.Library<G>, loaded: World, cur: World, r: Request, decided: World)
    requires r.Submit? && decided == Step(lib, loaded, r).0 && |decided.moves| > |loaded.moves|
    requires Inv(lib, loaded) && Inv(lib, cur) && Older(loaded, cur)
    ensures Atomic(lib, loaded, cur, r) <==> !Overtaken(lib, loaded, cur, r)
  {
    MoveCommit(lib, loaded, cur, r, decided);
    if |loaded.moves| == |cur.moves| && cur.game.active {
      SameMovesSameGame(lib, loaded, cur);
      OfferDoesNotDecide(lib, loaded, cur.game.drawOfferDid, cur.game.drawOfferPly, r);
      OfferDoesNotDecide(lib, loaded, loaded.game.drawOfferDid, loaded.game.drawOfferPly, r);
      assert loaded == WithOffer(loaded, loaded.game.drawOfferDid, loaded.game.drawOfferPly);
      assert cur == WithOffer(loaded, cur.game.drawOfferDid, cur.game.drawOfferPly);
    }
  }

  lemma ExpiryDecision<G>(lib: Engine.Library<G>, w: World, r: Request)
    requires r.Submit? && w.game.ply == |w.moves| && Step(lib, w, r).1 == Rejected(ClockExpired)
    ensures w.game.active && r.ply == |w.moves| + 1
    ensures Step(lib, w, r).0 == w.(game := Finish(w.game, TimeoutOutcome(w.game), r.receivedAt))
  {
  }

  lemma ExpiryIgnoresOffer<G>(lib: Engine.Library<G>, w: World, did: Option<string>, ply: Option<int>, r: Request)
    requires r.Submit? && Step(lib, w, r).1 == Rejected(ClockExpired)
    ensures Step(lib, WithOffer(w, did, ply), r).0 == WithOffer(Step(lib, w, r).0, did, ply)
  {
  }

  lemma TakenPlyIsLeftAlone<G>(lib: Engine.Library<G>, w: World, r: Request)
    requires r.Submit? && (r.ply <= |w.moves| || !w.game.active)
    ensures Step(lib, w, r).0 == w
  {
  }

  /** A finish decided on active rows is atomic exactly where the request would finish the rows
      with the same outcome, or they are finished already. */
  lemma FinishIsAtomicIff<G>(lib: Engine.Library<G>, loaded: World, cur: World, r: Request, outcome: Outcome, at: int)
    requires !r.OfferDraw? && !r.DeclineDraw? && loaded.game.active
    requires Step(lib, loaded, r).0 == loaded.(game := Finish(loaded.game, outcome, at))
    ensures Atomic(lib, loaded, cur, r) <==>
            !cur.game.active || Step(lib, cur, r).0 == cur.(game := Finish(cur.game, outcome, at))
  {
    var decided := Step(lib, loaded, r).0;
    assert decided.game.result == Some(outcome) && decided.game.finishedAt == Some(at) && decided.moves == loaded.moves;
    if cur.game.active {
      var finished := cur.(game := Finish(cur.game, outcome, at));
      assert CommitOf(lib, loaded, cur, r) == Committed(finished);
      assert !finished.game.active;
    }
  }

  lemma NothingIsAtomic<G>(lib: Engine.Library<G>, loaded: World, cur: World, r: Request)
    requires !r.OfferDraw? && !r.DeclineDraw? && Step(lib, loaded, r).0 == loaded
    ensures Atomic(lib, loaded, cur, r)
  {
    assert CommitOf(lib, loaded, cur, r) == Committed(cur);
  }

  lemma TimeoutMatches<G>(lib: Engine.Library<G>, loaded: World, cur: World, r: Request)
    requires r.Submit? && Step(lib, loaded, r).1 == Rejected(ClockExpired)
    requires Inv(lib, loaded) && Inv(lib, cur) && Older(loaded, cur) && cur.game.active
    ensures Step(lib, cur, r).0 == cur.(game := Finish(cur.game, TimeoutOutcome(loaded.game), r.receivedAt)) <==>
            |loaded.moves| == |cur.moves|
  {
    ExpiryDecision(lib, loaded, r);
    if |loaded.moves| == |cur.moves| {
      SameMovesSameGame(lib, loaded, cur);
      ExpiryIgnoresOffer(lib, loaded, cur.game.drawOfferDid, cur.game.drawOfferPly, r);
      assert cur == WithOffer(loaded, cur.game.drawOfferDid, cur.game.drawOfferPly);
    } else {
      TakenPlyIsLeftAlone(lib, cur, r);
    }
  }

  /** A timeout is overtaken by moves. */
  lemma TimeoutIsAtomicIff<G>(lib: Engine.Library<G>, loaded: World, cur: World, r: Request)
    requires r.Submit? && Step(lib, loaded, r).1 == Rejected(ClockExpired)
    requires Inv(lib, loaded) && Inv(lib, cur) && Older(loaded, cur)
    ensures Atomic(lib, loaded, cur, r) <==> !Overtaken(lib, loaded, cur, r)
  {
    ExpiryDecision(lib, loaded, r);
    FinishIsAtomicIff(lib, loaded, cur, r, TimeoutOutcome(loaded.game), r.receivedAt);
    if cur.game.active { TimeoutMatches(lib, loaded, cur, r); }
  }

  lemma SubmissionIsAtomicIff<G>(lib: Engine.Library<G>, loaded: World, cur: World, r: Request)
    requires r.Submit? && Inv(lib, loaded) && Inv(lib, cur) && Older(loaded, cur)
    ensures Atomic(lib, loaded, cur, r) <==> !Overtaken(lib, loaded, cur, r)
  {
    var (decided, resp) := Step(lib, loaded, r);
    if |decided.moves| > |loaded.moves| {
      MoveIsAtomicIff(lib, loaded, cur, r, decided);
    } else if resp == Rejected(ClockExpired) {
      TimeoutIsAtomicIff(lib, loaded, cur, r);
    } else {
      LoadIsReplay(lib, loaded);
      SubmittedCases(lib, loaded, r);
    }
  }

  // ---- the other requests ------------------------------------------------

  lemma ResignationIsAtomic<G>(lib: Engine.Library<G>, loaded: World, cur: World, p: string, now: int)
    requires Inv(lib, loaded) && Inv(lib, cur) && Older(loaded, cur)
    ensures Atomic(lib, loaded, cur, Resign(p, now))
  {
    LoadIsReplay(lib, cur);
  }

  /** What a request does to the draw offer when it is allowed. */
  lemma OfferStep<G>(lib: Engine.Library<G>, w: World, r: Request)
    requires (r.OfferDraw? || r.DeclineDraw?) && Load(lib, w).Ok?
    ensures var allowed := w.game.active && SeatOf(w.game.players, r.player).Some? && (r.OfferDraw? || w.game.drawOfferDid.Some?);
      var (w', resp) := Step(lib, w, r);
      w' == (if !allowed then w
             else if r.OfferDraw? then WithOffer(w, Some(r.player), Some(w.game.ply)) else WithOffer(w, None, None))
      && (resp == Done <==> allowed)
  {
  }

  /** A row update decided on `loaded` keeps the game of the rows if they have the same moves. */
  lemma OfferFits<G>(lib: Engine.Library<G>, loaded: World, cur: World, did: Option<string>, ply: Option<int>)
    requires Inv(lib, loaded) && Inv(lib, cur) && Older(loaded, cur) && loaded.game.active
    ensures var rows, same := cur.(game := WithOffer(loaded, did, ply).game), |loaded.moves| == |cur.moves| && cur.game.active;
      && (same ==> rows == WithOffer(cur, did, ply) && cur.game.ply == loaded.game.ply)
      && (!same ==> rows != cur && forall ply' :: rows != WithOffer(cur, did, ply'))
  {
    if |loaded.moves| == |cur.moves| && cur.game.active { SameMovesSameGame(lib, loaded, cur); }
  }

  /** One that is refused writes nothing. */
  lemma RefusedOfferIsAtomic<G>(lib: Engine.Library<G>, loaded: World, cur: World, r: Request)
    requires (r.OfferDraw? || r.DeclineDraw?) && Step(lib, loaded, r).1 != Done
    ensures Atomic(lib, loaded, cur, r) && !Overtaken(lib, loaded, cur, r)
  {
    assert CommitOf(lib, loaded, cur, r) == Committed(cur);
  }

  /** An offer or a decline is overtaken by moves and finishes. */
  lemma OfferIsAtomicIff<G>(lib: Engine.Library<G>, loaded: World, cur: World, r: Request)
    requires (r.OfferDraw? || r.DeclineDraw?) && Inv(lib, loaded) && Inv(lib, cur) && Older(loaded, cur)
    ensures Atomic(lib, loaded, cur, r) <==> !Overtaken(lib, loaded, cur, r)
  {
    if Step(lib, loaded, r).1 == Done {
      LoadIsReplay(lib, loaded);
      LoadIsReplay(lib, cur);
      OfferStep(lib, loaded, r);
      OfferStep(lib, cur, r);
      var did, ply := if r.OfferDraw? then Some(r.player) else None, if r.OfferDraw? then Some(loaded.game.ply) else None;
      assert CommitOf(lib, loaded, cur, r) == Committed(cur.(game := WithOffer(loaded, did, ply).game));
      OfferFits(lib, loaded, cur, did, ply);
    } else {
      RefusedOfferIsAtomic(lib, loaded, cur, r);
    }
  }

  lemma AgreementStep<G>(lib: Engine.Library<G>, w: World, p: string, now: int)
    requires Load(lib, w).Ok?
    ensures var agrees := w.game.active && SeatOf(w.game.players, p).Some? && w.game.drawOfferDid !in {None, Some(p)};
      var (w', resp) := Step(lib, w, AcceptDraw(p, now));
      w' == (if agrees then w.(game := Finish(w.game, Outcome(false, "", Agreement), now)) else w) && (resp.Finished? <==> agrees)
  {
  }

  /** An acceptance is overtaken when the offer is withdrawn or replaced by one's own. */
  lemma AgreementIsAtomicIff<G>(lib: Engine.Library<G>, loaded: World, cur: World, p: string, now: int)
    requires Inv(lib, loaded) && Inv(lib, cur) && Older(loaded, cur)
    ensures Atomic(lib, loaded, cur, AcceptDraw(p, now)) <==> !Overtaken(lib, loaded, cur, AcceptDraw(p, now))
  {
    var r := AcceptDraw(p, now);
    LoadIsReplay(lib, loaded);
    LoadIsReplay(lib, cur);
    AgreementStep(lib, loaded, p, now);
    AgreementStep(lib, cur, p, now);
    if Step(lib, loaded, r).1.Finished? {
      FinishIsAtomicIff(lib, loaded, cur, r, Outcome(false, "", Agreement), now);
    } else {
      NothingIsAtomic(lib, loaded, cur, r);
    }
  }

  lemma TimeoutNames(g: Game, g': Game)
    requires TwoSeats(g.players) && g'.players == g.players && g.turnDid.Some? && g'.turnDid.Some?
    requires SeatOf(g.players, g.turnDid.value).Some? && SeatOf(g.players, g'.turnDid.value).Some?
    ensures TimeoutOutcome(g) == TimeoutOutcome(g') <==> g.turnDid == g'.turnDid
  {
    TwoPlayerLookups(g.players, g.turnDid.value);
    TwoPlayerLookups(g.players, g'.turnDid.value);
  }

  lemma SweepStep<G>(lib: Engine.Library<G>, w: World, now: int)
    requires Load(lib, w).Ok?
    ensures var expired := w.game.active && Clock.PastDeadline(w.game.timeControl, w.game.clockAnchor, now);
      var (w', resp) := Step(lib, w, Sweep(now));
      w' == (if expired then w.(game := Finish(w.game, TimeoutOutcome(w.game), now)) else w) && (resp.Finished? <==> expired)
  {
  }

  /** A sweep is overtaken unless the rows are past the deadline with the same player to move. */
  lemma SweepIsAtomicIff<G>(lib: Engine.Library<G>, loaded: World, cur: World, now: int)
    requires Inv(lib, loaded) && Inv(lib, cur) && Older(loaded, cur)
    ensures Atomic(lib, loaded, cur, Sweep(now)) <==> !Overtaken(lib, loaded, cur, Sweep(now))
  {
    var r := Sweep(now);
    LoadIsReplay(lib, loaded);
    LoadIsReplay(lib, cur);
    SweepStep(lib, loaded, now);
    SweepStep(lib, cur, now);
    if Step(lib, loaded, r).1.Finished? {
      FinishIsAtomicIff(lib, loaded, cur, r, TimeoutOutcome(loaded.game), now);
      OnMoveIsSeated(lib, loaded);
      OnMoveIsSeated(lib, cur);
      TimeoutNames(loaded.game, cur.game);
    } else {
      NothingIsAtomic(lib, loaded, cur, r);
    }
  }

  lemma OnMoveIsSeated<G>(lib: Engine.Library<G>, w: World)
    requires Inv(lib, w)
    ensures w.game.turnDid.Some? && SeatOf(w.game.players, w.game.turnDid.value).Some?
  {
    SeatArithmetic(w.game.players, w.game.ply);
  }

  /** A commit does what its request would do at once, or nothing, exactly if it is not overtaken. */
  lemma CommitIsAtomicIff<G>(lib: Engine.Library<G>, loaded: World, cur: World, r: Request)
    requires Inv(lib, loaded) && Inv(lib, cur) && Older(loaded, cur)
    ensures Atomic(lib, loaded, cur, r) <==> !Overtaken(lib, loaded, cur, r)
  {
    match r
    case Submit(_, _, _, _, _) => SubmissionIsAtomicIff(lib, loaded, cur, r);
    case Resign(p, now) => ResignationIsAtomic(lib, loaded, cur, p, now);
    case OfferDraw(_) => OfferIsAtomicIff(lib, loaded, cur, r);
    case AcceptDraw(p, now) => AgreementIsAtomicIff(lib, loaded, cur, p, now);
    case DeclineDraw(_) => OfferIsAtomicIff(lib, loaded, cur, r);
    case Sweep(now) => SweepIsAtomicIff(lib, loaded, cur, now);
  }

  /** With nothing in between, a commit is the atomic request. */
  lemma CommitUnchanged<G>(lib: Engine.Library<G>, w: World, r: Request)
    requires Inv(lib, w)
    ensures CommitOf(lib, w, w, r) == Committed(Step(lib, w, r).0)
  {
    LoadIsReplay(lib, w);
    if r.Submit? {
      SubmittedCases(lib, w, r);
      if |Step(lib, w, r).0.moves| > |w.moves| { MoveCommit(lib, w, w, r, Step(lib, w, r).0); }
    }
  }

  // ---- runs --------------------------------------------------------------

  /** Rows, and what every request under way has loaded. */
  datatype Shared = Shared(rows: World, loaded: map<nat, World>)

  datatype Event = LoadRows(who: nat) | CommitRows(who: nat, r: Request)

  /** A conflict sends the submission back to load again. */
  function Next<G>(lib: Engine.Library<G>, s: Shared, e: Event): Shared {
    match e
    case LoadRows(who) => s.(loaded := s.loaded[who := s.rows])
    case CommitRows(who, r) =>
      if who !in s.loaded then s
      else
        match CommitOf(lib, s.loaded[who], s.rows, r)
        case Conflict => s.(loaded := s.loaded[who := s.rows])
        case Committed(rows) => Shared(rows, s.loaded - {who})
  }

  function Run<G>(lib: Engine.Library<G>, s: Shared, events: seq<Event>): Shared {
    if events == [] then s
    else Next(lib, Run(lib, s, events[..|events| - 1]), events[|events| - 1])
  }

  predicate Fresh<G>(lib: Engine.Library<G>, s: Shared, e: Event) {
    e.CommitRows? && e.who in s.loaded ==> !Overtaken(lib, s.loaded[e.who], s.rows, e.r)
  }

  /** No commit of the run is overtaken. */
  predicate NoneOvertaken<G>(lib: Engine.Library<G>, s: Shared, events: seq<Event>) {
    events == [] ||
    (NoneOvertaken(lib, s, events[..|events| - 1]) && Fresh(lib, Run(lib, s, events[..|events| - 1]), events[|events| - 1]))
  }

  ghost predicate Good<G>(lib: Engine.Library<G>, s: Shared) {
    Inv(lib, s.rows) && forall who :: who in s.loaded ==> Inv(lib, s.loaded[who]) && Older(s.loaded[who], s.rows)
  }

  lemma StepKeepsOlder<G>(lib: Engine.Library<G>, loaded: World, cur: World, r: Request)
    requires Older(loaded, cur)
    ensures Older(loaded, Step(lib, cur, r).0)
  {
    StepOnlyAppends(lib, cur, r);
  }

  lemma AtomicKeepsGood<G(!new)>(lib: Engine.Library<G>, s: Shared, who: nat, r: Request)
    requires Engine.Lawful(lib) && Good(lib, s)
    ensures Good(lib, Shared(Step(lib, s.rows, r).0, s.loaded - {who}))
  {
    StepKeepsInv(lib, s.rows, r);
    forall other | other in s.loaded ensures Older(s.loaded[other], Step(lib, s.rows, r).0) {
      StepKeepsOlder(lib, s.loaded[other], s.rows, r);
    }
  }

  lemma ReloadKeepsGood<G>(lib: Engine.Library<G>, s: Shared, who: nat)
    requires Good(lib, s)
    ensures Good(lib, s.(loaded := s.loaded[who := s.rows])) && Good(lib, s.(loaded := s.loaded - {who}))
  {
    assert Older(s.rows, s.rows);
    var loaded := s.loaded[who := s.rows];
    forall other | other in loaded ensures Inv(lib, loaded[other]) && Older(loaded[other], s.rows) {
      assert other == who || loaded[other] == s.loaded[other];
    }
  }

  /** One event changes the rows as an atomic request would, or not at all, exactly if it is
      not an overtaken commit. */
  lemma NextIsAtomicIff<G(!new)>(lib: Engine.Library<G>, s: Shared, e: Event)
    requires Engine.Lawful(lib) && Good(lib, s)
    ensures var rows := Next(lib, s, e).rows;
      Fresh(lib, s, e) <==> rows == s.rows || (e.CommitRows? && rows == Step(lib, s.rows, e.r).0)
    ensures Fresh(lib, s, e) ==> Good(lib, Next(lib, s, e))
  {
    ReloadKeepsGood(lib, s, e.who);
    if e.CommitRows? && e.who in s.loaded {
      CommitIsAtomicIff(lib, s.loaded[e.who], s.rows, e.r);
      AtomicKeepsGood(lib, s, e.who, e.r);
    }
  }

  /** Every interleaving of overlapping requests in which no commit is overtaken ends in rows
      that some sequence of atomic requests produces. */
  lemma {:induction false} RacesAreSequential<G(!new)>(lib: Engine.Library<G>, w: World, events: seq<Event>) returns (reqs: seq<Request>)
    requires Engine.Lawful(lib) && Inv(lib, w) && NoneOvertaken(lib, Shared(w, map[]), events)
    ensures Run(lib, Shared(w, map[]), events).rows == After(lib, w, reqs)
    ensures Good(lib, Run(lib, Shared(w, map[]), events))
    ensures |reqs| <= |events|
  {
    if events == [] {
      reqs := [];
    } else {
      var e := events[|events| - 1];
      reqs := RacesAreSequential(lib, w, events[..|events| - 1]);
      var before := Run(lib, Shared(w, map[]), events[..|events| - 1]);
      NextIsAtomicIff(lib, before, e);
      if Next(lib, before, e).rows != before.rows {
        assert (reqs + [e.r])[..|reqs|] == reqs;
        reqs := reqs + [e.r];
      }
    }
  }

  // ---- what an overtaken commit does -------------------------------------

  /** Committed after the same ply was accepted, a timeout ends a game that the atomic request
      would have left alone. */
  lemma StaleTimeoutEndsTheGame<G>(lib: Engine.Library<G>, loaded: World, cur: World, r: Request)
    requires r.Submit? && loaded.game.ply == |loaded.moves| && cur.game.active && |loaded.moves| < |cur.moves|
    requires Step(lib, loaded, r).1 == Rejected(ClockExpired)
    ensures Step(lib, cur, r).0 == cur
    ensures CommitOf(lib, loaded, cur, r) == Committed(cur.(game := Finish(cur.game, TimeoutOutcome(loaded.game), r.receivedAt)))
  {
    ExpiryDecision(lib, loaded, r);
    TakenPlyIsLeftAlone(lib, cur, r);
  }

  /** A move committed over a finished game brings it back, unless the move itself ends it. */
  lemma LateMoveRevives<G>(lib: Engine.Library<G>, loaded: World, cur: World, r: Request)
    requires r.Submit? && Inv(lib, loaded) && Inv(lib, cur) && Older(loaded, cur)
    requires |loaded.moves| == |cur.moves| && !cur.game.active && |Step(lib, loaded, r).0.moves| > |loaded.moves|
    ensures Step(lib, cur, r).0 == cur
    ensures CommitOf(lib, loaded, cur, r) == Committed(Step(lib, loaded, r).0)
  {
    MoveCommit(lib, loaded, cur, r, Step(lib, loaded, r).0);
    TakenPlyIsLeftAlone(lib, cur, r);
  }

  lemma {:induction false} BehindStaysStuck<G>(lib: Engine.Library<G>, w: World, reqs: seq<Request>)
    requires w.game.ply < |w.moves|
    ensures After(lib, w, reqs).moves == w.moves && After(lib, w, reqs).game.ply == w.game.ply
  {
    if reqs != [] {
      BehindStaysStuck(lib, w, reqs[..|reqs| - 1]);
      BehindRefusesMoves(lib, After(lib, w, reqs[..|reqs| - 1]), reqs[|reqs| - 1]);
    }
  }

  lemma BehindRefusesMoves<G>(lib: Engine.Library<G>, w: World, r: Request)
    requires w.game.ply < |w.moves|
    ensures Step(lib, w, r).0.moves == w.moves && Step(lib, w, r).0.game.ply == w.game.ply
  {
  }

  /** A draw offer or a decline committed after a move sets the ply back, and then no move is
      accepted in that game ever again. */
  lemma StaleOfferStops<G>(lib: Engine.Library<G>, loaded: World, cur: World, r: Request, reqs: seq<Request>)
    requires (r.OfferDraw? || r.DeclineDraw?) && Inv(lib, loaded) && Older(loaded, cur)
    requires |loaded.moves| < |cur.moves| && Step(lib, loaded, r).1 == Done
    ensures CommitOf(lib, loaded, cur, r).Committed?
    ensures After(lib, CommitOf(lib, loaded, cur, r).rows, reqs).moves == cur.moves
  {
    LoadIsReplay(lib, loaded);
    OfferStep(lib, loaded, r);
    BehindStaysStuck(lib, CommitOf(lib, loaded, cur, r).rows, reqs);
  }
}
