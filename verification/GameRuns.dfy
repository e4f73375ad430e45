/** What every sequence of requests keeps, from a game's creation on. */
module GameRuns {
  import opened Wrappers
  import Clock
  import Engine
  import opened Games

  // ---- runs --------------------------------------------------------------

  /** The rows after a list of requests. */
  function After<G>(lib: Engine.Library<G>, w: World, reqs: seq<Request>): World {
    if reqs == [] then w
    else Step(lib, After(lib, w, reqs[..|reqs| - 1]), reqs[|reqs| - 1]).0
  }

  // ---- the invariant -----------------------------------------------------

  ghost predicate TwoSeats(players: seq<Player>) {
    && |players| == 2
    && players[0].seat == "white" && players[1].seat == "black"
    && players[0].did != players[1].did
  }

  /** Plies are 1, 2, ..., and ply k was played by the seat its parity names. */
  ghost predicate MovesInTurn(players: seq<Player>, moves: seq<MoveRow>) {
    |players| == 2 &&
    forall k :: 0 <= k < |moves| ==> moves[k].ply == k + 1 && moves[k].player == players[k % 2].did
  }

  /** The turn column, the stored snapshot and the replayed moves describe one state. */
  ghost predicate RowAgreesWithEngine<G>(lib: Engine.Library<G>, w: World) {
    var st := Engine.Replayed(lib, Payloads(w.moves));
    && st.Ok?
    && |w.game.players| == 2
    && w.game.ply == |w.moves|
    && w.game.turnDid == Some(w.game.players[w.game.ply % 2].did)
    && w.game.snapshot == Some(Engine.SnapshotOf(lib, st.value))
    && Engine.Seat(lib.blackToMove(st.value.game)) == w.game.players[w.game.ply % 2].seat
    && (w.game.active ==> Engine.TerminalOf(lib, st.value) == Ok(None))
  }

  /** Finished exactly when there is a result; a winner is a player, and is not the player
      left on the move unless that player's opponent resigned. */
  ghost predicate ResultMakesSense(g: Game) {
    && (g.active <==> g.result == None)
    && (g.active <==> g.finishedAt == None)
    && (g.result.Some? ==>
          var o := g.result.value;
          if o.win then
            && (exists p :: p in g.players && p.did == o.winner)
            && (o.reason != Resignation ==> g.turnDid != Some(o.winner))
          else o.winner == "")
  }

  /** An offer stands for at most one further ply, and then its maker is to move. */
  ghost predicate OfferIsRecent(g: Game) {
    && (g.drawOfferDid.Some? <==> g.drawOfferPly.Some?)
    && (g.drawOfferDid.Some? ==>
          && (exists p :: p in g.players && p.did == g.drawOfferDid.value)
          && g.drawOfferPly.value <= g.ply <= g.drawOfferPly.value + 1
          && (g.ply == g.drawOfferPly.value + 1 ==> !g.active || g.turnDid == g.drawOfferDid))
  }

  function Receipt(startedAt: int, moves: seq<MoveRow>): int {
    if moves == [] then startedAt else moves[|moves| - 1].receivedAt
  }

  /** Each move recorded what its clock had left, counted from the receipt before it. */
  ghost predicate ClocksRecorded(tc: Clock.TimeControl, startedAt: int, moves: seq<MoveRow>) {
    forall k :: 0 <= k < |moves| ==>
      moves[k].clockRemainingMs > 0 &&
      Clock.RemainingMs(tc, Some(Receipt(startedAt, moves[..k])), moves[k].receivedAt) == Ok(moves[k].clockRemainingMs)
  }

  ghost predicate ClockInOrder(w: World) {
    && w.game.startedAt.Some?
    && Clock.Budget(w.game.timeControl).Ok?
    && w.game.clockAnchor == Some(Receipt(w.game.startedAt.value, w.moves))
    && ClocksRecorded(w.game.timeControl, w.game.startedAt.value, w.moves)
  }

  ghost predicate Inv<G>(lib: Engine.Library<G>, w: World) {
    && TwoSeats(w.game.players)
    && MovesInTurn(w.game.players, w.moves)
    && RowAgreesWithEngine(lib, w)
    && ResultMakesSense(w.game)
    && OfferIsRecent(w.game)
    && ClockInOrder(w)
  }

  // ---- creation establishes it -------------------------------------------

  lemma CreatedIsSound<G(!new)>(lib: Engine.Library<G>, players: seq<Player>, tc: Clock.TimeControl, startedAt: int)
    requires Engine.Lawful(lib)
    requires Created(lib, players, tc, startedAt).Ok?
    requires players[0].did != players[1].did
    ensures Inv(lib, Created(lib, players, tc, startedAt).value)
  {
  }

  // ---- lookups among two players -----------------------------------------

  lemma TwoPlayerLookups(players: seq<Player>, did: string)
    requires TwoSeats(players)
    ensures SeatOf(players, did).Some? <==> exists p :: p in players && p.did == did
    ensures SeatOf(players, players[0].did) == Some("white") && SeatOf(players, players[1].did) == Some("black")
    ensures OpponentOf(players, players[0].did) == players[1].did
    ensures OpponentOf(players, players[1].did) == players[0].did
    ensures HolderOf(players, "white") == players[0].did && HolderOf(players, "black") == players[1].did
    ensures NextSeatDid(players, "white") == players[1].did && NextSeatDid(players, "black") == players[0].did
  {
    assert players == [players[0], players[1]];
    assert players[..1] == [players[0]] && players[1..] == [players[1]];
    assert players[0].seat != players[1].seat by { assert players[0].seat[0] != players[1].seat[0]; }
    assert players[1..][1..] == [] && players[..1][..0] == [];
    assert SeatOf(players[1..], did) == if players[1].did == did then Some("black") else None;
    assert SeatOf(players, did).Some? <==> did == players[0].did || did == players[1].did;
    assert players[0] in players && players[1] in players;
  }

  // ---- one accepted move -------------------------------------------------

  /** The facts an accepted move is made from. */
  ghost predicate IsMove<G>(lib: Engine.Library<G>, w: World, r: Request, w': World) {
    && r.Submit?
    && w.game.active
    && var st := Engine.Replayed(lib, Payloads(w.moves));
    st.Ok?
    && var next := Engine.Apply(lib, st.value, r.payload);
    next.Ok?
    && var term := Engine.TerminalOf(lib, next.value);
    term.Ok?
    && SeatOf(w.game.players, r.player).Some?
    && w.game.turnDid == Some(r.player)
    && r.ply == |w.moves| + 1
    && |w'.moves| == |w.moves| + 1 && w'.moves[..|w.moves|] == w.moves
    && var row := w'.moves[|w.moves|];
    row.ply == r.ply && row.player == r.player && row.payload == r.payload && row.receivedAt == r.receivedAt
    && row.token == r.token && row.clockRemainingMs > 0
    && Clock.RemainingMs(w.game.timeControl, w.game.clockAnchor, r.receivedAt) == Ok(row.clockRemainingMs)
    && w'.game == Moved(lib, w.game, SeatOf(w.game.players, r.player).value, r, next.value, term.value)
  }

  /** Loading agrees with replay whether or not anything was played. */
  lemma LoadIsReplay<G>(lib: Engine.Library<G>, w: World)
    requires RowAgreesWithEngine(lib, w)
    ensures Load(lib, w) == Engine.Replayed(lib, Payloads(w.moves))
    ensures Engine.Relived(lib, w.game.snapshot.value.moves) == Engine.Replayed(lib, Payloads(w.moves))
  {
    Engine.RestoreUndoesSnapshot(lib, Payloads(w.moves));
    if w.moves == [] { assert Payloads(w.moves) == []; }
  }

  /** A submission either leaves the moves alone or is a move. */
  lemma SubmittedCases<G>(lib: Engine.Library<G>, w: World, r: Request)
    requires r.Submit? && w.game.ply == |w.moves| && w.game.clockAnchor.Some?
    requires Load(lib, w) == Engine.Replayed(lib, Payloads(w.moves))
    ensures var (w', resp) := Step(lib, w, r);
      || w' == w
      || (w' == w.(game := Finish(w.game, TimeoutOutcome(w.game), r.receivedAt)) && w.game.active && resp == Rejected(ClockExpired))
      || (IsMove(lib, w, r, w') && resp.Accepted? && resp.acceptance.move == w'.moves[|w.moves|] && resp.acceptance.terminal == w'.game.result)
  {
  }

  lemma {:induction false} PayloadsExtend(moves: seq<MoveRow>, moves': seq<MoveRow>)
    requires |moves'| == |moves| + 1 && moves'[..|moves|] == moves
    ensures Payloads(moves')[..|moves|] == Payloads(moves)
    ensures Payloads(moves')[|moves|] == moves'[|moves|].payload
  {
  }

  /** How a move changes the row, in terms of the row alone. */
  ghost predicate RowAdvances(g: Game, player: string, at: int, g': Game) {
    && |g.players| == 2
    && g'.players == g.players && g'.timeControl == g.timeControl && g'.startedAt == g.startedAt
    && g'.ply == g.ply + 1 && g'.clockAnchor == Some(at)
    && g'.turnDid == Some(g.players[g'.ply % 2].did)
    && player == g.players[g.ply % 2].did
    && g'.drawOfferDid == (if g.drawOfferDid == Some(player) then None else g.drawOfferDid)
    && g'.drawOfferPly == (if g.drawOfferDid == Some(player) then None else g.drawOfferPly)
    && (g'.active <==> g'.result == None) && (g'.active <==> g'.finishedAt == None)
  }

  lemma SeatArithmetic(players: seq<Player>, n: nat)
    requires TwoSeats(players)
    ensures SeatOf(players, players[n % 2].did) == Some(Engine.Seat(n % 2 == 1))
    ensures NextSeatDid(players, Engine.Seat(n % 2 == 1)) == players[(n + 1) % 2].did
    ensures HolderOf(players, Engine.Seat(n % 2 == 1)) == players[n % 2].did
  {
    TwoPlayerLookups(players, players[0].did);
  }

  lemma MovedAdvances<G>(lib: Engine.Library<G>, g: Game, r: Request, seat: string, next: Engine.State<G>, term: Option<Engine.Terminal>)
    requires r.Submit? && g.active && |g.players| == 2 && g.ply >= 0 && r.ply == g.ply + 1
    requires r.player == g.players[g.ply % 2].did
    requires NextSeatDid(g.players, seat) == g.players[(g.ply + 1) % 2].did
    requires g.result == None && g.finishedAt == None
    ensures RowAdvances(g, r.player, r.receivedAt, Moved(lib, g, seat, r, next, term))
  {
  }

  lemma MoveAdvancesRow<G>(lib: Engine.Library<G>, w: World, r: Request, w': World)
    requires Inv(lib, w) && IsMove(lib, w, r, w')
    ensures RowAdvances(w.game, r.player, r.receivedAt, w'.game)
  {
    SeatArithmetic(w.game.players, w.game.ply);
    var next := Engine.Apply(lib, Engine.Replayed(lib, Payloads(w.moves)).value, r.payload).value;
    MovedAdvances(lib, w.game, r, SeatOf(w.game.players, r.player).value, next, Engine.TerminalOf(lib, next).value);
  }

  lemma MoveKeepsTurns(w: World, r: Request, w': World)
    requires r.Submit? && MovesInTurn(w.game.players, w.moves) && w.game.ply == |w.moves|
    requires RowAdvances(w.game, r.player, r.receivedAt, w'.game)
    requires |w'.moves| == |w.moves| + 1 && w'.moves[..|w.moves|] == w.moves
    requires w'.moves[|w.moves|].ply == |w'.moves| && w'.moves[|w.moves|].player == r.player
    ensures MovesInTurn(w'.game.players, w'.moves)
  {
  }

  lemma MoveKeepsOffer(g: Game, player: string, at: int, g': Game)
    requires TwoSeats(g.players) && OfferIsRecent(g) && g.active && g.turnDid == Some(player)
    requires RowAdvances(g, player, at, g')
    ensures OfferIsRecent(g')
  {
  }

  lemma MoveKeepsEngine<G(!new)>(lib: Engine.Library<G>, w: World, r: Request, w': World)
    requires Engine.Lawful(lib) && Inv(lib, w) && IsMove(lib, w, r, w')
    ensures RowAgreesWithEngine(lib, w')
  {
    MoveAdvancesRow(lib, w, r, w');
    PayloadsExtend(w.moves, w'.moves);
    assert Engine.Replayed(lib, Payloads(w'.moves)) ==
           Engine.Apply(lib, Engine.Replayed(lib, Payloads(w.moves)).value, r.payload);
    Engine.TurnIsParity(lib, Payloads(w'.moves));
  }

  /** A win on the board goes to the player who made the last move. */
  lemma BoardWinGoesToMover<G(!new)>(lib: Engine.Library<G>, w: World, r: Request, w': World)
    requires Engine.Lawful(lib) && Inv(lib, w) && IsMove(lib, w, r, w')
    ensures w'.game.result.Some? ==>
              var o := w'.game.result.value;
              if o.win then o.winner == r.player && o.reason != Resignation else o.winner == ""
  {
    var before := Engine.Replayed(lib, Payloads(w.moves)).value;
    var next := Engine.Apply(lib, before, r.payload).value;
    Engine.ApplyPassesTheTurn(lib, before, r.payload);
    Engine.TurnIsParity(lib, Payloads(w.moves));
    SeatArithmetic(w.game.players, w.game.ply);
    TerminalWinner(lib, next);
  }

  /** A decided game is won by the side not to move. */
  lemma TerminalWinner<G>(lib: Engine.Library<G>, s: Engine.State<G>)
    requires Engine.TerminalOf(lib, s).Ok?
    ensures var t := Engine.TerminalOf(lib, s).value;
      t.Some? && t.value.win ==> t.value.winnerSeat == Engine.Seat(!lib.blackToMove(s.game))
  {
  }

  lemma MoveKeepsClock(w: World, r: Request, w': World)
    requires r.Submit? && ClockInOrder(w) && RowAdvances(w.game, r.player, r.receivedAt, w'.game)
    requires |w'.moves| == |w.moves| + 1 && w'.moves[..|w.moves|] == w.moves
    requires var row := w'.moves[|w.moves|];
      row.receivedAt == r.receivedAt && row.clockRemainingMs > 0 &&
      Clock.RemainingMs(w.game.timeControl, w.game.clockAnchor, r.receivedAt) == Ok(row.clockRemainingMs)
    ensures ClockInOrder(w')
  {
    forall k | 0 <= k < |w'.moves|
      ensures w'.moves[k].clockRemainingMs > 0 &&
              Clock.RemainingMs(w.game.timeControl, Some(Receipt(w.game.startedAt.value, w'.moves[..k])), w'.moves[k].receivedAt)
              == Ok(w'.moves[k].clockRemainingMs)
    {
      if k < |w.moves| {
        assert w'.moves[k] == w'.moves[..|w.moves|][k];
        assert w'.moves[..k] == w.moves[..k];
      }
    }
  }

  lemma ResultAfterMove(g: Game, player: string, at: int, g': Game)
    requires TwoSeats(g.players) && g.ply >= 0 && RowAdvances(g, player, at, g')
    requires g'.result.Some? ==>
               var o := g'.result.value;
               if o.win then o.winner == player && o.reason != Resignation else o.winner == ""
    ensures ResultMakesSense(g')
  {
  }

  lemma MoveKeepsInv<G(!new)>(lib: Engine.Library<G>, w: World, r: Request, w': World)
    requires Engine.Lawful(lib) && Inv(lib, w) && IsMove(lib, w, r, w')
    ensures Inv(lib, w')
  {
    MoveAdvancesRow(lib, w, r, w');
    MoveKeepsTurns(w, r, w');
    MoveKeepsEngine(lib, w, r, w');
    MoveKeepsOffer(w.game, r.player, r.receivedAt, w'.game);
    MoveKeepsClock(w, r, w');
    BoardWinGoesToMover(lib, w, r, w');
    ResultAfterMove(w.game, r.player, r.receivedAt, w'.game);
  }

  // ---- every request -----------------------------------------------------

  lemma FinishKeeps<G>(lib: Engine.Library<G>, w: World, outcome: Outcome, at: int)
    requires Inv(lib, w) && w.game.active
    requires if outcome.win then
               (exists p :: p in w.game.players && p.did == outcome.winner) &&
               (outcome.reason != Resignation ==> w.game.turnDid != Some(outcome.winner))
             else outcome.winner == ""
    ensures Inv(lib, w.(game := Finish(w.game, outcome, at)))
  {
  }

  lemma TimeoutIsSound<G>(lib: Engine.Library<G>, w: World)
    requires Inv(lib, w)
    ensures var o := TimeoutOutcome(w.game);
      o.win && (exists p :: p in w.game.players && p.did == o.winner) && w.game.turnDid != Some(o.winner)
  {
    TwoPlayerLookups(w.game.players, w.game.turnDid.value);
    assert w.game.players[0] in w.game.players && w.game.players[1] in w.game.players;
  }

  /** Every request, accepted or refused, keeps the invariant. */
  lemma StepKeepsInv<G(!new)>(lib: Engine.Library<G>, w: World, r: Request)
    requires Engine.Lawful(lib) && Inv(lib, w)
    ensures Inv(lib, Step(lib, w, r).0)
  {
    var w' := Step(lib, w, r).0;
    TimeoutIsSound(lib, w);
    match r
    case Submit(_, _, _, _, _) =>
      LoadIsReplay(lib, w);
      SubmittedCases(lib, w, r);
      if IsMove(lib, w, r, w') {
        MoveKeepsInv(lib, w, r, w');
      } else if w' != w {
        FinishKeeps(lib, w, TimeoutOutcome(w.game), r.receivedAt);
      }
    case Resign(p, now) =>
      TwoPlayerLookups(w.game.players, p);
      assert w.game.players[0] in w.game.players && w.game.players[1] in w.game.players;
      if w' != w { FinishKeeps(lib, w, Outcome(true, OpponentOf(w.game.players, p), Resignation), now); }
    case OfferDraw(p) =>
      TwoPlayerLookups(w.game.players, p);
    case AcceptDraw(p, now) =>
      if w' != w { FinishKeeps(lib, w, Outcome(false, "", Agreement), now); }
    case DeclineDraw(p) =>
    case Sweep(now) =>
      if w' != w { FinishKeeps(lib, w, TimeoutOutcome(w.game), now); }
  }

  /** Whoever resigns loses to the other player; nobody else can resign. */
  lemma ResigningLoses<G>(lib: Engine.Library<G>, w: World, p: string, now: int)
    requires Inv(lib, w)
    ensures var (w', resp) := Step(lib, w, Resign(p, now));
      && (resp.Finished? <==> w.game.active && SeatOf(w.game.players, p).Some?)
      && (resp.Finished? ==>
            && resp.outcome.win && resp.outcome.reason == Resignation && resp.outcome.winner != p
            && SeatOf(w.game.players, resp.outcome.winner).Some?
            && w'.game.result == Some(resp.outcome) && w'.moves == w.moves)
      && (!resp.Finished? ==> w' == w)
  {
    LoadIsReplay(lib, w);
    TwoPlayerLookups(w.game.players, p);
    TwoPlayerLookups(w.game.players, OpponentOf(w.game.players, p));
    assert w.game.players[0] in w.game.players && w.game.players[1] in w.game.players;
  }

  /** So does every run of requests. */
  lemma {:induction false} RunsKeepInv<G(!new)>(lib: Engine.Library<G>, w: World, reqs: seq<Request>)
    requires Engine.Lawful(lib) && Inv(lib, w)
    ensures Inv(lib, After(lib, w, reqs))
  {
    if reqs != [] {
      RunsKeepInv(lib, w, reqs[..|reqs| - 1]);
      StepKeepsInv(lib, After(lib, w, reqs[..|reqs| - 1]), reqs[|reqs| - 1]);
    }
  }

  // ---- what a run never takes back ---------------------------------------

  /** A finished game never changes again. */
  lemma {:induction false} FinishedIsFinal<G>(lib: Engine.Library<G>, w: World, reqs: seq<Request>)
    requires !w.game.active
    ensures After(lib, w, reqs) == w
  {
    if reqs != [] { FinishedIsFinal(lib, w, reqs[..|reqs| - 1]); }
  }

  lemma StepOnlyAppends<G>(lib: Engine.Library<G>, w: World, r: Request)
    ensures var w' := Step(lib, w, r).0;
      w'.game.players == w.game.players && w'.game.timeControl == w.game.timeControl && w.moves <= w'.moves
  {
  }

  /** Accepted moves stand, and nobody is seated anew. */
  lemma {:induction false} RunsOnlyAppend<G>(lib: Engine.Library<G>, w: World, reqs: seq<Request>)
    ensures var w' := After(lib, w, reqs);
      w'.game.players == w.game.players && w'.game.timeControl == w.game.timeControl && w.moves <= w'.moves
  {
    if reqs != [] {
      RunsOnlyAppend(lib, w, reqs[..|reqs| - 1]);
      StepOnlyAppends(lib, After(lib, w, reqs[..|reqs| - 1]), reqs[|reqs| - 1]);
    }
  }

  /** Asking again for a ply the table holds. */
  lemma RetryAt<G>(lib: Engine.Library<G>, w: World, retry: Request)
    requires retry.Submit? && w.game.active && w.game.result == None && Load(lib, w).Ok?
    requires 1 <= retry.ply <= |w.moves| && !retry.payload.NotJson?
    requires SeatOf(w.game.players, retry.player).Some?
    ensures Step(lib, w, retry) ==
            (w, if w.moves[retry.ply - 1].payload == retry.payload
                then Accepted(Acceptance(w.moves[retry.ply - 1], None)) else Rejected(PlyMismatch))
  {
  }

  /** An acceptance reports the row it is stored in. */
  lemma AcceptanceIsStored<G(!new)>(lib: Engine.Library<G>, w: World, r: Request)
    requires Inv(lib, w) && r.Submit? && Step(lib, w, r).1.Accepted?
    ensures var (w', resp) := Step(lib, w, r);
      1 <= r.ply <= |w'.moves| && w'.moves[r.ply - 1].payload == r.payload &&
      resp == Accepted(Acceptance(w'.moves[r.ply - 1], if w'.game.active then None else w'.game.result))
  {
    LoadIsReplay(lib, w);
    SubmittedCases(lib, w, r);
    if IsMove(lib, w, r, Step(lib, w, r).0) { MoveAdvancesRow(lib, w, r, Step(lib, w, r).0); }
  }

  /** While the game is active, submitting an accepted ply again with its payload, by either
      player, at whatever time and with whatever fresh token, returns the original acceptance
      and changes nothing; with another payload it is refused. */
  lemma RetryReplaysAcceptance<G(!new)>(lib: Engine.Library<G>, w: World, r: Request, w1: World, first: Response,
                                        reqs: seq<Request>, retry: Request)
    requires Engine.Lawful(lib) && Inv(lib, w)
    requires r.Submit? && (w1, first) == Step(lib, w, r) && first.Accepted?
    requires retry.Submit? && retry.ply == r.ply && !retry.payload.NotJson?
    requires SeatOf(w.game.players, retry.player).Some?
    requires After(lib, w1, reqs).game.active
    ensures var later := After(lib, w1, reqs);
      Step(lib, later, retry) == (later, if retry.payload == r.payload then first else Rejected(PlyMismatch))
  {
    AcceptanceIsStored(lib, w, r);
    StepKeepsInv(lib, w, r);
    StepOnlyAppends(lib, w, r);
    RetryAfterRun(lib, w1, reqs, retry);
  }

  lemma RetryAfterRun<G(!new)>(lib: Engine.Library<G>, w: World, reqs: seq<Request>, retry: Request)
    requires Engine.Lawful(lib) && Inv(lib, w) && After(lib, w, reqs).game.active
    requires retry.Submit? && 1 <= retry.ply <= |w.moves| && !retry.payload.NotJson?
    requires SeatOf(w.game.players, retry.player).Some?
    ensures var later := After(lib, w, reqs);
      w.game.active &&
      Step(lib, later, retry) ==
      (later, if w.moves[retry.ply - 1].payload == retry.payload
              then Accepted(Acceptance(w.moves[retry.ply - 1], None)) else Rejected(PlyMismatch))
  {
    if !w.game.active { FinishedIsFinal(lib, w, reqs); }
    RunsOnlyAppend(lib, w, reqs);
    RunsKeepInv(lib, w, reqs);
    LoadIsReplay(lib, After(lib, w, reqs));
    RetryAt(lib, After(lib, w, reqs), retry);
  }

  // ---- draws by agreement ------------------------------------------------

  /** A request that leaves a standing offer by `d` standing: no new offer, no decline,
      and no accepted move by `d`. */
  ghost predicate LeavesOffer<G>(lib: Engine.Library<G>, w: World, r: Request, d: string) {
    var (w', resp) := Step(lib, w, r);
    && !(r.OfferDraw? && resp == Done)
    && !(r.DeclineDraw? && resp == Done)
    && !(r.Submit? && r.player == d && |w'.moves| > |w.moves|)
  }

  ghost predicate MakesOffer<G>(lib: Engine.Library<G>, w: World, r: Request, d: string) {
    r == OfferDraw(d) && Step(lib, w, r).1 == Done
  }

  /** What one request of a run means to an offer by `d`. */
  datatype Mark = Mark(makes: bool, leaves: bool)

  ghost function Marks<G>(lib: Engine.Library<G>, w: World, reqs: seq<Request>, d: string): (marks: seq<Mark>)
    ensures |marks| == |reqs|
  {
    if reqs == [] then []
    else
      var earlier, r := reqs[..|reqs| - 1], reqs[|reqs| - 1];
      var at := After(lib, w, earlier);
      Marks(lib, w, earlier, d) + [Mark(MakesOffer(lib, at, r, d), LeavesOffer(lib, at, r, d))]
  }

  /** Some request makes the offer and every later one leaves it standing. */
  ghost predicate Stands(marks: seq<Mark>) {
    exists k :: 0 <= k < |marks| && marks[k].makes && forall j :: k < j < |marks| ==> marks[j].leaves
  }

  lemma StandsAfter(marks: seq<Mark>, m: Mark)
    ensures Stands(marks + [m]) <==> m.makes || (Stands(marks) && m.leaves)
  {
    var all, n := marks + [m], |marks|;
    if m.makes { assert all[n].makes; }
    if Stands(marks) && m.leaves {
      var k :| 0 <= k < n && marks[k].makes && forall j :: k < j < n ==> marks[j].leaves;
      assert all[k].makes;
    }
    if Stands(all) && !m.makes {
      var k :| 0 <= k <= n && all[k].makes && forall j :: k < j <= n ==> all[j].leaves;
      assert all[n] == m && marks[k].makes;
      assert forall j :: k < j < n ==> marks[j] == all[j];
    }
  }

  lemma OfferAfterStep<G>(lib: Engine.Library<G>, w: World, r: Request, d: string)
    ensures Step(lib, w, r).0.game.drawOfferDid == Some(d) <==>
            MakesOffer(lib, w, r, d) || (w.game.drawOfferDid == Some(d) && LeavesOffer(lib, w, r, d))
  {
  }

  /** The offer column names `d` exactly when `d` made an offer that nobody has replaced or
      declined since, and has made no accepted move since. */
  lemma {:induction false} OfferColumnMeans<G>(lib: Engine.Library<G>, w: World, reqs: seq<Request>, d: string)
    requires w.game.drawOfferDid == None
    ensures After(lib, w, reqs).game.drawOfferDid == Some(d) <==> Stands(Marks(lib, w, reqs, d))
  {
    if reqs != [] {
      var earlier, r := reqs[..|reqs| - 1], reqs[|reqs| - 1];
      OfferColumnMeans(lib, w, earlier, d);
      OfferAfterStep(lib, After(lib, w, earlier), r, d);
      StandsAfter(Marks(lib, w, earlier, d), Marks(lib, w, reqs, d)[|earlier|]);
    }
  }

  lemma AcceptDrawCases<G>(lib: Engine.Library<G>, w: World, p: string, now: int)
    requires Load(lib, w).Ok?
    ensures Step(lib, w, AcceptDraw(p, now)).1 == Finished(Outcome(false, "", Agreement)) <==>
            (w.game.active && SeatOf(w.game.players, p).Some? &&
             w.game.drawOfferDid.Some? && w.game.drawOfferDid.value != p)
  {
  }

  /** An agreed draw answers the other player's standing offer, and any player who is offered
      one may take it. */
  lemma AgreementAnswersOffer<G(!new)>(lib: Engine.Library<G>, w: World, reqs: seq<Request>, p: string, now: int)
    requires Engine.Lawful(lib) && Inv(lib, w) && w.game.drawOfferDid == None
    ensures var later := After(lib, w, reqs);
      Step(lib, later, AcceptDraw(p, now)).1 == Finished(Outcome(false, "", Agreement)) <==>
      (later.game.active && SeatOf(later.game.players, p).Some? &&
       exists d :: d != p && Stands(Marks(lib, w, reqs, d)))
  {
    var later := After(lib, w, reqs);
    RunsKeepInv(lib, w, reqs);
    LoadIsReplay(lib, later);
    AcceptDrawCases(lib, later, p, now);
    if later.game.drawOfferDid.Some? { OfferColumnMeans(lib, w, reqs, later.game.drawOfferDid.value); }
    if d :| d != p && Stands(Marks(lib, w, reqs, d)) { OfferColumnMeans(lib, w, reqs, d); }
  }

  // ---- clock accounting --------------------------------------------------

  function SumRemainingMs(moves: seq<MoveRow>): int {
    if moves == [] then 0 else SumRemainingMs(moves[..|moves| - 1]) + moves[|moves| - 1].clockRemainingMs
  }

  /** One more move adds less than a millisecond of rounding. */
  lemma RoundingStep(n: nat, budget: int, used: int, sum: int, step: int, rem: int)
    requires 0 <= n * budget - used - sum * 1_000_000 <= n * 999_999
    requires 0 <= budget - step - rem * 1_000_000 <= 999_999
    ensures 0 <= (n + 1) * budget - (used + step) - (sum + rem) * 1_000_000 <= (n + 1) * 999_999
  {
  }

  /** Over a whole game the budgets given out are the time used plus the remainders recorded,
      up to the part of a millisecond each move rounds away. */
  lemma {:induction false} ClockAccounting(tc: Clock.TimeControl, startedAt: int, moves: seq<MoveRow>)
    requires Clock.Budget(tc).Ok? && ClocksRecorded(tc, startedAt, moves)
    ensures 0 <= |moves| * Clock.Budget(tc).value - (Receipt(startedAt, moves) - startedAt)
                 - SumRemainingMs(moves) * 1_000_000 <= |moves| * 999_999
  {
    if moves != [] {
      var n, budget := |moves| - 1, Clock.Budget(tc).value;
      var earlier, last := moves[..n], moves[n];
      assert forall k :: 0 <= k < n ==> earlier[k] == moves[k] && earlier[..k] == moves[..k];
      ClockAccounting(tc, startedAt, earlier);
      var anchor := Receipt(startedAt, earlier);
      Clock.RemainingMeans(tc, anchor, last.receivedAt);
      RoundingStep(n, budget, anchor - startedAt, SumRemainingMs(earlier), last.receivedAt - anchor, last.clockRemainingMs);
    }
  }

  lemma {:induction false} EachMoveLeavesSomething(moves: seq<MoveRow>)
    requires forall k :: 0 <= k < |moves| ==> moves[k].clockRemainingMs > 0
    ensures SumRemainingMs(moves) >= |moves|
  {
    if moves != [] { EachMoveLeavesSomething(moves[..|moves| - 1]); }
  }

  /** So every move shortens the longest course a game can take by at least a millisecond. */
  lemma GamesEndInTime(tc: Clock.TimeControl, startedAt: int, moves: seq<MoveRow>)
    requires Clock.Budget(tc).Ok? && ClocksRecorded(tc, startedAt, moves)
    ensures Receipt(startedAt, moves) <= startedAt + |moves| * (Clock.Budget(tc).value - Clock.MILLISECOND)
  {
    ClockAccounting(tc, startedAt, moves);
    EachMoveLeavesSomething(moves);
    var n, budget := |moves|, Clock.Budget(tc).value;
    assert n * (budget - 1_000_000) == n * budget - n * 1_000_000;
  }
}
