/** What a player is answered, in the columns of the game, its moves and the request: over every
    game the invariant describes, without the steps that decide it. */
module Submissions {
  import opened Wrappers
  import Clock
  import Engine
  import opened Games
  import opened GameRuns

  // ---- clocks ------------------------------------------------------------

  /** When the clock of the player on the move began to run. */
  function Since(w: World): int
    requires w.game.startedAt.Some?
  {
    if |w.moves| == 0 then w.game.startedAt.value else w.moves[|w.moves| - 1].receivedAt
  }

  function Deadline(w: World): int
    requires w.game.startedAt.Some?
  {
    Since(w) + Clock.Nanoseconds(w.game.timeControl.perMoveSeconds)
  }

  /** Received less than a millisecond before the deadline, or after it. */
  predicate Late(w: World, r: Request)
    requires w.game.startedAt.Some? && r.Submit?
  {
    r.receivedAt > Deadline(w) - 1_000_000
  }

  lemma ClockSays<G>(lib: Engine.Library<G>, w: World, at: int)
    requires Inv(lib, w)
    ensures w.game.timeControl.kind == Clock.PerMove && w.game.timeControl.perMoveSeconds > 0
    ensures var left := Clock.RemainingMs(w.game.timeControl, w.game.clockAnchor, at);
      && left.Ok? && (left.value <= 0 <==> at > Deadline(w) - 1_000_000)
      && (left.value > 0 ==> left.value == (Deadline(w) - at) / 1_000_000)
  {
    Clock.ProductIsNanoseconds(w.game.timeControl.perMoveSeconds);
    Clock.RemainingMeans(w.game.timeControl, Since(w), at);
  }

  // ---- payloads ----------------------------------------------------------

  predicate Square(s: string) {
    |s| == 2 && 'a' <= s[0] && s[0] <= 'h' && '1' <= s[1] && s[1] <= '8'
  }

  /** A chess move on the board: two squares, and a piece to promote to or none. */
  predicate WellShaped(p: Engine.Payload) {
    && p.Object? && p.typ == "bot.plays.bot.chess.move" && Square(p.from) && Square(p.to)
    && (p.promotion == "" || p.promotion == "q" || p.promotion == "r" || p.promotion == "b" || p.promotion == "n")
  }

  /** The first listed move whose text is that of the payload. */
  ghost predicate Listed<G>(lib: Engine.Library<G>, g: G, p: Engine.Payload, i: nat)
    requires p.Object?
  {
    var legal := lib.validMoves(g);
    && i < |legal| && legal[i].s1 + legal[i].s2 + legal[i].promo == p.from + p.to + p.promotion
    && forall k :: 0 <= k < i ==> legal[k].s1 + legal[k].s2 + legal[k].promo != p.from + p.to + p.promotion
  }

  ghost predicate Playable<G>(lib: Engine.Library<G>, g: G, p: Engine.Payload) {
    WellShaped(p) && exists i: nat :: Listed(lib, g, p, i)
  }

  lemma {:induction false} MatchIsListed(legal: seq<Engine.Move>, c: Engine.Coordinates)
    ensures Engine.Match(legal, c).Ok? ==>
              exists i :: 0 <= i < |legal| && legal[i] == Engine.Match(legal, c).value && legal[i].s1 + legal[i].s2 + legal[i].promo == c.from + c.to + c.promotion &&
                forall k :: 0 <= k < i ==> legal[k].s1 + legal[k].s2 + legal[k].promo != c.from + c.to + c.promotion
    ensures Engine.Match(legal, c).Err? ==>
              forall k :: 0 <= k < |legal| ==> legal[k].s1 + legal[k].s2 + legal[k].promo != c.from + c.to + c.promotion
  {
    if legal != [] && legal[0].Text() != c.Text() {
      MatchIsListed(legal[1..], c);
      assert forall k :: 1 <= k < |legal| ==> legal[k] == legal[1..][k - 1];
      if Engine.Match(legal, c).Ok? {
        var i :| 0 <= i < |legal| - 1 && legal[1..][i] == Engine.Match(legal, c).value && legal[1..][i].s1 + legal[1..][i].s2 + legal[1..][i].promo == c.from + c.to + c.promotion &&
          forall k :: 0 <= k < i ==> legal[1..][k].s1 + legal[1..][k].s2 + legal[1..][k].promo != c.from + c.to + c.promotion;
        assert legal[i + 1] == legal[1..][i];
        forall k | 0 <= k < i + 1 ensures legal[k].s1 + legal[k].s2 + legal[k].promo != c.from + c.to + c.promotion {
          if k > 0 { assert legal[k] == legal[1..][k - 1]; }
        }
      }
    }
  }

  lemma ShapeDecides(p: Engine.Payload)
    ensures Engine.DecodePayload(p).Ok? <==> WellShaped(p)
    ensures WellShaped(p) ==> Engine.DecodePayload(p) == Ok(Engine.Coordinates(p.from, p.to, p.promotion))
    ensures !WellShaped(p) ==> Engine.DecodePayload(p) == Err(Engine.Malformed)
  {
  }

  lemma ListedIsFirst<G>(lib: Engine.Library<G>, g: G, p: Engine.Payload, i: nat)
    requires WellShaped(p) && Listed(lib, g, p, i)
    ensures Engine.Match(lib.validMoves(g), Engine.Coordinates(p.from, p.to, p.promotion)) == Ok(lib.validMoves(g)[i])
  {
    MatchIsListed(lib.validMoves(g), Engine.Coordinates(p.from, p.to, p.promotion));
  }

  lemma MatchIsPlayable<G>(lib: Engine.Library<G>, g: G, p: Engine.Payload)
    requires WellShaped(p) && Engine.Match(lib.validMoves(g), Engine.Coordinates(p.from, p.to, p.promotion)).Ok?
    ensures Playable(lib, g, p)
  {
    var c, legal := Engine.Coordinates(p.from, p.to, p.promotion), lib.validMoves(g);
    MatchIsListed(legal, c);
    var i :| 0 <= i < |legal| && legal[i].s1 + legal[i].s2 + legal[i].promo == c.from + c.to + c.promotion &&
      forall k :: 0 <= k < i ==> legal[k].s1 + legal[k].s2 + legal[k].promo != c.from + c.to + c.promotion;
    assert Listed(lib, g, p, i);
  }

  lemma UnlistedHasNoMatch<G>(lib: Engine.Library<G>, g: G, p: Engine.Payload)
    requires WellShaped(p) && !Playable(lib, g, p)
    ensures Engine.Match(lib.validMoves(g), Engine.Coordinates(p.from, p.to, p.promotion)).Err?
  {
    if Engine.Match(lib.validMoves(g), Engine.Coordinates(p.from, p.to, p.promotion)).Ok? { MatchIsPlayable(lib, g, p); }
  }

  // ---- how a game ends on the board --------------------------------------

  function Draw(why: Engine.Reason): Option<Outcome> {
    Some(Outcome(false, "", Chess(why)))
  }

  /** What a move to `next` by `mover` decides: checkmate wins for the mover, everything else is
      a draw; while the library sees no end, a hundred half-moves without progress and the third
      occurrence of the position are draws too. */
  function Ending<G>(lib: Engine.Library<G>, next: G, mover: string): Option<Outcome> {
    match lib.outcome(next)
    case Checkmate => Some(Outcome(true, mover, Chess(Engine.ByCheckmate)))
    case Stalemate => Draw(Engine.ByStalemate)
    case InsufficientMaterial => Draw(Engine.ByInsufficientMaterial)
    case ThreefoldRepetition => Draw(Engine.ByRepetition)
    case FivefoldRepetition => Draw(Engine.ByRepetition)
    case FiftyMoveRule => Draw(Engine.ByFiftyMoves)
    case SeventyFiveMoveRule => Draw(Engine.ByFiftyMoves)
    case NoMethod =>
      var seen := lib.positions(next);
      if lib.halfMoveClock(next) >= 100 then Draw(Engine.ByFiftyMoves)
      else if |seen| > 0 && multiset(seen)[seen[|seen| - 1]] >= 3 then Draw(Engine.ByRepetition)
      else None
    case OtherMethod => None
  }

  lemma {:induction false} CountIsMultiplicity(s: seq<string>, x: string)
    ensures Engine.Count(s, x) == multiset(s)[x]
  {
    if s != [] {
      CountIsMultiplicity(s[..|s| - 1], x);
      assert s == s[..|s| - 1] + [s[|s| - 1]];
    }
  }

  /** How often the last position occurred; never, when there is none. */
  lemma RepetitionsAre(seen: seq<string>)
    ensures Engine.Repetitions(seen) == if |seen| == 0 then 0 else multiset(seen)[seen[|seen| - 1]]
  {
    if |seen| > 0 { CountIsMultiplicity(seen, seen[|seen| - 1]); }
  }

  /** The engine's verdict is that ending, the mover holding the seat not on the move. */
  lemma VerdictIsEnding<G>(lib: Engine.Library<G>, st: Engine.State<G>, players: seq<Player>, mover: string)
    requires HolderOf(players, Engine.Seat(!lib.blackToMove(st.game))) == mover
    ensures var v := Engine.TerminalOf(lib, st);
      && (v.Err? <==> lib.outcome(st.game) == Engine.OtherMethod)
      && (v.Ok? ==> Ending(lib, st.game, mover) == if v.value.Some? then Some(OutcomeOf(v.value.value, players)) else None)
  {
    RepetitionsAre(lib.positions(st.game));
  }

  // ---- the answer to the player on the move ------------------------------

  /** White is on the move after an even number of moves. */
  function OnMove(w: World): string
    requires |w.game.players| == 2
  {
    w.game.players[if |w.moves| % 2 == 0 then 0 else 1].did
  }

  function Opponent(w: World): string
    requires |w.game.players| == 2
  {
    w.game.players[if |w.moves| % 2 == 0 then 1 else 0].did
  }

  ghost predicate NextPly<G(!new)>(lib: Engine.Library<G>, w: World, r: Request) {
    Engine.Lawful(lib) && Inv(lib, w) && w.game.active && r.Submit? && r.player == OnMove(w) && r.ply == |w.moves| + 1
  }

  lemma OnMoveIsTurn<G(!new)>(lib: Engine.Library<G>, w: World)
    requires Engine.Lawful(lib) && Inv(lib, w)
    ensures w.game.turnDid == Some(OnMove(w)) && w.game.ply == |w.moves|
    ensures var st := Engine.Replayed(lib, Payloads(w.moves));
      && st.Ok? && Load(lib, w) == st
      && SeatOf(w.game.players, OnMove(w)) == Some(Engine.Seat(lib.blackToMove(st.value.game)))
    ensures TimeoutOutcome(w.game) == Outcome(true, Opponent(w), Timeout)
    ensures NextSeatDid(w.game.players, Engine.Seat(|w.moves| % 2 == 1)) == Opponent(w)
    ensures HolderOf(w.game.players, Engine.Seat(|w.moves| % 2 == 1)) == OnMove(w)
    ensures lib.blackToMove(Engine.Replayed(lib, Payloads(w.moves)).value.game) <==> |w.moves| % 2 == 1
  {
    LoadIsReplay(lib, w);
    SeatArithmetic(w.game.players, |w.moves|);
    Engine.TurnIsParity(lib, Payloads(w.moves));
    TwoPlayerLookups(w.game.players, OnMove(w));
  }

  ghost function Position<G>(lib: Engine.Library<G>, w: World): Engine.State<G>
    requires RowAgreesWithEngine(lib, w)
  {
    Engine.Replayed(lib, Payloads(w.moves)).value
  }

  lemma ReachesClock<G>(lib: Engine.Library<G>, w: World, r: Request, st: Engine.State<G>, seat: string, left: int, late: bool, ms: int, won: Outcome)
    requires r.Submit? && w.game.active && r.ply == |w.moves| + 1 && w.game.ply == |w.moves| && w.game.turnDid == Some(r.player)
    requires Load(lib, w) == Ok(st) && SeatOf(w.game.players, r.player) == Some(seat)
    requires Clock.RemainingMs(w.game.timeControl, Anchor(w.game), r.receivedAt) == Ok(left)
    requires (late <==> left <= 0) && (!late ==> left == ms) && TimeoutOutcome(w.game) == won
    ensures Step(lib, w, r) ==
            if late then (w.(game := Finish(w.game, won, r.receivedAt)), Rejected(ClockExpired)) else Played(lib, w, r, st, seat, ms)
  {
  }

  /** On time, it comes to the engine; late, the other player has won. */
  lemma ClockDecides<G(!new)>(lib: Engine.Library<G>, w: World, r: Request)
    requires NextPly(lib, w, r)
    ensures Step(lib, w, r) ==
            if Late(w, r) then (w.(game := Finish(w.game, Outcome(true, Opponent(w), Timeout), r.receivedAt)), Rejected(ClockExpired))
            else Played(lib, w, r, Position(lib, w), Engine.Seat(|w.moves| % 2 == 1), (Deadline(w) - r.receivedAt) / 1_000_000)
  {
    OnMoveIsTurn(lib, w);
    ClockSays(lib, w, r.receivedAt);
    var left := Clock.RemainingMs(w.game.timeControl, Anchor(w.game), r.receivedAt).value;
    ReachesClock(lib, w, r, Position(lib, w), Engine.Seat(|w.moves| % 2 == 1), left, Late(w, r),
                 (Deadline(w) - r.receivedAt) / 1_000_000, Outcome(true, Opponent(w), Timeout));
  }

  lemma {:induction false} NoMatchCode(legal: seq<Engine.Move>, c: Engine.Coordinates)
    requires Engine.Match(legal, c).Err?
    ensures EngineCode(Engine.Match(legal, c).error) == IllegalMove
  {
    if legal != [] { NoMatchCode(legal[1..], c); }
  }

  lemma RefusedByEngine<G>(lib: Engine.Library<G>, w: World, r: Request, st: Engine.State<G>, seat: string, remaining: int)
    requires r.Submit? && w.game.active && seat == Engine.Seat(lib.blackToMove(st.game)) && !Playable(lib, st.game, r.payload)
    ensures Played(lib, w, r, st, seat, remaining) == (w, Rejected(if WellShaped(r.payload) then IllegalMove else MalformedPayload))
  {
    ShapeDecides(r.payload);
    if WellShaped(r.payload) {
      UnlistedHasNoMatch(lib, st.game, r.payload);
      NoMatchCode(lib.validMoves(st.game), Engine.Coordinates(r.payload.from, r.payload.to, r.payload.promotion));
    }
  }

  /** The row of the move and of the game after it. */
  ghost predicate Advanced<G>(lib: Engine.Library<G>, w: World, r: Request, before: G, m: Engine.Move, next: G, w': World)
    requires r.Submit? && |w.game.players| == 2 && w.game.startedAt.Some?
  {
    var ending := Ending(lib, next, r.player);
    && w'.moves == w.moves + [MoveRow(r.ply, r.player, r.payload, lib.san(before, m), r.receivedAt, (Deadline(w) - r.receivedAt) / 1_000_000, r.token)]
    && w'.game.players == w.game.players && w'.game.timeControl == w.game.timeControl && w'.game.startedAt == w.game.startedAt
    && w'.game.ply == r.ply && w'.game.turnDid == Some(Opponent(w)) && w'.game.clockAnchor == Some(r.receivedAt)
    && w'.game.snapshot.Some? && w'.game.snapshot.value.fen == lib.fen(next) && w'.game.snapshot.value.check == m.check
    && (w.game.drawOfferDid == Some(r.player) ==> w'.game.drawOfferDid == None && w'.game.drawOfferPly == None)
    && (w.game.drawOfferDid != Some(r.player) ==> w'.game.drawOfferDid == w.game.drawOfferDid && w'.game.drawOfferPly == w.game.drawOfferPly)
    && w'.game.active == (ending == None) && w'.game.result == ending
    && w'.game.finishedAt == (if ending == None then None else Some(r.receivedAt))
  }

  lemma PlayedByEngine<G(!new)>(lib: Engine.Library<G>, w: World, r: Request, i: nat)
    requires NextPly(lib, w, r) && WellShaped(r.payload) && Listed(lib, Position(lib, w).game, r.payload, i)
    ensures var before := Position(lib, w).game; var m := lib.validMoves(before)[i];
      && lib.play(before, m).Some?
      && var next := lib.play(before, m).value;
         var (w', resp) := Played(lib, w, r, Position(lib, w), Engine.Seat(|w.moves| % 2 == 1), (Deadline(w) - r.receivedAt) / 1_000_000);
         if lib.outcome(next) == Engine.OtherMethod then w' == w && resp == Rejected(Internal)
         else Advanced(lib, w, r, before, m, next, w') && resp == Accepted(Acceptance(w'.moves[|w.moves|], w'.game.result))
  {
    OnMoveIsTurn(lib, w);
    var st := Position(lib, w);
    ShapeDecides(r.payload);
    ListedIsFirst(lib, st.game, r.payload, i);
    var m := lib.validMoves(st.game)[i];
    var next := Engine.State(lib.play(st.game, m).value, st.moves + [m.Text()], m.check);
    assert Engine.Apply(lib, st, r.payload) == Ok(next);
    VerdictIsEnding(lib, next, w.game.players, r.player);
  }

  /** Every submission of the next ply by the player on the move: late, it loses the game; in
      time, it is refused by its shape or because it is not listed, and nothing changes; a listed
      move is made, unless the library reports an end it has no name for. */
  lemma NextPlyAnswered<G(!new)>(lib: Engine.Library<G>, w: World, r: Request)
    requires NextPly(lib, w, r)
    ensures Step(lib, w, r).1 == Rejected(ClockExpired) <==> Late(w, r)
    ensures Late(w, r) ==>
              Step(lib, w, r).0 == w.(game := w.game.(active := false, result := Some(Outcome(true, Opponent(w), Timeout)), finishedAt := Some(r.receivedAt)))
    ensures !Late(w, r) && !Playable(lib, Position(lib, w).game, r.payload) ==>
              Step(lib, w, r) == (w, Rejected(if WellShaped(r.payload) then IllegalMove else MalformedPayload))
    ensures !Late(w, r) && WellShaped(r.payload) ==>
              forall i: nat :: Listed(lib, Position(lib, w).game, r.payload, i) ==> MoveAnswered(lib, w, r, i)
  {
    OnMoveIsTurn(lib, w);
    ClockDecides(lib, w, r);
    var remaining := (Deadline(w) - r.receivedAt) / 1_000_000;
    if !Late(w, r) {
      if !Playable(lib, Position(lib, w).game, r.payload) {
        RefusedByEngine(lib, w, r, Position(lib, w), Engine.Seat(|w.moves| % 2 == 1), remaining);
      } else {
        forall i: nat | Listed(lib, Position(lib, w).game, r.payload, i) ensures MoveAnswered(lib, w, r, i) {
          PlayedByEngine(lib, w, r, i);
        }
      }
    }
  }

  ghost predicate MoveAnswered<G>(lib: Engine.Library<G>, w: World, r: Request, i: nat)
    requires r.Submit? && Inv(lib, w) && WellShaped(r.payload) && Listed(lib, Position(lib, w).game, r.payload, i)
  {
    var before := Position(lib, w).game;
    var m := lib.validMoves(before)[i];
    && lib.play(before, m).Some?
    && var next, (w', resp) := lib.play(before, m).value, Step(lib, w, r);
       if lib.outcome(next) == Engine.OtherMethod then w' == w && resp == Rejected(Internal)
       else Advanced(lib, w, r, before, m, next, w') && resp == Accepted(Acceptance(w'.moves[|w.moves|], w'.game.result))
  }

  // ---- every other submission --------------------------------------------

  predicate Plays(w: World, did: string) {
    exists i :: 0 <= i < |w.game.players| && w.game.players[i].did == did
  }

  /** What is answered when the submission is not the next ply of the player on the move: a ply
      on record gives the original acceptance for the same payload; nothing changes. */
  lemma OtherSubmissionsAnswered<G(!new)>(lib: Engine.Library<G>, w: World, r: Request)
    requires Engine.Lawful(lib) && Inv(lib, w) && r.Submit? && !NextPly(lib, w, r)
    ensures Step(lib, w, r) == (w,
              if !w.game.active then Rejected(GameNotActive)
              else if r.ply < 1 then Rejected(PlyMismatch)
              else if !Plays(w, r.player) then Rejected(NotYourTurn)
              else if r.ply > |w.moves| then Rejected(if r.player == OnMove(w) then PlyMismatch else NotYourTurn)
              else if r.payload == Engine.NotJson then Rejected(MalformedPayload)
              else if r.payload != w.moves[r.ply - 1].payload then Rejected(PlyMismatch)
              else Accepted(Acceptance(w.moves[r.ply - 1], None)))
  {
    OnMoveIsTurn(lib, w);
    SeatedPlays(w, r.player);
  }

  // ---- the other requests ------------------------------------------------

  /** What every player request is refused with. */
  function Refusal(w: World, did: string): Option<Code> {
    if !w.game.active then Some(GameNotActive) else if !Plays(w, did) then Some(Forbidden) else None
  }

  lemma SeatedPlays(w: World, did: string)
    requires TwoSeats(w.game.players)
    ensures SeatOf(w.game.players, did).Some? <==> Plays(w, did)
    ensures Plays(w, did) ==> OpponentOf(w.game.players, did) == OtherPlayer(w, did)
  {
    TwoPlayerLookups(w.game.players, did);
    assert Plays(w, did) <==> exists p :: p in w.game.players && p.did == did;
  }

  function OtherPlayer(w: World, did: string): string
    requires |w.game.players| == 2
  {
    w.game.players[if w.game.players[0].did == did then 1 else 0].did
  }

  lemma RefusalIs<G>(lib: Engine.Library<G>, w: World, did: string)
    requires Inv(lib, w)
    ensures PlayerRequest(lib, w, did) == Refusal(w, did)
    ensures Plays(w, did) ==> OpponentOf(w.game.players, did) == OtherPlayer(w, did)
  {
    LoadIsReplay(lib, w);
    SeatedPlays(w, did);
  }

  lemma RefusedRequests<G>(lib: Engine.Library<G>, w: World, did: string, now: int)
    requires Inv(lib, w) && Refusal(w, did).Some?
    ensures var no := (w, Rejected(Refusal(w, did).value));
      Step(lib, w, Resign(did, now)) == no && Step(lib, w, OfferDraw(did)) == no && Step(lib, w, AcceptDraw(did, now)) == no && Step(lib, w, DeclineDraw(did)) == no
  {
    RefusalIs(lib, w, did);
  }

  /** Resigning loses at once. */
  lemma ResignationAnswered<G>(lib: Engine.Library<G>, w: World, did: string, now: int)
    requires Inv(lib, w) && Refusal(w, did) == None
    ensures var lost := Outcome(true, OtherPlayer(w, did), Resignation);
      Step(lib, w, Resign(did, now)) == (w.(game := w.game.(active := false, result := Some(lost), finishedAt := Some(now))), Finished(lost))
  {
    RefusalIs(lib, w, did);
  }

  lemma OfferIsByPlayer<G>(lib: Engine.Library<G>, w: World, did: string)
    requires Inv(lib, w) && Plays(w, did)
    ensures w.game.drawOfferDid in {None, Some(did), Some(OtherPlayer(w, did))} && OtherPlayer(w, did) != did
  {
    assert w.game.players == [w.game.players[0], w.game.players[1]];
  }

  /** An offer names its maker and its ply; only the other player's offer can be accepted, for a
      draw; either player's decline removes an offer. */
  lemma DrawsAnswered<G>(lib: Engine.Library<G>, w: World, did: string, now: int)
    requires Inv(lib, w) && Refusal(w, did) == None
    ensures var g, agreed := w.game, Outcome(false, "", Agreement);
      && Step(lib, w, OfferDraw(did)) == (w.(game := g.(drawOfferDid := Some(did), drawOfferPly := Some(|w.moves|))), Done)
      && Step(lib, w, AcceptDraw(did, now)) ==
         (if g.drawOfferDid == Some(OtherPlayer(w, did)) then (w.(game := g.(active := false, result := Some(agreed), finishedAt := Some(now))), Finished(agreed))
          else (w, Rejected(InvalidRequest)))
      && Step(lib, w, DeclineDraw(did)) ==
         (if g.drawOfferDid == None then (w, Rejected(InvalidRequest)) else (w.(game := g.(drawOfferDid := None, drawOfferPly := None)), Done))
  {
    RefusalIs(lib, w, did);
    OfferIsByPlayer(lib, w, did);
  }

  lemma SweepReaches<G>(lib: Engine.Library<G>, w: World, now: int, expired: bool, won: Outcome)
    requires Load(lib, w).Ok? && TimeoutOutcome(w.game) == won
    requires expired <==> w.game.active && Clock.PastDeadline(w.game.timeControl, w.game.clockAnchor, now)
    ensures Step(lib, w, Sweep(now)) ==
            if expired then (w.(game := w.game.(active := false, result := Some(won), finishedAt := Some(now))), Finished(won)) else (w, Done)
  {
  }

  /** The sweeper ends a game exactly if it is active and its clock, counted without wrapping, has
      run out; the player not on the move wins. */
  lemma SweepAnswered<G(!new)>(lib: Engine.Library<G>, w: World, now: int)
    requires Engine.Lawful(lib) && Inv(lib, w)
    ensures var won := Outcome(true, Opponent(w), Timeout);
      Step(lib, w, Sweep(now)) ==
      if w.game.active && Since(w) + w.game.timeControl.perMoveSeconds * 1_000_000_000 <= now
      then (w.(game := w.game.(active := false, result := Some(won), finishedAt := Some(now))), Finished(won))
      else (w, Done)
  {
    OnMoveIsTurn(lib, w);
    ClockSays(lib, w, now);
    SweepReaches(lib, w, now, w.game.active && Since(w) + w.game.timeControl.perMoveSeconds * 1_000_000_000 <= now, Outcome(true, Opponent(w), Timeout));
  }

  // ---- creation, and rows that cannot be loaded --------------------------

  /** A game is created for exactly two players, white first, with a positive budget for each move;
      it starts empty at the start position, with White on the move and the clock running. */
  lemma CreationAnswered<G>(lib: Engine.Library<G>, players: seq<Player>, tc: Clock.TimeControl, at: int)
    ensures Created(lib, players, tc, at).Ok? <==>
            |players| == 2 && players[0].seat == "white" && players[1].seat == "black" && tc.kind == Clock.PerMove && tc.perMoveSeconds > 0
    ensures Created(lib, players, tc, at).Err? ==> Created(lib, players, tc, at).error == InvalidRequest
    ensures Created(lib, players, tc, at).Ok? ==>
              var w := Created(lib, players, tc, at).value; var g := w.game;
              && w.moves == [] && g.players == players && g.timeControl == tc && g.active && g.ply == 0 && g.turnDid == Some(players[0].did)
              && g.startedAt == Some(at) && g.clockAnchor == Some(at) && g.result == None && g.finishedAt == None
              && g.drawOfferDid == None && g.drawOfferPly == None
              && g.snapshot == Some(Engine.Snapshot(lib.fen(lib.start), false, []))
              && Load(lib, w) == Ok(Engine.State(lib.start, [], false))
  {
  }

  /** A seat or an agent the game does not have: the first player is next, nobody holds the seat. */
  lemma UnknownSeat(players: seq<Player>, seat: string)
    requires forall i :: 0 <= i < |players| ==> players[i].seat != seat
    ensures SeatIndex(players, seat) == |players| && HolderOf(players, seat) == ""
    ensures NextSeatDid(players, seat) == if |players| == 0 then "" else players[0].did
  {
    UnknownIndex(players, seat);
    UnknownHolder(players, seat);
  }

  lemma {:induction false} UnknownIndex(players: seq<Player>, seat: string)
    requires forall i :: 0 <= i < |players| ==> players[i].seat != seat
    ensures SeatIndex(players, seat) == |players|
  {
    if players != [] {
      assert forall i :: 0 <= i < |players| - 1 ==> players[1..][i] == players[i + 1];
      UnknownIndex(players[1..], seat);
    }
  }

  lemma {:induction false} UnknownHolder(players: seq<Player>, seat: string)
    requires forall i :: 0 <= i < |players| ==> players[i].seat != seat
    ensures HolderOf(players, seat) == ""
  {
    if players != [] { UnknownHolder(players[..|players| - 1], seat); }
  }

  /** The snapshot is read only while there are no moves; then the position is the one its texts
      lead to, and a text too short to be a move makes it corrupt. */
  lemma SnapshotIsFallback<G>(lib: Engine.Library<G>, w: World, g: Game)
    ensures w.moves != [] ==> Load(lib, w.(game := g)) == Load(lib, w)
    ensures w.moves == [] && w.game.snapshot.Some? ==> Load(lib, w) == Engine.Relived(lib, w.game.snapshot.value.moves)
    ensures w.moves == [] && w.game.snapshot == None ==> Load(lib, w) == Ok(Engine.State(lib.start, [], false))
    ensures forall st: Engine.State<G>, text: string :: |text| < 4 ==> Engine.Relive(lib, st, text) == Err(Engine.CorruptSnapshot)
  {
  }

  /** Rows whose moves do not replay are left alone. */
  lemma UnloadableAnswered<G>(lib: Engine.Library<G>, w: World, r: Request)
    requires Load(lib, w).Err? && w.game.active
    requires r.Submit? ==> r.ply >= 1
    requires !r.Submit? && !r.Sweep? ==> SeatOf(w.game.players, r.player).Some?
    requires r.Sweep? ==> Clock.PastDeadline(w.game.timeControl, w.game.clockAnchor, r.now)
    ensures Step(lib, w, r) == (w, Rejected(Internal))
  {
  }

  /** A payload that names no listed move asks for a promotion exactly if a listed move between its
      squares is one. */
  lemma {:induction false} PromotionWantedIff(legal: seq<Engine.Move>, c: Engine.Coordinates)
    requires Engine.Match(legal, c).Err?
    ensures Engine.Match(legal, c).error == Engine.PromotionRequired <==>
            exists k :: 0 <= k < |legal| && legal[k].promo != "" && c.from + c.to <= legal[k].s1 + legal[k].s2 + legal[k].promo
    ensures Engine.Match(legal, c).error != Engine.PromotionRequired ==> Engine.Match(legal, c).error == Engine.NotLegal(c.promotion != "")
  {
    if legal != [] {
      PromotionWantedIff(legal[1..], c);
      assert forall k :: 1 <= k < |legal| ==> legal[k] == legal[1..][k - 1];
      if k :| 0 <= k < |legal| && legal[k].promo != "" && c.from + c.to <= legal[k].s1 + legal[k].s2 + legal[k].promo {
        if k > 0 { assert legal[1..][k - 1].promo != ""; }
      }
      if k :| 0 <= k < |legal| - 1 && legal[1..][k].promo != "" && c.from + c.to <= legal[1..][k].s1 + legal[1..][k].s2 + legal[1..][k].promo {
        assert legal[k + 1].promo != "";
      }
    }
  }

  /** The engine by itself: the shape of a payload, then the seat, then the move list; and a listed
      move the library does not play is refused when it is applied. */
  lemma EngineRefuses<G>(lib: Engine.Library<G>, st: Engine.State<G>, black: bool, p: Engine.Payload)
    ensures !WellShaped(p) ==> Engine.Validate(lib, st, if black then "black" else "white", p) == Err(Engine.Malformed) && Engine.Apply(lib, st, p) == Err(Engine.Malformed)
    ensures WellShaped(p) && black != lib.blackToMove(st.game) ==>
              Engine.Validate(lib, st, if black then "black" else "white", p) == Err(Engine.WrongSeat)
    ensures WellShaped(p) && black == lib.blackToMove(st.game) ==>
              (Engine.Validate(lib, st, if black then "black" else "white", p).Ok? <==> Playable(lib, st.game, p))
    ensures WellShaped(p) ==> forall i: nat :: Listed(lib, st.game, p, i) ==>
              (Engine.Apply(lib, st, p) == Err(Engine.LibraryRefused) <==> lib.play(st.game, lib.validMoves(st.game)[i]) == None)
  {
    ShapeDecides(p);
    assert "white"[0] != "black"[0];
    if WellShaped(p) {
      if Playable(lib, st.game, p) {
        forall i: nat | Listed(lib, st.game, p, i)
          ensures Engine.Match(lib.validMoves(st.game), Engine.Coordinates(p.from, p.to, p.promotion)) == Ok(lib.validMoves(st.game)[i])
        {
          ListedIsFirst(lib, st.game, p, i);
        }
      } else {
        UnlistedHasNoMatch(lib, st.game, p);
      }
    }
  }
}
