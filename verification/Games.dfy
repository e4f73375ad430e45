/** The game manager: one game's row and move table, and the requests that change them.
    Each request is one atomic step here; Games concurrency is in module Races. */
module Games {
  import opened Wrappers
  import Clock
  import Engine

  datatype Player = Player(did: string, seat: string)

  datatype Reason = Chess(why: Engine.Reason) | Timeout | Resignation | Agreement

  /** `winner` is a DID for wins and empty for draws. */
  datatype Outcome = Outcome(win: bool, winner: string, reason: Reason)

  datatype Game = Game(
    players: seq<Player>,
    timeControl: Clock.TimeControl,
    active: bool,
    snapshot: Option<Engine.Snapshot>,
    ply: int,
    turnDid: Option<string>,
    result: Option<Outcome>,
    startedAt: Option<int>,
    clockAnchor: Option<int>,
    finishedAt: Option<int>,
    drawOfferDid: Option<string>,
    drawOfferPly: Option<int>)

  datatype MoveRow = MoveRow(
    ply: int,
    player: string,
    payload: Engine.Payload,
    notation: string,
    receivedAt: int,
    clockRemainingMs: int,
    token: string)

  /** A game row together with its moves, ordered by ply. */
  datatype World = World(game: Game, moves: seq<MoveRow>)

  datatype Code = GameNotActive | NotYourTurn | PlyMismatch | IllegalMove | ClockExpired
                | MalformedPayload | InvalidRequest | Forbidden | Internal

  datatype Acceptance = Acceptance(move: MoveRow, terminal: Option<Outcome>)

  datatype Response = Accepted(acceptance: Acceptance) | Finished(outcome: Outcome) | Done
                    | Rejected(code: Code)

  /** `token` is the signed token minted for the submission, should it be accepted. */
  datatype Request =
    | Submit(player: string, ply: int, payload: Engine.Payload, receivedAt: int, token: string)
    | Resign(player: string, now: int)
    | OfferDraw(player: string)
    | AcceptDraw(player: string, now: int)
    | DeclineDraw(player: string)
    | Sweep(now: int)

  // ---- lookups -----------------------------------------------------------

  /** The seat a DID holds: the first match, as the scan finds it. */
  function SeatOf(players: seq<Player>, did: string): Option<string> {
    if players == [] then None
    else if players[0].did == did then Some(players[0].seat)
    else SeatOf(players[1..], did)
  }

  /** The last player who is not `did`. */
  function OpponentOf(players: seq<Player>, did: string): string {
    if players == [] then ""
    else if players[|players| - 1].did != did then players[|players| - 1].did
    else OpponentOf(players[..|players| - 1], did)
  }

  /** The last player in a seat. */
  function HolderOf(players: seq<Player>, seat: string): string {
    if players == [] then ""
    else if players[|players| - 1].seat == seat then players[|players| - 1].did
    else HolderOf(players[..|players| - 1], seat)
  }

  function SeatIndex(players: seq<Player>, seat: string): (i: nat)
    ensures i <= |players|
  {
    if players == [] || players[0].seat == seat then 0 else 1 + SeatIndex(players[1..], seat)
  }

  /** Whose turn follows a seat, in seat order. */
  function NextSeatDid(players: seq<Player>, seat: string): string {
    var i := SeatIndex(players, seat);
    if i < |players| then players[(i + 1) % |players|].did
    else if |players| > 0 then players[0].did
    else ""
  }

  function OutcomeOf(t: Engine.Terminal, players: seq<Player>): Outcome {
    Outcome(t.win, if t.win then HolderOf(players, t.winnerSeat) else "", Chess(t.reason))
  }

  function TimeoutOutcome(g: Game): Outcome {
    Outcome(true, OpponentOf(g.players, if g.turnDid.Some? then g.turnDid.value else ""), Timeout)
  }

  // ---- loading -----------------------------------------------------------

  function Payloads(moves: seq<MoveRow>): (r: seq<Engine.Payload>)
    ensures |r| == |moves|
  {
    seq(|moves|, i requires 0 <= i < |moves| => moves[i].payload)
  }

  /** Replay the stored payloads; with none stored, restore the snapshot. */
  function Load<G>(lib: Engine.Library<G>, w: World): Result<Engine.State<G>, Engine.Error> {
    if w.moves != [] then Engine.Replayed(lib, Payloads(w.moves))
    else if w.game.snapshot.Some? then Engine.Relived(lib, w.game.snapshot.value.moves)
    else Ok(Engine.InitialState(lib))
  }

  function EngineCode(e: Engine.Error): Code {
    match e
    case Malformed => MalformedPayload
    case WrongSeat => IllegalMove
    case PromotionRequired => IllegalMove
    case NotLegal(_) => IllegalMove
    case LibraryRefused => IllegalMove
    case UnexpectedMethod => Internal
    case CorruptSnapshot => Internal
  }

  function Anchor(g: Game): Option<int> {
    if g.clockAnchor.Some? then g.clockAnchor else g.startedAt
  }

  // ---- the requests ------------------------------------------------------

  /** Finishing is conditional on the row still being active. */
  function Finish(g: Game, outcome: Outcome, at: int): Game
    requires g.active
  {
    g.(active := false, result := Some(outcome), finishedAt := Some(at))
  }

  /** The row after an accepted move. */
  function Moved<G>(lib: Engine.Library<G>, g: Game, seat: string, r: Request, next: Engine.State<G>,
                    terminal: Option<Engine.Terminal>): Game
    requires r.Submit? && g.active
  {
    var cleared := g.drawOfferDid == Some(r.player);
    var g' := g.(ply := r.ply,
                 turnDid := Some(NextSeatDid(g.players, seat)),
                 snapshot := Some(Engine.SnapshotOf(lib, next)),
                 clockAnchor := Some(r.receivedAt),
                 drawOfferDid := if cleared then None else g.drawOfferDid,
                 drawOfferPly := if cleared then None else g.drawOfferPly);
    match terminal
    case None => g'
    case Some(t) => Finish(g', OutcomeOf(t, g.players), r.receivedAt)
  }

  function Submitted<G>(lib: Engine.Library<G>, w: World, r: Request): (World, Response)
    requires r.Submit?
  {
    var g := w.game;
    if !g.active then (w, Rejected(GameNotActive))
    else if r.ply < 1 then (w, Rejected(PlyMismatch))
    else
      match Load(lib, w)
      case Err(_) => (w, Rejected(Internal))
      case Ok(st) =>
        match SeatOf(g.players, r.player)
        case None => (w, Rejected(NotYourTurn))
        case Some(seat) =>
          if r.ply <= |w.moves| then
            if r.payload.NotJson? then (w, Rejected(MalformedPayload))
            else if w.moves[r.ply - 1].payload != r.payload then (w, Rejected(PlyMismatch))
            else (w, Accepted(Acceptance(w.moves[r.ply - 1], if r.ply == g.ply then g.result else None)))
          else if g.turnDid != Some(r.player) then (w, Rejected(NotYourTurn))
          else if r.ply != g.ply + 1 then (w, Rejected(PlyMismatch))
          else
            match Clock.RemainingMs(g.timeControl, Anchor(g), r.receivedAt)
            case Err(_) => (w, Rejected(InvalidRequest))
            case Ok(remaining) =>
              if remaining <= 0 then
                (w.(game := Finish(g, TimeoutOutcome(g), r.receivedAt)), Rejected(ClockExpired))
              else Played(lib, w, r, st, seat, remaining)
  }

  /** The engine's part of a submission, once turn, ply and clock are in order. */
  function Played<G>(lib: Engine.Library<G>, w: World, r: Request, st: Engine.State<G>, seat: string, remaining: int): (World, Response)
    requires r.Submit? && w.game.active
  {
    match Engine.Validate(lib, st, seat, r.payload)
    case Err(e) => (w, Rejected(EngineCode(e)))
    case Ok(move) =>
      match Engine.Apply(lib, st, r.payload)
      case Err(e) => (w, Rejected(EngineCode(e)))
      case Ok(next) =>
        match Engine.TerminalOf(lib, next)
        case Err(_) => (w, Rejected(Internal))
        case Ok(terminal) =>
          var row := MoveRow(r.ply, r.player, r.payload, lib.san(st.game, move), r.receivedAt, remaining, r.token);
          var g' := Moved(lib, w.game, seat, r, next, terminal);
          (World(g', w.moves + [row]), Accepted(Acceptance(row, g'.result)))
  }

  /** What every player request checks first. */
  function PlayerRequest<G>(lib: Engine.Library<G>, w: World, did: string): Option<Code> {
    if !w.game.active then Some(GameNotActive)
    else if SeatOf(w.game.players, did) == None then Some(Forbidden)
    else if Load(lib, w).Err? then Some(Internal)
    else None
  }

  function Step<G>(lib: Engine.Library<G>, w: World, r: Request): (World, Response) {
    var g := w.game;
    match r
    case Submit(_, _, _, _, _) => Submitted(lib, w, r)
    case Resign(p, now) =>
      var denied := PlayerRequest(lib, w, p);
      if denied.Some? then (w, Rejected(denied.value))
      else
        var outcome := Outcome(true, OpponentOf(g.players, p), Resignation);
        (w.(game := Finish(g, outcome, now)), Finished(outcome))
    case OfferDraw(p) =>
      var denied := PlayerRequest(lib, w, p);
      if denied.Some? then (w, Rejected(denied.value))
      else (w.(game := g.(drawOfferDid := Some(p), drawOfferPly := Some(g.ply))), Done)
    case AcceptDraw(p, now) =>
      var denied := PlayerRequest(lib, w, p);
      if denied.Some? then (w, Rejected(denied.value))
      else if g.drawOfferDid == None || g.drawOfferDid == Some(p) then (w, Rejected(InvalidRequest))
      else
        var outcome := Outcome(false, "", Agreement);
        (w.(game := Finish(g, outcome, now)), Finished(outcome))
    case DeclineDraw(p) =>
      var denied := PlayerRequest(lib, w, p);
      if denied.Some? then (w, Rejected(denied.value))
      else if g.drawOfferDid == None then (w, Rejected(InvalidRequest))
      else (w.(game := g.(drawOfferDid := None, drawOfferPly := None)), Done)
    case Sweep(now) =>
      if !g.active || !Clock.PastDeadline(g.timeControl, g.clockAnchor, now) then (w, Done)
      else if Load(lib, w).Err? then (w, Rejected(Internal))
      else (w.(game := Finish(g, TimeoutOutcome(g), now)), Finished(TimeoutOutcome(g)))
  }

  // ---- creation ----------------------------------------------------------

  /** A created game: seats in engine order, a clock that can run, the initial snapshot. */
  function Created<G>(lib: Engine.Library<G>, players: seq<Player>, tc: Clock.TimeControl, startedAt: int): Result<World, Code> {
    if |players| != 2 then Err(InvalidRequest)
    else if players[0].seat != "white" || players[1].seat != "black" then Err(InvalidRequest)
    else if Clock.DeadlineFor(tc, Some(startedAt)).Err? then Err(InvalidRequest)
    else
      var snapshot := Engine.SnapshotOf(lib, Engine.InitialState(lib));
      Ok(World(Game(players, tc, true, Some(snapshot), 0, Some(players[0].did), None, Some(startedAt),
                    Some(startedAt), None, None, None), []))
  }

  // ---- the manager -------------------------------------------------------

  /** The manager over one game's rows. */
  class Manager<G> {
    const lib: Engine.Library<G>
    var game: Game
    var moves: seq<MoveRow>

    constructor (lib: Engine.Library<G>, w: World)
      ensures this.lib == lib && Rows() == w
    {
      this.lib := lib;
      game, moves := w.game, w.moves;
    }

    function Rows(): World
      reads this
    {
      World(game, moves)
    }

    method LoadGame() returns (r: Result<Engine.State<G>, Engine.Error>)
      ensures r.Ok? == Load(lib, Rows()).Ok? && (r.Ok? ==> r == Load(lib, Rows()))
    {
      if |moves| > 0 {
        r := Engine.Replay(lib, Payloads(moves));
      } else if game.snapshot.Some? {
        r := Engine.Restore(lib, game.snapshot.value);
      } else {
        r := Ok(Engine.InitialState(lib));
      }
    }

    /** The conditional finish shared by timeouts, resignations and agreed draws. */
    method FinishTimeout(outcome: Outcome, at: int) returns (ok: bool)
      modifies this`game
      ensures ok == old(game.active)
      ensures game == if ok then Finish(old(game), outcome, at) else old(game)
    {
      if !game.active { return false; }
      game := game.(active := false, result := Some(outcome), finishedAt := Some(at));
      return true;
    }

    method SubmitMove(r: Request) returns (resp: Response)
      requires r.Submit?
      modifies this
      ensures (Rows(), resp) == Step(lib, old(Rows()), r)
    {
      if !game.active { return Rejected(GameNotActive); }
      if r.ply < 1 { return Rejected(PlyMismatch); }
      var loaded := LoadGame();
      if loaded.Err? { return Rejected(Internal); }
      var st := loaded.value;
      var seat := SeatOf(game.players, r.player);
      if seat == None { return Rejected(NotYourTurn); }
      if r.ply <= |moves| {
        if r.payload.NotJson? { return Rejected(MalformedPayload); }
        if moves[r.ply - 1].payload != r.payload { return Rejected(PlyMismatch); }
        return Accepted(Acceptance(moves[r.ply - 1], if r.ply == game.ply then game.result else None));
      }
      if game.turnDid != Some(r.player) { return Rejected(NotYourTurn); }
      if r.ply != game.ply + 1 { return Rejected(PlyMismatch); }
      var remaining := Clock.RemainingMs(game.timeControl, Anchor(game), r.receivedAt);
      if remaining.Err? { return Rejected(InvalidRequest); }
      if remaining.value <= 0 {
        var _ := FinishTimeout(TimeoutOutcome(game), r.receivedAt);
        return Rejected(ClockExpired);
      }
      resp := PlayMove(r, st, seat.value, remaining.value);
    }

    /** Validate, apply and commit: the move row and the game row together. */
    method PlayMove(r: Request, st: Engine.State<G>, seat: string, remaining: int) returns (resp: Response)
      requires r.Submit? && game.active
      modifies this
      ensures (Rows(), resp) == Played(lib, old(Rows()), r, st, seat, remaining)
    {
      var valid := Engine.Validate(lib, st, seat, r.payload);
      if valid.Err? { return Rejected(EngineCode(valid.error)); }
      var applied := Engine.Apply(lib, st, r.payload);
      if applied.Err? { return Rejected(EngineCode(applied.error)); }
      var term := Engine.TerminalOf(lib, applied.value);
      if term.Err? { return Rejected(Internal); }
      var row := MoveRow(r.ply, r.player, r.payload, lib.san(st.game, valid.value), r.receivedAt, remaining, r.token);
      var offerCleared := game.drawOfferDid == Some(r.player);
      var players := game.players;

      moves := moves + [row];
      game := game.(ply := r.ply, turnDid := Some(NextSeatDid(players, seat)),
                    snapshot := Some(Engine.SnapshotOf(lib, applied.value)), clockAnchor := Some(r.receivedAt));
      if offerCleared {
        game := game.(drawOfferDid := None, drawOfferPly := None);
      }
      if term.value.Some? {
        game := game.(active := false, result := Some(OutcomeOf(term.value.value, players)), finishedAt := Some(r.receivedAt));
      }
      return Accepted(Acceptance(row, game.result));
    }

    /** Active, a player, and loadable; else the code to refuse with. */
    method LoadActivePlayer(did: string) returns (denied: Option<Code>)
      ensures denied == PlayerRequest(lib, Rows(), did)
    {
      if !game.active { return Some(GameNotActive); }
      if SeatOf(game.players, did) == None { return Some(Forbidden); }
      var loaded := LoadGame();
      return if loaded.Err? then Some(Internal) else None;
    }

    method ResignGame(did: string, now: int) returns (resp: Response)
      modifies this
      ensures (Rows(), resp) == Step(lib, old(Rows()), Resign(did, now))
    {
      var denied := LoadActivePlayer(did);
      if denied.Some? { return Rejected(denied.value); }
      var outcome := Outcome(true, OpponentOf(game.players, did), Resignation);
      var _ := FinishTimeout(outcome, now);
      return Finished(outcome);
    }

    /** A new offer replaces any outstanding one. */
    method Offer(did: string) returns (resp: Response)
      modifies this
      ensures (Rows(), resp) == Step(lib, old(Rows()), OfferDraw(did))
    {
      var denied := LoadActivePlayer(did);
      if denied.Some? { return Rejected(denied.value); }
      game := game.(drawOfferDid := Some(did), drawOfferPly := Some(game.ply));
      return Done;
    }

    method Accept(did: string, now: int) returns (resp: Response)
      modifies this
      ensures (Rows(), resp) == Step(lib, old(Rows()), AcceptDraw(did, now))
    {
      var denied := LoadActivePlayer(did);
      if denied.Some? { return Rejected(denied.value); }
      if game.drawOfferDid == None || game.drawOfferDid == Some(did) { return Rejected(InvalidRequest); }
      var outcome := Outcome(false, "", Agreement);
      var _ := FinishTimeout(outcome, now);
      return Finished(outcome);
    }

    method Decline(did: string) returns (resp: Response)
      modifies this
      ensures (Rows(), resp) == Step(lib, old(Rows()), DeclineDraw(did))
    {
      var denied := LoadActivePlayer(did);
      if denied.Some? { return Rejected(denied.value); }
      if game.drawOfferDid == None { return Rejected(InvalidRequest); }
      game := game.(drawOfferDid := None, drawOfferPly := None);
      return Done;
    }
  }
}
