/** The chess engine: payload shape, legality by the library's move list, terminal
    detection, and the two ways of rebuilding a state (replay and snapshot). */
module Engine {
  import opened Wrappers

  const NSID_CHESS_MOVE := "bot.plays.bot.chess.move"
  const MAX_HALFMOVE_CLOCK := 100
  const MIN_REPETITIONS := 3

  // ---- the chess library -------------------------------------------------

  /** A legal move as the library lists it, with its check tag. */
  datatype Move = Move(s1: string, s2: string, promo: string, check: bool) {
    function Text(): string { s1 + s2 + promo }
  }

  datatype Method = NoMethod | Checkmate | Stalemate | InsufficientMaterial | ThreefoldRepetition |
                    FivefoldRepetition | FiftyMoveRule | SeventyFiveMoveRule | OtherMethod

  /** The library the engine is written against: G is its game value.  `outcome` is
      NoMethod while the library holds the game to be in progress. */
  datatype Library<!G> = Library(
    start: G,
    validMoves: G -> seq<Move>,
    play: (G, Move) -> Option<G>,
    blackToMove: G -> bool,
    outcome: G -> Method,
    halfMoveClock: G -> nat,
    positions: G -> seq<string>,
    fen: G -> string,
    san: (G, Move) -> string)

  /** What the engine relies on: White begins, the start is not drawn or over, and a listed
      move can be played and passes the turn. */
  ghost predicate Lawful<G(!new)>(lib: Library<G>) {
    && !lib.blackToMove(lib.start)
    && lib.outcome(lib.start) == NoMethod
    && lib.halfMoveClock(lib.start) < MAX_HALFMOVE_CLOCK
    && |lib.positions(lib.start)| < MIN_REPETITIONS
    && forall g, m :: m in lib.validMoves(g) ==>
         lib.play(g, m).Some? && lib.blackToMove(lib.play(g, m).value) == !lib.blackToMove(g)
  }

  /** A board on which one piece goes to and fro. */
  function Board(): Library<nat> {
    Library(0, g => [Move("a1", "a2", "", false)], (g, m) => Some(g + 1), g => g % 2 == 1,
            g => NoMethod, g => 0, g => [], g => "", (g, m) => "")
  }

  /** The laws ask nothing impossible. */
  lemma LawsAreConsistent()
    ensures exists lib: Library<nat> :: Lawful(lib)
  {
    assert Lawful(Board());
  }

  // ---- payloads ----------------------------------------------------------

  /** A submitted payload: text that is not JSON, JSON that is not an object, or an object's
      members (`rest` stands for those the engine does not read). */
  datatype Payload = NotJson | NotObject(raw: string)
                   | Object(typ: string, from: string, to: string, promotion: string, san: string, rest: string)

  datatype Error =
    | Malformed
    | WrongSeat
    | PromotionRequired
    | NotLegal(withPromotion: bool)
    | LibraryRefused
    | UnexpectedMethod
    | CorruptSnapshot

  predicate IsSquare(s: string) {
    |s| == 2 && 'a' <= s[0] <= 'h' && '1' <= s[1] <= '8'
  }

  /** from, to, promotion: what identifies a move. */
  datatype Coordinates = Coordinates(from: string, to: string, promotion: string) {
    function Text(): string { from + to + promotion }
  }

  function DecodePayload(p: Payload): Result<Coordinates, Error> {
    if !p.Object? || p.typ != NSID_CHESS_MOVE then Err(Malformed)
    else if !IsSquare(p.from) || !IsSquare(p.to) then Err(Malformed)
    else if p.promotion !in ["", "q", "r", "b", "n"] then Err(Malformed)
    else Ok(Coordinates(p.from, p.to, p.promotion))
  }

  // ---- states ------------------------------------------------------------

  datatype State<G> = State(game: G, moves: seq<string>, check: bool)

  function InitialState<G>(lib: Library<G>): State<G> {
    State(lib.start, [], false)
  }

  function Seat(black: bool): string {
    if black then "black" else "white"
  }

  // ---- matching a payload to a legal move --------------------------------

  /** The move listed under exactly this text, or why there is none. */
  function Match(legal: seq<Move>, c: Coordinates): (r: Result<Move, Error>)
    ensures r.Ok? ==> r.value in legal && r.value.Text() == c.Text()
    ensures r.Ok? <==> exists i :: 0 <= i < |legal| && legal[i].Text() == c.Text()
  {
    if legal == [] then Err(NotLegal(c.promotion != ""))
    else if legal[0].Text() == c.Text() then Ok(legal[0])
    else
      var rest := Match(legal[1..], c);
      assert forall i :: 1 <= i < |legal| ==> legal[i] == legal[1..][i - 1];
      if rest.Err? && (rest.error == PromotionRequired || NeedsPromotion(legal[0], c)) then Err(PromotionRequired)
      else rest
  }

  predicate NeedsPromotion(m: Move, c: Coordinates) {
    c.from + c.to <= m.Text() && m.promo != ""
  }

  /** Two passes over the legal moves: the exact one, else the common reason. */
  method MatchMove<G>(lib: Library<G>, g: G, c: Coordinates) returns (r: Result<Move, Error>)
    ensures r == Match(lib.validMoves(g), c)
  {
    var legal := lib.validMoves(g);
    var i := 0;
    while i < |legal|
      invariant 0 <= i <= |legal|
      invariant forall k :: 0 <= k < i ==> legal[k].Text() != c.Text()
    {
      if legal[i].Text() == c.Text() {
        MatchFirst(legal, c, i);
        return Ok(legal[i]);
      }
      i := i + 1;
    }
    i := 0;
    while i < |legal|
      invariant 0 <= i <= |legal|
      invariant forall k :: 0 <= k < i ==> !NeedsPromotion(legal[k], c)
    {
      if NeedsPromotion(legal[i], c) {
        NoMatchReason(legal, c);
        return Err(PromotionRequired);
      }
      i := i + 1;
    }
    NoMatchReason(legal, c);
    return Err(NotLegal(c.promotion != ""));
  }

  lemma {:induction false} MatchFirst(legal: seq<Move>, c: Coordinates, i: nat)
    requires i < |legal| && legal[i].Text() == c.Text()
    requires forall k :: 0 <= k < i ==> legal[k].Text() != c.Text()
    ensures Match(legal, c) == Ok(legal[i])
  {
    if i > 0 {
      assert forall k :: 0 <= k < i - 1 ==> legal[1..][k] == legal[k + 1];
      MatchFirst(legal[1..], c, i - 1);
    }
  }

  lemma {:induction false} NoMatchReason(legal: seq<Move>, c: Coordinates)
    requires forall k :: 0 <= k < |legal| ==> legal[k].Text() != c.Text()
    ensures Match(legal, c) == Err(if exists k :: 0 <= k < |legal| && NeedsPromotion(legal[k], c)
                                   then PromotionRequired else NotLegal(c.promotion != ""))
  {
    if legal != [] {
      assert forall k :: 0 <= k < |legal| - 1 ==> legal[1..][k] == legal[k + 1];
      NoMatchReason(legal[1..], c);
      if k :| 0 <= k < |legal| && NeedsPromotion(legal[k], c) {
        if k > 0 { assert NeedsPromotion(legal[1..][k - 1], c); }
      }
      if k :| 0 <= k < |legal[1..]| && NeedsPromotion(legal[1..][k], c) {
        assert NeedsPromotion(legal[k + 1], c);
      }
    }
  }

  // ---- applying and validating -------------------------------------------

  function Validate<G>(lib: Library<G>, s: State<G>, seat: string, p: Payload): Result<Move, Error> {
    var c :- DecodePayload(p);
    if Seat(lib.blackToMove(s.game)) != seat then Err(WrongSeat) else Match(lib.validMoves(s.game), c)
  }

  /** The successor state; the input is left as it was. */
  function Apply<G>(lib: Library<G>, s: State<G>, p: Payload): Result<State<G>, Error> {
    var c :- DecodePayload(p);
    var m :- Match(lib.validMoves(s.game), c);
    Play(lib, s, m)
  }

  function Play<G>(lib: Library<G>, s: State<G>, m: Move): Result<State<G>, Error> {
    match lib.play(s.game, m)
    case None => Err(LibraryRefused)
    case Some(g) => Ok(State(g, s.moves + [m.Text()], m.check))
  }

  /** Apply re-checks legality: under the lawful library it refuses nothing Validate admits,
      and what it applies logs one move and passes the turn. */
  lemma ApplyPassesTheTurn<G(!new)>(lib: Library<G>, s: State<G>, p: Payload)
    requires Lawful(lib)
    ensures Validate(lib, s, Seat(lib.blackToMove(s.game)), p).Ok? <==> Apply(lib, s, p).Ok?
    ensures Apply(lib, s, p).Ok? ==>
              lib.blackToMove(Apply(lib, s, p).value.game) == !lib.blackToMove(s.game)
  {
  }

  // ---- terminal states ---------------------------------------------------

  datatype Reason = ByCheckmate | ByStalemate | ByRepetition | ByFiftyMoves | ByInsufficientMaterial

  datatype Terminal = Terminal(win: bool, winnerSeat: string, reason: Reason)

  function Count(s: seq<string>, x: string): (n: nat)
    ensures n <= |s|
  {
    if s == [] then 0 else Count(s[..|s| - 1], x) + if s[|s| - 1] == x then 1 else 0
  }

  /** How often the current position has occurred. */
  function Repetitions(positions: seq<string>): nat {
    if positions == [] then 0 else Count(positions, positions[|positions| - 1])
  }

  method RepetitionCount<G>(lib: Library<G>, g: G) returns (count: nat)
    ensures count == Repetitions(lib.positions(g))
  {
    var positions := lib.positions(g);
    if |positions| == 0 { return 0; }
    var cur := positions[|positions| - 1];
    count := 0;
    var i := 0;
    while i < |positions|
      invariant 0 <= i <= |positions|
      invariant count == Count(positions[..i], cur)
    {
      assert positions[..i + 1][..i] == positions[..i];
      if positions[i] == cur { count := count + 1; }
      i := i + 1;
    }
    assert positions[..|positions|] == positions;
  }

  /** Automatic draws first, while the library still holds the game in progress; then
      whatever the library declared. */
  function TerminalOf<G>(lib: Library<G>, s: State<G>): Result<Option<Terminal>, Error> {
    match lib.outcome(s.game)
    case NoMethod =>
      if lib.halfMoveClock(s.game) >= MAX_HALFMOVE_CLOCK then Ok(Some(Terminal(false, "", ByFiftyMoves)))
      else if Repetitions(lib.positions(s.game)) >= MIN_REPETITIONS then Ok(Some(Terminal(false, "", ByRepetition)))
      else Ok(None)
    case Checkmate => Ok(Some(Terminal(true, Seat(!lib.blackToMove(s.game)), ByCheckmate)))
    case Stalemate => Ok(Some(Terminal(false, "", ByStalemate)))
    case InsufficientMaterial => Ok(Some(Terminal(false, "", ByInsufficientMaterial)))
    case ThreefoldRepetition => Ok(Some(Terminal(false, "", ByRepetition)))
    case FivefoldRepetition => Ok(Some(Terminal(false, "", ByRepetition)))
    case FiftyMoveRule => Ok(Some(Terminal(false, "", ByFiftyMoves)))
    case SeventyFiveMoveRule => Ok(Some(Terminal(false, "", ByFiftyMoves)))
    case OtherMethod => Err(UnexpectedMethod)
  }

  // ---- replay ------------------------------------------------------------

  /** The state after a list of payloads, from the start. */
  function Replayed<G>(lib: Library<G>, payloads: seq<Payload>): Result<State<G>, Error> {
    if payloads == [] then Ok(InitialState(lib))
    else
      var before :- Replayed(lib, payloads[..|payloads| - 1]);
      Apply(lib, before, payloads[|payloads| - 1])
  }

  method Replay<G>(lib: Library<G>, payloads: seq<Payload>) returns (r: Result<State<G>, Error>)
    ensures r.Ok? == Replayed(lib, payloads).Ok?
    ensures r.Ok? ==> r == Replayed(lib, payloads)
  {
    var st := InitialState(lib);
    var i := 0;
    while i < |payloads|
      invariant 0 <= i <= |payloads|
      invariant Replayed(lib, payloads[..i]) == Ok(st)
    {
      assert payloads[..i + 1][..i] == payloads[..i];
      var next := Apply(lib, st, payloads[i]);
      if next.Err? {
        FailedPrefix(lib, payloads, i + 1);
        return next;
      }
      st := next.value;
      i := i + 1;
    }
    assert payloads[..|payloads|] == payloads;
    return Ok(st);
  }

  lemma {:induction false} FailedPrefix<G>(lib: Library<G>, payloads: seq<Payload>, n: nat)
    requires n <= |payloads| && Replayed(lib, payloads[..n]).Err?
    ensures Replayed(lib, payloads).Err?
  {
    if n == |payloads| {
      assert payloads[..n] == payloads;
    } else {
      assert payloads[..|payloads| - 1][..n] == payloads[..n];
      FailedPrefix(lib, payloads[..|payloads| - 1], n);
    }
  }

  // ---- snapshots ---------------------------------------------------------

  datatype Snapshot = Snapshot(fen: string, check: bool, moves: seq<string>)

  function SnapshotOf<G>(lib: Library<G>, s: State<G>): Snapshot {
    Snapshot(lib.fen(s.game), s.check, s.moves)
  }

  /** Split a logged move text.  A text too short to split is a corrupt snapshot. */
  function ParseMove(text: string): Result<Coordinates, Error> {
    if |text| < 4 then Err(CorruptSnapshot)
    else Ok(Coordinates(text[..2], text[2..4], text[4..]))
  }

  /** The state after a list of move texts, from the start. */
  function Relived<G>(lib: Library<G>, moves: seq<string>): Result<State<G>, Error> {
    if moves == [] then Ok(InitialState(lib))
    else
      var before :- Relived(lib, moves[..|moves| - 1]);
      Relive(lib, before, moves[|moves| - 1])
  }

  function Relive<G>(lib: Library<G>, s: State<G>, text: string): Result<State<G>, Error> {
    var c :- ParseMove(text);
    var m :- Match(lib.validMoves(s.game), c);
    Play(lib, s, m)
  }

  method ReliveMove<G>(lib: Library<G>, s: State<G>, text: string) returns (r: Result<State<G>, Error>)
    ensures r == Relive(lib, s, text)
  {
    var c := ParseMove(text);
    if c.Err? { return Err(c.error); }
    var m := MatchMove(lib, s.game, c.value);
    if m.Err? { return Err(m.error); }
    return Play(lib, s, m.value);
  }

  /** Only the move log is read back: the position text and the check flag are derived. */
  method Restore<G>(lib: Library<G>, snap: Snapshot) returns (r: Result<State<G>, Error>)
    ensures r.Ok? ==> r == Relived(lib, snap.moves)
    ensures r.Err? ==> Relived(lib, snap.moves).Err?
  {
    var st := InitialState(lib);
    var i := 0;
    while i < |snap.moves|
      invariant 0 <= i <= |snap.moves|
      invariant Relived(lib, snap.moves[..i]) == Ok(st)
    {
      assert snap.moves[..i + 1][..i] == snap.moves[..i];
      var next := ReliveMove(lib, st, snap.moves[i]);
      if next.Err? {
        FailedLog(lib, snap.moves, i + 1);
        return next;
      }
      st := next.value;
      i := i + 1;
    }
    assert snap.moves[..|snap.moves|] == snap.moves;
    return Ok(st);
  }

  lemma {:induction false} FailedLog<G>(lib: Library<G>, moves: seq<string>, n: nat)
    requires n <= |moves| && Relived(lib, moves[..n]).Err?
    ensures Relived(lib, moves).Err?
  {
    if n == |moves| {
      assert moves[..n] == moves;
    } else {
      assert moves[..|moves| - 1][..n] == moves[..n];
      FailedLog(lib, moves[..|moves| - 1], n);
    }
  }

  /** The text logged for a move is enough to make it again. */
  lemma ReliveRepeatsApply<G>(lib: Library<G>, s: State<G>, p: Payload)
    requires Apply(lib, s, p).Ok?
    ensures var next := Apply(lib, s, p).value;
      |next.moves| == |s.moves| + 1 && next.moves[..|s.moves|] == s.moves &&
      Relive(lib, s, next.moves[|s.moves|]) == Ok(next)
  {
    var c := DecodePayload(p).value;
    var m := Match(lib.validMoves(s.game), c).value;
    var text := m.Text();
    assert text == c.from + c.to + c.promotion;
    assert text[..2] == c.from && text[2..4] == c.to && text[4..] == c.promotion;
    assert ParseMove(text) == Ok(c);
  }

  /** A snapshot of any state a game can reach restores to that very state: game, move log
      and check flag.  So both ways of loading a game agree. */
  lemma {:induction false} RestoreUndoesSnapshot<G>(lib: Library<G>, payloads: seq<Payload>)
    requires Replayed(lib, payloads).Ok?
    ensures var s := Replayed(lib, payloads).value;
      Relived(lib, SnapshotOf(lib, s).moves) == Ok(s) && |s.moves| == |payloads|
  {
    if payloads != [] {
      var n := |payloads| - 1;
      RestoreUndoesSnapshot(lib, payloads[..n]);
      ReliveRepeatsApply(lib, Replayed(lib, payloads[..n]).value, payloads[n]);
    }
  }

  /** The turn alternates from White, whatever was played. */
  lemma {:induction false} TurnIsParity<G(!new)>(lib: Library<G>, payloads: seq<Payload>)
    requires Lawful(lib) && Replayed(lib, payloads).Ok?
    ensures lib.blackToMove(Replayed(lib, payloads).value.game) <==> |payloads| % 2 == 1
  {
    if payloads != [] {
      var n := |payloads| - 1;
      TurnIsParity(lib, payloads[..n]);
      ApplyPassesTheTurn(lib, Replayed(lib, payloads[..n]).value, payloads[n]);
    }
  }
}
