/** Short runs of overlapping requests that no sequence of atomic requests explains. */
module RaceWitnesses {
  import opened Wrappers
  import Clock
  import Engine
  import opened Games
  import opened GameRuns
  import opened Races

  /** Two requests load the same rows; the first commits, then the second. */
  function Overlap(first: Request, second: Request): seq<Event> {
    [LoadRows(0), LoadRows(1), CommitRows(1, first), CommitRows(0, second)]
  }

  lemma OneMoreEvent<G>(lib: Engine.Library<G>, s: Shared, events: seq<Event>, e: Event, all: seq<Event>)
    requires all == events + [e]
    ensures Run(lib, s, all) == Next(lib, Run(lib, s, events), e)
  {
    assert all[..|all| - 1] == events;
  }

  lemma OverlapRuns<G>(lib: Engine.Library<G>, w: World, first: Request, second: Request)
    requires Inv(lib, w)
    ensures var between := Step(lib, w, first).0;
      && Run(lib, Shared(w, map[]), Overlap(first, second)[..3]).rows == between
      && Run(lib, Shared(w, map[]), Overlap(first, second)).rows ==
         if CommitOf(lib, w, between, second).Conflict? then between else CommitOf(lib, w, between, second).rows
  {
    CommitUnchanged(lib, w, first);
    var events, s := Overlap(first, second), Shared(w, map[]);
    OneMoreEvent(lib, s, [], LoadRows(0), events[..1]);
    OneMoreEvent(lib, s, events[..1], LoadRows(1), events[..2]);
    OneMoreEvent(lib, s, events[..2], CommitRows(1, first), events[..3]);
    OneMoreEvent(lib, s, events[..3], CommitRows(0, second), events);
  }

  const WHITE := Player("w", "white")
  const BLACK := Player("b", "black")
  const MINUTE := Clock.TimeControl(Clock.PerMove, 60)

  /** A game just created, and the same opening move received at once and after the deadline. */
  function Opening(): World {
    World(Game([WHITE, BLACK], MINUTE, true, Some(Engine.SnapshotOf(Engine.Board(), Engine.InitialState(Engine.Board()))), 0,
               Some("w"), None, Some(0), Some(0), None, None, None), [])
  }

  function OpeningMove(receivedAt: int): Request {
    Submit("w", 1, Engine.Object(Engine.NSID_CHESS_MOVE, "a1", "a2", "", "", ""), receivedAt, "")
  }

  lemma OpeningIsSound()
    ensures Created(Engine.Board(), [WHITE, BLACK], MINUTE, 0) == Ok(Opening())
    ensures Engine.Lawful(Engine.Board()) && Inv(Engine.Board(), Opening())
  {
    assert "w"[0] != "b"[0];
    CreatedIsSound(Engine.Board(), [WHITE, BLACK], MINUTE, 0);
  }

  const LATE := 61 * Clock.SECOND

  lemma OpeningIsPlayed()
    ensures var (w', resp) := Step(Engine.Board(), Opening(), OpeningMove(0));
      && |w'.moves| == 1 && w'.game.active && w'.game.turnDid == Some("b")
      && w'.game.players == [WHITE, BLACK] && resp.Accepted?
  {
  }

  lemma LateOpeningExpires()
    ensures var (w', resp) := Step(Engine.Board(), Opening(), OpeningMove(LATE));
      && resp == Rejected(ClockExpired) && w' == Opening().(game := Finish(Opening().game, TimeoutOutcome(Opening().game), LATE))
  {
  }

  lemma OfferIsMade()
    ensures Step(Engine.Board(), Opening(), OfferDraw("b")) == (WithOffer(Opening(), Some("b"), Some(0)), Done)
  {
    OpeningIsSound();
    LoadIsReplay(Engine.Board(), Opening());
    TwoPlayerLookups(Opening().game.players, "b");
    OfferStep(Engine.Board(), Opening(), OfferDraw("b"));
  }

  lemma BlackWinsOnTime()
    ensures TimeoutOutcome(Opening().game) == Outcome(true, "b", Timeout)
  {
    assert "w"[0] != "b"[0];
    TwoPlayerLookups(Opening().game.players, "w");
  }

  /** A move received in time and a copy of it received late load the same rows; the first is
      accepted, the second then ends the game against the player who is not on the move.  No
      sequence of atomic requests does that. */
  lemma StaleTimeoutRun()
    ensures var rows := Run(Engine.Board(), Shared(Opening(), map[]), Overlap(OpeningMove(0), OpeningMove(LATE))).rows;
      && |rows.moves| == 1 && rows.game.turnDid == Some("b") && rows.game.result == Some(Outcome(true, "b", Timeout))
      && forall reqs :: rows != After(Engine.Board(), Opening(), reqs)
  {
    var board, w := Engine.Board(), Opening();
    OpeningIsSound();
    OpeningIsPlayed();
    LateOpeningExpires();
    OverlapRuns(board, w, OpeningMove(0), OpeningMove(LATE));
    StaleTimeoutEndsTheGame(board, w, Step(board, w, OpeningMove(0)).0, OpeningMove(LATE));
    BlackWinsOnTime();
    var rows := Run(board, Shared(w, map[]), Overlap(OpeningMove(0), OpeningMove(LATE))).rows;
    forall reqs ensures rows != After(board, w, reqs) {
      RunsKeepInv(board, w, reqs);
    }
  }

  /** The other way round, the late copy finishes the game and the move brings it back. */
  lemma LateMoveRun()
    ensures var events := Overlap(OpeningMove(LATE), OpeningMove(0));
      var between, rows := Run(Engine.Board(), Shared(Opening(), map[]), events[..3]).rows, Run(Engine.Board(), Shared(Opening(), map[]), events).rows;
      && !between.game.active && rows.game.active
      && forall reqs :: rows != After(Engine.Board(), between, reqs)
  {
    var board, w := Engine.Board(), Opening();
    OpeningIsSound();
    OpeningIsPlayed();
    LateOpeningExpires();
    OverlapRuns(board, w, OpeningMove(LATE), OpeningMove(0));
    var between := Step(board, w, OpeningMove(LATE)).0;
    StepKeepsInv(board, w, OpeningMove(LATE));
    LateMoveRevives(board, w, between, OpeningMove(0));
    forall reqs ensures After(board, between, reqs) == between {
      FinishedIsFinal(board, between, reqs);
    }
  }

  /** A draw offer that loads the rows before a move and commits after it stops the game: whatever
      is requested from then on, no move is accepted. */
  lemma StaleOfferRun()
    ensures var rows := Run(Engine.Board(), Shared(Opening(), map[]), Overlap(OpeningMove(0), OfferDraw("b"))).rows;
      && rows.game.active && |rows.moves| == 1
      && forall reqs :: After(Engine.Board(), rows, reqs).moves == rows.moves
  {
    var board, w := Engine.Board(), Opening();
    OpeningIsSound();
    OpeningIsPlayed();
    OverlapRuns(board, w, OpeningMove(0), OfferDraw("b"));
    OfferIsMade();
    var cur := Step(board, w, OpeningMove(0)).0;
    StepKeepsOlder(board, w, w, OpeningMove(0));
    forall reqs ensures After(board, CommitOf(board, w, cur, OfferDraw("b")).rows, reqs).moves == cur.moves {
      StaleOfferStops(board, w, cur, OfferDraw("b"), reqs);
    }
  }
}
