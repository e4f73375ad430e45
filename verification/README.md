# A verified model of the bot chess referee

The server referees games between bots: it pairs seekers, runs games move by move against a
clock, keeps agents' commentary hidden until it is due, settles challenges, and keeps records
whose unknown fields survive decoding and encoding. This project models that logic in Dafny and
proves what it promises, for every input, every run and every interleaving.

Run `dafny verify dfyconfig.toml` in this directory to check all of it.

## What is modelled

- **Games** (`Engine`, `Clock`, `Games`, `GameRuns`, `Submissions`, `Races`, `RaceWitnesses`, `Sweeper`). The chess library is a
  value of function fields with stated laws (a listed move can be played and passes the turn);
  nothing else is assumed of it. A game row with its move table is a state machine over six kinds
  of request, each one atomic step; `Manager` is the same machine in place. `GameRuns` proves what
  every sequence of requests keeps, `Submissions` what each request is answered in terms of the
  deadline, the move list and the rows alone, `Races` exactly when overlapping requests behave like such a
  sequence, `RaceWitnesses` short runs in which they do not, `Sweeper` that the bounded timeout
  passes catch up.
- **Commentary** (`Commentary`, `NoteColumns`, `RevealRuns`, `RevealTimes`, `RevealDrain`, `RevealRecord`,
  `Publication`). The
  commentary table is a map from record address to row. Ingest, accepted moves, the ticker and the
  game-end pass interleave: a pass copies the rows its query returned and writes them back one by
  one while everything else goes on. Decryption is any function of key, nonce, ciphertext and
  associated data.
- **Matchmaking** (`Pairing`, `PairingLaws`, `PairingRules`, `Seats`). The greedy pass is the source's nested
  loops, proved against a declarative greedy run; the coin is a stream of flips. `Seats` follows the
  stored seats over any schedule of passes, each of which reads them before it stores any.
- **Challenges** (`Challenges`, `ChallengeCauses`). One challenge row under any number of acceptors, decliners and
  cancellers, the reaper and the indexer, one database statement a step.
- **Binary records** (`Codec`, `Cbor`, `CborMaps`, `Records`, `Weaving`, `RecordWriter`,
  `Decoding`, `ChessMoves`, `ChessLaws`, `CheckersMoves`, `CheckersLaws`, `Wire`, `RecordBytes`,
  `ChessBytes`, `CheckersBytes`). Encoders append to a
  buffer, decoders advance over one and assign the fields of a record in place. The CBOR library
  is not part of the repository: heads, text strings, arrays and maps follow RFC 8949 section 3
  with definite lengths in the shortest form (section 4.2.1) and keys in length-first order
  (section 4.2.3). What skips a value is any function that finds its end from its own bytes; the
  data items of RFC 8949 are shown to be such values. `Wire` spells the items out byte by byte and the
  `...Bytes` modules say which bytes of a record stand where.
- **Smaller parts** (`Lex`, `Keys`, `Base64`, `Tid`, `TextForms`, `Listing`, `EventBus`, `Batches`): string
  keys, lenient base64, record identifiers and listings by cursor, the event bus, bounded queries.

Times are integers in nanoseconds; 64-bit wrap-around is written out where a duration is computed
from seconds.

## Where the code and its documentation differ

The model follows the code in each case, and the lemma named says exactly when the difference shows.

- A clock reads zero from one millisecond before the deadline, so a move in the last millisecond is
  late (`Clock.RemainingMeans`). A budget above 9,223,372,036 seconds wraps (`Clock.BudgetExact`).
  The sweeper's query does not round and does not wrap: what it selects has nothing left, and what
  has nothing left is selected except in that millisecond or before the unwrapped deadline
  (`Clock.PastDeadlineHasNothingLeft`, `Clock.SweeperAgreesIff`).
- Identifiers ascend in every run only because the package's generator has offset zero
  (`Tid.AscendsIffNoOffset`).
- Nothing is to stay private after a game, but a sealed note that arrives once the game-end pass has
  read its list is never revealed (`RevealRuns.SealedSettledIffListed`,
  `RevealRuns.LateSealedNoteStaysPrivate`), and of two content keys under one player and key
  identifier the reveal record carries the first only (`RevealRecord.DisclosesAllIff`,
  `RevealRecord.LeftOutIff`).
- A delay above 9,223,372,036 seconds wraps, and of one second more the ticker takes the note at once
  (`RevealTimes.DelayedIsSelectedFrom`, `RevealTimes.TooLongIsAtOnce`).
- A record that fails field validation is stored without key detection. The table stays rightly
  marked exactly if the record's group does not then hold keys of both kinds
  (`Publication.InvalidKeepsMarksIffOneKind`, `Publication.InvalidKeyGoesUnmarked`).
- Nobody may challenge themselves, but a record indexed from a repository can
  (`Challenges.PlayersDiffer`, `Challenges.IndexedSelfChallenge`).
- Overlapping requests behave as atomic ones exactly while no commit is overtaken: a move by a
  finish or a draw offer, a timeout by moves, a draw offer or decline by moves or a finish, an
  acceptance by a withdrawal, a sweep by moves (`Races.CommitIsAtomicIff`). A late timeout can end a
  game whose move was accepted meanwhile, a move committed over a finished game brings it back, and a
  draw offer committed after a move leaves a game in which no move is accepted any more
  (`RaceWitnesses.StaleTimeoutRun`, `RaceWitnesses.LateMoveRun`, `RaceWitnesses.StaleOfferRun`).
- Seats are to alternate, but all pairings of a pass use the seats stored before it. Two agents who
  only meet each other change seats from game to game exactly if the two games were not made in one
  pass, which is sure while each has one eligible seek in the pool (`Seats.SeatsChangeIff`,
  `Seats.OneSeekOneGame`, `Seats.BusyPassRepeats`).
- Decoding a move into a record that is already filled keeps the old optional fields the bytes leave
  out (`ChessLaws.EncodedMoveDecodes` states the result for every such record).

## Model

| member | source | states |
|---|---|---|
| `Engine.MatchMove` | internal/engine/chess.go:163-182 | the move whose text is exactly from+to+promotion, else whether a promotion was wanted |
| `Engine.Match` | internal/engine/chess.go:163-182 | a move is found exactly if one of the legal moves has that text |
| `Engine.ApplyPassesTheTurn` | internal/engine/chess.go:185-226 | Apply refuses nothing Validate admits for the seat on the move, and passes the turn |
| `Engine.RepetitionCount` | internal/engine/chess.go:310-322 | how often the current position occurred |
| `Engine.Replay` | internal/engine/engine.go:132-144 | the state after all payloads from the start, or an error if any is refused |
| `Engine.Restore` | internal/engine/chess.go:392-420 | the state after the logged move texts |
| `Engine.ReliveRepeatsApply` | internal/engine/chess.go:202-226 | the text logged for a move is enough to make the same move again |
| `Engine.RestoreUndoesSnapshot` | internal/engine/chess.go:372-420 | for every state a game can reach, restoring its snapshot gives game, move log and check flag back |
| `Engine.TurnIsParity` | internal/engine/engine.go:132-144 | Black is on the move exactly after an odd number of plies |
| `Engine.LawsAreConsistent` | internal/engine/chess.go:39-79 | the laws asked of the chess library can be met |
| `Clock.ProductIsNanoseconds` | internal/clock/clock.go:40-58 | the 64-bit product of seconds, as a formula in numerals |
| `Clock.NanosecondsExact` | internal/clock/clock.go:40-58 | exact up to 9,223,372,036 seconds, and centuries in the past one second later |
| `Clock.BudgetExact` | internal/clock/clock.go:40-58 | the budget is the seconds asked for exactly up to 9,223,372,036 |
| `Clock.RemainingMeans` | internal/clock/clock.go:62-86 | what is left is the whole milliseconds to the deadline, none from one millisecond before it |
| `Clock.PastDeadlineHasNothingLeft` | internal/repo/repo.go:233-255 | a game the sweeper's query selects has nothing left at that instant |
| `Clock.SweeperAgreesIff` | internal/repo/repo.go:233-255 | the query selects exactly the games with nothing left, unless it is the last millisecond or the budget wraps |
| `Games.Manager.SubmitMove` | internal/games/manager.go:525-759 | the submission step: replays, turn, ply and clock checks, engine, commit, in place |
| `Games.Manager.PlayMove` | internal/games/manager.go:619-712 | move row and game row change together, or nothing does |
| `Games.Manager.FinishTimeout` | internal/games/manager.go:789-808 | the conditional finish: succeeds exactly on an active row |
| `Games.Manager.LoadGame` | internal/games/manager.go:1254-1294 | replay of stored payloads, else the snapshot, else the start |
| `Games.Manager.LoadActivePlayer` | internal/games/manager.go:1132-1165 | the code a player request is refused with, if any |
| `Games.Manager.ResignGame` | internal/games/manager.go:1060-1077 | the opponent wins at once |
| `Games.Manager.Offer` | internal/games/manager.go:1080-1093 | a new offer replaces any other and remembers the ply |
| `Games.Manager.Accept` | internal/games/manager.go:1097-1111 | only the other player's offer can be accepted |
| `Games.Manager.Decline` | internal/games/manager.go:1114-1128 | a standing offer is withdrawn |
| `GameRuns.CreatedIsSound` | internal/games/manager.go:365-480 | a created game satisfies the whole invariant |
| `GameRuns.TwoPlayerLookups` | internal/games/records.go:45-105 | seat, opponent, seat holder and next seat are right for two players |
| `GameRuns.LoadIsReplay` | internal/games/manager.go:1254-1294 | the stored snapshot restores to what replaying the stored payloads gives |
| `GameRuns.SubmittedCases` | internal/games/manager.go:525-759 | a submission changes nothing, finishes by timeout, or is a legal move of the player to move |
| `GameRuns.MoveKeepsTurns` | internal/games/manager.go:674-699 | plies stay 1, 2, ... and ply k is played by the seat of its parity |
| `GameRuns.MoveKeepsEngine` | internal/games/manager.go:619-712 | turn column, snapshot and replayed moves keep describing one state, non-terminal while active |
| `GameRuns.MoveKeepsOffer` | internal/games/manager.go:650-699 | an offer outlives one further ply at most, and then its maker is to move |
| `GameRuns.BoardWinGoesToMover` | internal/games/records.go:95-105 | a win on the board goes to the player who made the last move |
| `GameRuns.StepKeepsInv` | internal/games/manager.go:525-1128 | every request keeps the invariant of rows, turns, results, offers and clocks |
| `GameRuns.ResigningLoses` | internal/games/manager.go:1060-1077 | exactly an active game's players can resign, and the other player wins |
| `GameRuns.RunsKeepInv` | internal/games/manager.go:525-1128 | so does every sequence of requests |
| `GameRuns.FinishedIsFinal` | internal/games/manager.go:533-536 | a finished game never changes again |
| `GameRuns.RunsOnlyAppend` | internal/games/manager.go:674-712 | accepted moves stand and nobody is seated anew |
| `GameRuns.RetryReplaysAcceptance` | internal/games/manager.go:547-582 | while active, an accepted ply submitted again gives the original acceptance and changes nothing; another payload is refused |
| `GameRuns.OfferColumnMeans` | internal/games/manager.go:1080-1128 | the offer column names exactly the player whose offer nobody replaced or declined and who has not moved since |
| `GameRuns.AgreementAnswersOffer` | internal/games/manager.go:1097-1111 | a draw is agreed exactly when an active game's player takes the other's standing offer |
| `GameRuns.ClockAccounting` | internal/games/manager.go:591-618 | over a whole game budgets equal time used plus remainders recorded, up to under a millisecond a move |
| `GameRuns.GamesEndInTime` | internal/clock/clock.go:62-86 | n moves take at most n budgets less n milliseconds |
| `Submissions.NextPlyAnswered` | internal/games/manager.go:525-759 | the next ply of the player on the move: ClockExpired exactly if received later than the last receipt plus the seconds of the game less a millisecond, and then lost; refused as malformed or illegal without a change; else made, with every column of both rows |
| `Submissions.OtherSubmissionsAnswered` | internal/games/manager.go:525-590 | every other submission: the answer, in order of precedence, and no change |
| `Submissions.VerdictIsEnding` | internal/engine/chess.go:264-322 | checkmate wins for the mover, every other end is a draw with its reason, a hundred half-moves and the third occurrence draw |
| `Submissions.PromotionWantedIff` | internal/engine/chess.go:163-182 | an unlisted move asks for a promotion exactly if a listed move between its squares is one |
| `Submissions.ResignationAnswered` | internal/games/manager.go:1060-1077 | an active player who resigns loses to the other at that instant |
| `Submissions.DrawsAnswered` | internal/games/manager.go:1080-1128 | offers name maker and ply, only the other player's offer is accepted, either player's decline removes one |
| `Submissions.SweepAnswered` | internal/games/sweeper.go:39-63 | a sweep ends a game exactly if it is active and the unwrapped deadline has come, for the player not on the move |
| `Submissions.CreationAnswered` | internal/games/manager.go:365-480 | who can be seated with which time control, and the rows a game begins with |
| `Races.CommitIsAtomicIff` | internal/games/manager.go:525-1128 | for each of the six requests, a commit on rows that moved on does what the atomic request would, or nothing, exactly if it is not overtaken |
| `Races.MoveIsAtomicIff` | internal/games/manager.go:674-712 | a move is overtaken exactly by a finish or a changed draw offer; by moves never, as the ply is taken |
| `Races.TimeoutIsAtomicIff` | internal/games/manager.go:608-618 | a timeout decided on a submission is overtaken exactly by moves |
| `Races.SweepIsAtomicIff` | internal/games/sweeper.go:39-63 | a sweep is overtaken unless the rows are past the deadline with the same player to move |
| `Races.NextIsAtomicIff` | internal/games/manager.go:674-712 | one event changes the rows as an atomic request would, or not at all, exactly if it is not an overtaken commit |
| `Races.RacesAreSequential` | internal/games/manager.go:525-1128 | every interleaving of overlapping requests, timeouts and draws among them, in which no commit is overtaken ends in rows a sequence of atomic requests produces |
| `Races.StaleTimeoutEndsTheGame` | internal/games/manager.go:608-618 | a timeout decided on rows since moved on ends a game the atomic request would have left alone |
| `Races.LateMoveRevives` | internal/repo/repo.go:151-171 | a move committed over a finished game writes its own decision: active again unless the move ends it |
| `Races.StaleOfferStops` | internal/games/manager.go:1080-1128 | a draw offer or decline committed after a move sets the ply back, and no later sequence of requests adds a move |
| `RaceWitnesses.StaleTimeoutRun` | internal/games/manager.go:608-618 | from a created game: a move and its late copy, overlapping, end in a timeout win against nobody on the move, which no sequence of requests gives |
| `RaceWitnesses.LateMoveRun` | internal/repo/repo.go:151-171 | the other order: finished, then active again |
| `RaceWitnesses.StaleOfferRun` | internal/games/manager.go:1080-1093 | a draw offer overlapping the opening move: an active game that accepts no move ever again |
| `Batches.BatchShrinks` | internal/repo/repo.go:1056-1068 | a bounded query takes its limit out of the due rows, or all of them |
| `Batches.BatchExists` | internal/repo/repo.go:1056-1068 | a bounded query has an answer whatever is due |
| `Sweeper.Sweeper.SweepOnce` | internal/games/sweeper.go:39-63 | every selected game that loads is finished and counted |
| `Sweeper.SweepFinishes` | internal/games/sweeper.go:39-63 | a game a run produced always loads, and times out against the player on the move |
| `Sweeper.SweepsDrain` | internal/games/sweeper.go:39-63 | passes of a hundred that could take all n expired games leave none whose unwrapped deadline has passed |
| `Sweeper.SweepIsBounded` | internal/repo/repo.go:233-255 | a pass takes at most a hundred overdue games, the longest overdue first |
| `Challenges.FirstUpdateWins` | internal/repo/repo.go:505-516 | of any number of conditional updates exactly the first wins, if the row has a status they start from, and its status stays |
| `Challenges.RunsKeepInv` | internal/match/challenges.go:170-404 | every interleaving: at most one game, accepted without a game means exactly one acceptor holds the row |
| `Challenges.AtMostOneGame` | internal/match/challenges.go:170-240 | a challenge yields at most one game |
| `Challenges.AcceptorsReadInTime` | internal/match/challenges.go:170-205 | in every run an acceptor under way read a live, unexpired challenge it may take |
| `Challenges.GameStartsInTime` | internal/match/challenges.go:166-240 | the holder's game is the only one and starts at the instant of that read, no later than the expiry read |
| `Challenges.RevertRestores` | internal/match/challenges.go:214-232 | the holder's revert always succeeds and restores open or pending |
| `Challenges.SettledIsFinal` | internal/repo/repo.go:508-516 | declined, cancelled, expired, and accepted with its game, are absorbing |
| `Challenges.SeatsAreRight` | internal/match/challenges.go:246-318 | challenger and acceptor in engine seat order, the acceptor's seat reported, a preference honoured |
| `Challenges.PlayersDiffer` | internal/match/challenges.go:170-205 | the players differ exactly if the challenge does not address its own maker |
| `Challenges.CreatedIsNotSelfAddressed` | internal/match/challenges.go:55-95 | challenges made by CreateChallenge always seat two agents |
| `Challenges.IndexedSelfChallenge` | internal/repo/repo.go:473-486 | an indexed record can lead to a game with one agent in both seats |
| `ChallengeCauses.EveryStatusWasCaused` | internal/match/challenges.go:170-415 | in every run: accepted means read in time by somebody who may, declined by the addressed or another agent, cancelled by the challenger or withdrawn, expired reaped after an expiry it carried |
| `ChallengeCauses.AcceptanceMakesGame` | internal/match/challenges.go:170-318 | left to itself, an acceptance makes a game exactly if the challenge stands, is unexpired and addressed to the acceptor; who sits where |
| `ChallengeCauses.DeclineTakes` | internal/match/challenges.go:351-378 | a decline takes exactly if the challenge stands and is addressed to the decliner |
| `ChallengeCauses.CancellationTakes` | internal/match/challenges.go:381-404 | a cancellation takes exactly if it stands and is the canceller's own |
| `ChallengeCauses.ReapingTakes` | internal/repo/repo.go:604-613 | reaping ends a standing challenge exactly once its expiry has come |
| `Commentary.CommentaryIndex.IngestCommentary` | internal/indexer/commentary.go:43-204 | one row for a new record, bounds and status by visibility and escrow, detection for valid ones |
| `Commentary.CommentaryIndex.DetectKeyPublication` | internal/indexer/commentary.go:293-347 | marks the group matched or mismatched exactly if it holds keys of both kinds |
| `Commentary.CommentaryIndex.CollectKeys` | internal/indexer/commentary.go:303-318 | the group's published and escrowed keys, in row order |
| `Commentary.CommentaryIndex.AnyEqual` | internal/indexer/commentary.go:323-330 | the pairwise comparison finds a common key exactly if there is one |
| `Commentary.KeysDecideMatch` | internal/indexer/commentary.go:293-347 | comparing the collected keys decides whether the group is matched |
| `Commentary.BuildEntries` | internal/games/commentary.go:148-177 | the entries of the valid rows, in order |
| `Commentary.ShownFrom` | internal/games/commentary.go:148-177 | an entry is shown exactly if it comes from a row that is not invalid |
| `NoteColumns.RecordBecomes` | internal/indexer/commentary.go:43-204 | what row every record becomes: kept whole or as invalid, with which status, bounds and key, revealed at once only if public |
| `NoteColumns.ViewShowsValid` | internal/games/commentary.go:148-177 | a view has one entry for each valid row, in order, with the text of a revealed note and of no other |
| `Commentary.CommentaryIndex.Reveal` | internal/games/manager.go:1014-1054 | the first writer stores the text and announces it; an unopenable note is marked |
| `Commentary.CommentaryIndex.RevealPlyPass` | internal/games/manager.go:983-993 | the move pass over the bounded query's rows: each opened once, texts stored and announced in order |
| `Commentary.CommentaryIndex.RevealTimerPass` | internal/games/manager.go:998-1008 | the ticker pass over the bounded query's rows, likewise |
| `Commentary.CommentaryIndex.RevealAll` | internal/games/manager.go:861-880 | exactly the hidden keyed rows of the game are opened; afterwards each keyed row is revealed or marked, and no other row changed |
| `Commentary.PassSettles` | internal/games/manager.go:983-1008 | a pass settles every row it was given and touches no other |
| `RevealRuns.MoveQueryIsRule` | internal/repo/repo.go:1072-1085 | on a row with its ingest bounds the move query is ShouldReveal with the ingest delay |
| `RevealRuns.TimerQueryIsRule` | internal/repo/repo.go:1056-1068 | the ticker's query is ShouldReveal's waiting time |
| `RevealRuns.QueriesAreTheRule` | internal/games/commentary.go:114-126 | in every reachable state both queries select exactly the unrevealed usable rows the rule allows |
| `RevealRuns.ArrivalIsOk` | internal/indexer/commentary.go:210-218 | a new row carries both bounds of its delay or neither |
| `RevealRuns.NextKeepsInv` | internal/games/manager.go:983-1054 | each step of the interleaved passes keeps the invariant of rows, passes, events and sealed notes |
| `RevealRuns.RunsKeepInv` | internal/games/manager.go:983-1054 | so does every run |
| `RevealRuns.EventsFollowTheRule` | internal/games/manager.go:1014-1045 | at most one event a note, with the text it keeps; during a game only delayed notes the rule allows then |
| `RevealRuns.ViewFollowsTheRule` | internal/games/commentary.go:148-177 | a game view shows a text only if public or announced under the rule |
| `RevealRuns.RevealsArePermanent` | internal/repo/repo.go:1116-1147 | a revealed text and instant never change, and no row is both revealed and marked undecryptable |
| `RevealRuns.EndPassSettlesGame` | internal/games/manager.go:861-880 | however interleaved, once the end pass is through, every keyed row it found is revealed or marked |
| `RevealRuns.SealedSettledIffListed` | internal/games/manager.go:861-880 | a sealed note is settled exactly if the end pass of its game listed it |
| `RevealRuns.LateSealedNoteStaysPrivate` | internal/games/manager.go:846-860 | a sealed note that arrives after the end pass began is never revealed |
| `RevealDrain.PassesDrain` | internal/games/manager.go:998-1008 | in every run, ticker passes of 200 that could take all the notes due at an instant settle each of them, while the clock, arrivals, moves and other passes go on |
| `RevealDrain.PassIsBounded` | internal/games/manager.go:983-1008 | the move pass and the ticker take at most 200 notes |
| `RevealTimes.DelayedIsSelectedFrom` | internal/games/commentary.go:114-126 | a delayed note of S seconds and P plies ingested at t is taken by the ticker exactly from t + S * 10^9 ns on, by the move query then or from P plies on |
| `RevealTimes.TooLongIsAtOnce` | internal/indexer/commentary.go:210-218 | of a delay beyond 64 bits of nanoseconds the note is due at its ingest |
| `RevealTimes.AnnouncedFrom` | internal/games/manager.go:1014-1045 | while its game is active a delayed note is announced at no earlier instant and ply |
| `RevealTimes.OthersAreNotSelected` | internal/repo/repo.go:1056-1085 | notes that are not delayed, or whose key did not come out, are taken by neither query |
| `RevealTimes.OthersWaitForTheEnd` | internal/games/manager.go:1014-1045 | and are not announced while their game is active |
| `RevealTimes.PlyCountsMoves` | internal/games/manager.go:983-993 | the ply the rule goes by is the number of moves accepted |
| `RevealTimes.PublicIsNotAnnounced` | internal/games/manager.go:1014-1045 | in every run only delayed and sealed notes are announced as reveals |
| `RevealTimes.FinishedGameEnds` | internal/games/manager.go:861-880 | a finished game stays finished, and its end pass begins once, over all its hidden notes with a key |
| `RevealRecord.RevealedKeys` | internal/games/manager.go:880-910 | one key for each player and identifier, the first row's, with its marks ORed |
| `RevealRecord.DisclosesAllIff` | internal/games/manager.go:880-910 | every held key is in the record exactly if keyed rows name identifiers and none names two keys |
| `RevealRecord.RecordInColumns` | internal/games/manager.go:880-910 | one key for each player and identifier some row holds a 32-byte key for, the first such row's, marked if any such row is |
| `RevealRecord.LeftOutIff` | internal/games/manager.go:880-910 | a key is left out exactly if its row names no identifier or an earlier row used it for another key |
| `Publication.IngestKeepsMarks` | internal/indexer/commentary.go:160-172 | a valid record leaves every row marked exactly by whether its group is matched |
| `Publication.MarksFollowKeys` | internal/indexer/commentary.go:293-347 | in every run over valid records, published marks mean a match, and unmatched groups with both kinds of key are marked mismatched |
| `NoteColumns.MarksInColumns` | internal/indexer/commentary.go:293-347 | in every run the marks of a row say whether notes of its player, game and key identifier publish a key another of them holds |
| `NoteColumns.MarksStayWithPlayer` | internal/repo/repo.go:1153-1161 | a record changes no row of another player, game or key identifier |
| `Publication.OrderDoesNotMatter` | internal/repo/repo.go:1153-1161 | the published marks depend on the records alone, not on order, replays, clocks or reveals |
| `Publication.InvalidKeepsMarksIffOneKind` | internal/indexer/commentary.go:176-204 | after an invalid record the table is rightly marked exactly if its group held no escrowed key, or no published one and the record publishes none |
| `Publication.InvalidKeyGoesUnmarked` | internal/indexer/commentary.go:176-204 | an invalid record that publishes a key leaves a group with an escrowed key without its mark, matched or not |
| `Pairing.WindowMonotone` | internal/match/pairing.go:88-100 | waiting never narrows a widening window, nor widens a narrowing one |
| `Pairing.WindowReaches` | internal/match/pairing.go:88-100 | a window reaches a gap exactly if the cap allows and the wait is interval times ceil((gap - window)/widen) |
| `Pairing.CompatibleIsSymmetric` | internal/match/pairing.go:185-212 | who may meet whom does not depend on the order |
| `Pairing.RatedMeetAfterWaiting` | internal/match/pairing.go:185-198 | two rated seekers within the cap may meet exactly after both have waited long enough |
| `Pairing.WithinWindowsStays` | internal/match/pairing.go:185-198 | and stay so |
| `Pairing.ByWaitSorts` | internal/match/pairing.go:136-144 | the sort permutes the seekers and puts longer waits first |
| `Pairing.FindPartner` | internal/match/pairing.go:156-175 | the inner loop finds the open partner nobody is preferred to, or that there is none |
| `Pairing.NewPairing` | internal/match/pairing.go:217-248 | seats, gap and wait of a pair; a coin is used on ties only |
| `Pairing.PairSorted` | internal/match/pairing.go:146-181 | the outer loop makes exactly a greedy run over the pool |
| `Pairing.Pair` | internal/match/pairing.go:123-181 | the pairings of the greedy run over the uncapped seekers by wait |
| `Pairing.ChooserComesFirst` | internal/match/pairing.go:150-180 | though the inner loop scans all indices, the one that chooses waited no less than its partner |
| `Pairing.GreedyRunIsUnique` | internal/match/pairing.go:146-181 | the rules leave no choice |
| `PairingLaws.PicksAreSound` | internal/match/pairing.go:146-181 | no seek is used twice, each pair is compatible, each partner the best then open |
| `PairingLaws.PoolIsEligible` | internal/match/pairing.go:123-144 | the pool is the seekers below their cap, no more and no fewer |
| `PairingLaws.ResultIsFair` | internal/match/pairing.go:217-248 | A waited longest and WaitMs is A's wait; whoever moved first last gets the second seat |
| `PairingLaws.NobodyLeftCouldMeet` | internal/match/pairing.go:146-181 | two eligible seekers left over are not compatible |
| `PairingLaws.PairIgnoresOrder` | internal/match/pairing.go:138-144 | candidates told apart by creation time and DID are paired alike in every order |
| `PairingRules.CompatibleIsMayMeet` | internal/match/pairing.go:185-212 | compatible means: two agents, not of one known operator where that is asked, not met lately in a pool of more than three, and under ten rated games or a gap both accept |
| `PairingRules.WindowReachesIff` | internal/match/pairing.go:88-100 | a gap is within the window exactly if the window asked for, widened once for each whole interval waited, and the cap reach it |
| `PairingRules.PairingObeysRules` | internal/match/pairing.go:123-181 | every pairing is of two seekers with room that may meet, with the gap and A's wait in the record |
| `PairingRules.LeftoversMayNotMeet` | internal/match/pairing.go:146-181 | two eligible seekers left over fail one of these conditions |
| `PairingRules.PartnerIsBest` | internal/match/pairing.go:146-175 | the partner is at least as near in rating, then as long waiting, then as early by DID as anybody free that may be met |
| `PairingRules.ChooserIsFirst` | internal/match/pairing.go:146-160 | nobody free who waited longer than the chooser could have met anybody free |
| `PairingRules.PoolInColumns` | internal/match/pairing.go:123-144 | the pool is the seekers below their own cap, longest wait first, equal waits by DID |
| `PairingRules.SeatsInColumns` | internal/match/pairing.go:217-248 | who moved first last time moves second, else the coin decides, each tie taking the next flip |
| `Seats.SeatHistory.Materialize` | internal/match/loop.go:203-245 | seat names mapped to turn order, both agents' last seats stored |
| `Seats.SeatHistory.MaterializeAll` | internal/match/loop.go:48-59 | the pairings of a pass become games one after the other, the later seats overwriting the earlier |
| `Seats.PassMakesMeetings` | internal/match/loop.go:86-177 | each pairing of a pass is made from the seats stored before the pass and one coin |
| `Seats.SeatsChangeIff` | internal/match/loop.go:86-245 | two agents who only meet each other change seats from one game to the next under all coins exactly if the games are of different passes |
| `Seats.OneSeekOneGame` | internal/match/pairing.go:146-181 | with one eligible seek for each agent a pass gives nobody two games |
| `Seats.SeatsAlternate` | internal/match/loop.go:86-245 | then two agents who only meet each other change seats every game after the first |
| `Seats.BusyPassRepeats` | internal/match/pairing.go:146-181 | two agents with two seeks each are paired twice in one pass, and the same one moves first both times, whatever the coins |
| `Keys.PoolKeyInjective` | internal/match/matcher.go:325-344 | seeks with one pool key agree on game type, variant, budget and rated flag |
| `Keys.CooldownKeyIsUnordered` | internal/match/pairing.go:103-108 | equal cooldown keys mean the same unordered pair |
| `Keys.AADInjective` | internal/escrow/escrow.go:75-77 | associated data determines game, ply and player |
| `TextForms.NumberReads` | internal/escrow/escrow.go:75-77 | numbers in keys are decimal, signed, without leading zeros |
| `TextForms.LessMeans` | internal/match/pairing.go:103-108 | the first differing byte decides, and a proper prefix comes first |
| `Base64.RoundTrip` | internal/lexbytes/lexbytes.go:84-97 | each decoder undoes its encoder |
| `Base64.DecodersAgree` | internal/lexbytes/lexbytes.go:84-97 | decoders that accept a string read the same bytes, so the order of trials is immaterial |
| `Base64.DecodeLenient` | internal/lexbytes/lexbytes.go:84-97 | the trial loop reads what any of the four decoders reads |
| `Base64.LenientRecovers` | internal/lexbytes/lexbytes.go:84-97 | non-empty bytes in any of the four encodings are read back |
| `Base64.DecodePublishedKey` | internal/games/commentary.go:82-96 | a 32-byte key in any of the four encodings |
| `Base64.PublishedKeyRecovered` | internal/games/commentary.go:82-96 | keys of 32 bytes are recovered from every encoding, other lengths refused |
| `TextForms.AlphabetRuns` | internal/lexbytes/lexbytes.go:84-97 | the letters of RFC 4648 sections 4 and 5 in order |
| `TextForms.EncodedFrom` | internal/lexbytes/lexbytes.go:84-97 | after every three bytes and four letters the rest is encoded by itself |
| `TextForms.LineBreaksAreSkipped` | internal/lexbytes/lexbytes.go:84-97 | a line feed or carriage return anywhere changes nothing |
| `TextForms.OnlyLetters` | internal/lexbytes/lexbytes.go:84-97 | a text that decodes has letters of its alphabet, padding and line breaks only |
| `TextForms.PublishedKeyIs32` | internal/games/commentary.go:82-96 | a published key has 32 bytes |
| `Tid.Generator.Next` | internal/tid/tid.go:63-86 | the position becomes the reading's first slot or the next slot |
| `Tid.EmittedAscends` | internal/tid/tid.go:63-86 | identifiers ascend for every clock, and outrun it by one slot a call at most |
| `Tid.AscendsIffNoOffset` | internal/tid/tid.go:63-86 | they ascend in every run exactly if the generator's offset is zero |
| `Tid.TextOrder` | internal/tid/tid.go:26-40 | texts of 13 symbols sort as their values |
| `Tid.UriOrder` | internal/games/records.go:28-30 | record addresses sort as the identifiers they end in |
| `TextForms.TextReads` | internal/tid/tid.go:26-40 | the symbols 2 to 7 and a to z, read in base 32, give the identifier back |
| `TextForms.FirstOfMicrosecond` | internal/tid/tid.go:63-86 | an identifier is the microsecond above ten bits of slot |
| `TextForms.GameAddress` | internal/games/records.go:28-30 | an address ends in thirteen symbols that read as the identifier |
| `Listing.PageExists` | internal/repo/repo.go:187-228 | the page query has an answer for every table and cursor |
| `Listing.WalkVisitsOnce` | internal/games/manager.go:1210-1245 | following address cursors visits every row that stays exactly once, in descending address order, whatever is inserted meanwhile |
| `Listing.WalkIsShort` | internal/games/manager.go:1210-1245 | with only newer rows inserted, in as many pages as the older rows need |
| `Listing.GamesComeNewestFirst` | internal/games/manager.go:1210-1245 | paging by address lists a service's games by descending identifier and misses none that stays |
| `EventBus.Bus.Subscribe` | internal/events/events.go:141-149 | a fresh empty stream, the others unchanged |
| `EventBus.Bus.Close` | internal/events/events.go:153-160 | the subscription gets nothing more; closing twice is harmless |
| `EventBus.Bus.Publish` | internal/events/events.go:165-179 | each open matching subscription is offered the event once, and no other stream changes |
| `EventBus.Bus.Receive` | internal/events/events.go:99-104 | the oldest buffered event |
| `EventBus.DeliveredInOrder` | internal/events/events.go:165-194 | consumed followed by buffered is an in-order subsequence of the matching events |
| `EventBus.NothingMissedUnlessDropped` | internal/events/events.go:165-179 | an event is missed only if a full buffer dropped it |
| `EventBus.OfferedAsWanted` | internal/events/events.go:165-194 | the events offered are those of the named game and the listed kinds, all of them, in order |
| `EventBus.UnreadKeepsFirst` | internal/events/events.go:141-179 | without reading, the first 256 are kept and the rest counted as dropped |
| `Cbor.HeadRoundTrip` | internal/gen/playsbot/chessmove.go:35-46 | a head that was written is read back, whatever follows |
| `Cbor.HeadIsCanonical` | internal/gen/playsbot/chessmove.go:100-106 | a head that was read is what would have been written |
| `Cbor.ItemIsLocal` | internal/gen/playsbot/chessmove.go:131-136 | where an item ends depends on its own bytes alone |
| `CborMaps.ItemsAreLawful` | internal/gen/playsbot/chessmove.go:131-136 | RFC 8949 items are values the record codec can skip |
| `CborMaps.MapRoundTrip` | internal/gen/playsbot/chessmove.go:35-214 | reading a written map gives its entries back |
| `CborMaps.MapIsCanonical` | internal/gen/playsbot/chessmove.go:100-214 | writing what was read gives the bytes back |
| `Wire.HeadOnWire` | internal/gen/playsbot/chessmove.go:35-46 | a head is its first byte and the argument in the fewest big-endian bytes |
| `Wire.SkipsExactlyItems` | internal/gen/playsbot/chessmove.go:131-136 | what is skipped is exactly a data item of RFC 8949, spelled out byte by byte |
| `Wire.TextIsReadIff` | internal/gen/playsbot/chessmove.go:108-130 | a text is read exactly where 0x60 + length and its bytes stand |
| `Wire.MapOnWire` | internal/gen/playsbot/chessmove.go:35-46 | a map is 0xa0 + pairs and its entries, each key a text |
| `RecordBytes.KeyLessMeans` | internal/gen/playsbot/chessmove.go:113-117 | the shorter key first, then the first differing byte |
| `Records.CountExtra` | internal/gen/playsbot/extra.go:34-42 | the number of extras of an encoding |
| `Records.ClearExtra` | internal/gen/playsbot/extra.go:46-57 | the in-place compaction keeps exactly the other encoding's extras, in order |
| `Records.AppendExtrasBefore` | internal/gen/playsbot/extra.go:67-81 | writes the binary extras that sort before a key, and stops at the first that does not |
| `Records.WeaveCount` | internal/gen/playsbot/chessmove.go:36-46 | extras and present fields are all written, each once |
| `Weaving.WeaveAscending` | internal/gen/playsbot/extra.go:60-81 | sorted extras woven between fields in key order give strictly increasing keys |
| `Weaving.SortedSame` | internal/gen/playsbot/extra.go:60-66 | two sorted maps with the same entries are the same |
| `Weaving.WeaveAgain` | internal/gen/playsbot/extra.go:60-81 | a map taken apart and woven again is unchanged exactly if every known field is |
| `RecordWriter.AppendPairs` | internal/gen/playsbot/chessmove.go:47-89 | both branches write the fields with the extras woven in |
| `Decoding.TakeOne` | internal/gen/playsbot/chessmove.go:108-214 | one turn of the decoding loop: order check, value, refusal |
| `ChessMoves.ChessMove.AppendCBOR` | internal/gen/playsbot/chessmove.go:35-90 | appends the encoding of the record's fields and extras |
| `ChessMoves.ChessMove.TakeValue` | internal/gen/playsbot/chessmove.go:122-212 | dispatch on key length and key, null, text and unknown values |
| `ChessMoves.ChessMove.UnmarshalCBORAt` | internal/gen/playsbot/chessmove.go:100-214 | the record holds what decoding gives and the position after it is returned, or decoding fails |
| `ChessMoves.HeaderCount` | internal/gen/playsbot/chessmove.go:36-46 | the map header announces as many pairs as are written, whatever the extras |
| `ChessLaws.TakeGathers` | internal/gen/playsbot/chessmove.go:108-214 | taking the entries one by one gathers each known field from its key and keeps the rest as extras, in order |
| `Decoding.TakingGathers` | internal/gen/playsbot/chessmove.go:108-214 | the loop over a map's entries computes what they gather to at once |
| `ChessLaws.EncodedMoveDecodes` | internal/gen/playsbot/chessmove.go:35-214 | decoding an encoded move gives back all fields and sorted unknown fields, into any record |
| `Weaving.DecodedExtras` | internal/gen/playsbot/extra.go:60-66 | whatever a record held, decoding leaves its binary extras sorted and apart from the known keys |
| `ChessLaws.DecodedMoveReencodes` | internal/gen/playsbot/chessmove.go:35-214 | re-encoding gives the same bytes exactly if required keys are present, nothing is null and the type is not empty |
| `ChessBytes.KeysAreNames` | internal/gen/playsbot/chessmove.go:24-28 | the keys are the ASCII of to, san, from, $type and promotion |
| `ChessBytes.ChessMoveOnWire` | internal/gen/playsbot/chessmove.go:35-90 | the header counts the members, which stand under their names in this order, with the extras before, between and after |
| `ChessBytes.PlainChessMove` | internal/gen/playsbot/chessmove.go:60-90 | without extras: 0xa0 + pairs and the members, nothing between |
| `ChessBytes.PlainChessMoveIsRead` | internal/gen/playsbot/chessmove.go:100-214 | and these bytes are read back, whatever follows |
| `ChessBytes.PawnToE4` | internal/gen/playsbot/chessmove.go:35-214 | e2e4 is the fifteen bytes a2 62 74 6f 62 65 34 64 66 72 6f 6d 62 65 32, written and read |
| `ChessBytes.ChessMoveWasRead` | internal/gen/playsbot/chessmove.go:100-214 | a move that was read holds what stands under the names in the bytes, null or nothing for an absent optional, and keeps every other entry |
| `CheckersMoves.PathRoundTrip` | internal/gen/playsbot/checkersmove.go:34-44 | an array of 64-bit squares is read back |
| `CheckersMoves.ReadInts` | internal/gen/playsbot/checkersmove.go:94-113 | the inner loop fills the squares one by one, or fails where one cannot be read |
| `CheckersMoves.AppendPath` | internal/gen/playsbot/checkersmove.go:36-40 | the array header and the squares |
| `CheckersMoves.ItemsSkipPaths` | internal/gen/playsbot/checkersmove.go:94-113 | arrays of integers are RFC 8949 items |
| `CheckersMoves.CheckersMove.AppendCBOR` | internal/gen/playsbot/checkersmove.go:28-60 | appends the encoding of the record's fields and extras |
| `CheckersMoves.CheckersMove.UnmarshalCBORAt` | internal/gen/playsbot/checkersmove.go:70-143 | the record holds what decoding gives and the position after it is returned, or decoding fails |
| `CheckersLaws.EncodedMoveDecodes` | internal/gen/playsbot/checkersmove.go:28-143 | decoding an encoded move gives back squares, type and sorted unknown fields |
| `CheckersLaws.DecodedMoveReencodes` | internal/gen/playsbot/checkersmove.go:28-143 | re-encoding gives the same bytes exactly if the squares are present and the type is not empty |
| `CheckersBytes.PathOnWire` | internal/gen/playsbot/checkersmove.go:36-40 | 0x80 + squares, and each square 0x00 + n or 0x20 + (-1 - n), in the fewest bytes |
| `CheckersBytes.CheckersMoveOnWire` | internal/gen/playsbot/checkersmove.go:28-60 | the header counts the members, path then $type, with the extras before, between and after |
| `CheckersBytes.JumpOnWire` | internal/gen/playsbot/checkersmove.go:28-143 | a path 22, 400 is the eleven bytes a1 64 70 61 74 68 82 16 19 01 90, written and read |
| `CheckersBytes.CheckersMoveWasRead` | internal/gen/playsbot/checkersmove.go:70-143 | a move that was read holds what stands under the names in the bytes, and keeps every other entry |

## Left out

- Games.Manager.SubmitMove: payloads compare as values, so the canonical JSON comparison and its parse errors beyond "not JSON" are not modelled; the record write, events and finish hook that follow a commit are left out.
- Clock.RemainingMeans: instants are unbounded integers, so the saturation of `time.Sub` at 292 years is not modelled, nor is the database's rounding of instants to microseconds.
- Pairing.Pair: ratings, windows and waits are unbounded integers, so 64-bit overflow of extreme settings is not modelled; concurrency caps are those at the start of the pass, as in the source.
- Races.RacesAreSequential: a request loads the game row and the moves in one step; the code reads them one after the other, so a submission can see moves newer than its row, which refuses it.
- Seats.SeatsChangeIff: seats stored for one game type; a pairing whose game cannot be created, and seat writes that fail and are only logged, are not modelled.
- Challenges.RunsKeepInv: one challenge; the eligibility and open-challenge caps appear as a yes-or-no of the acceptor, and an insert that commits while its connection fails is not modelled.
- RevealDrain.PassesDrain: notes arrive with a positive delay; one that is due on arrival would join the backlog.
- RevealRuns.RunsKeepInv: the game-end pass runs once for a game, after the finish that won; the order in which the bus hands events to subscribers is left to the event bus; revealing and announcing are one step.
- Publication.MarksFollowKeys: ingest of one record is one step, so two records of a group ingested at the same time by different processes are not modelled.
- ChessMoves.ChessMove.UnmarshalCBORAt: text is any bytes, so UTF-8 validation is not modelled; the fields of a record whose decoding failed are unspecified.
- Records.ClearExtra: the array is the record's own, so records that share a backing slice after a struct copy are not modelled.
- Listing.WalkVisitsOnce: filters are a fixed set of rows; the SQL text is not modelled, and rows tied on a sort column may come in any order in every bounded query.
- JSON codecs and the other generated record types follow the same pattern and would add only bulk.
- HTTP and WebSocket handlers, authentication, repository writes, configuration, the web site and the bot client are plumbing.
- Chess and checkers rules, key wrapping, signatures and receipts are library code: decryption and the chess library are parameters.
- Seek creation and cancellation, standing-seek expiry and the no-show counter are short bookkeeping that would add only easy members.
- Error paths of single database writes that are only logged are taken to succeed.
