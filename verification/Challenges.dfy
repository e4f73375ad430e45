/** Challenge acceptance: any number of acceptors, decliners and cancellers race on one
    challenge row with conditional status updates, while the reaper and the indexer write
    to it too. */
module Challenges {
  import opened Wrappers

  datatype Status = Open | Pending | Accepted | Declined | Cancelled | Expired {
    predicate Live() { Open? || Pending? }
  }

  datatype SeatPreference = First | Second | Random

  datatype Challenge = Challenge(
    challenger: string,
    opponent: Option<string>,
    preference: SeatPreference,
    status: Status,
    expiresAt: Option<int>)

  /** One seat of a created game. */
  datatype Seated = Seated(did: string, seat: string)

  datatype Game = Game(players: seq<Seated>, acceptorSeat: string, startedAt: int)

  // ---- the row -----------------------------------------------------------

  /** The conditional update every lifecycle change goes through. */
  function TransitionStatus(c: Challenge, from: set<Status>, to: Status): (Challenge, bool) {
    if c.status in from then (c.(status := to), true) else (c, false)
  }

  /** One update after the other, each to its own status, and which of them changed the row. */
  function Updates(c: Challenge, from: set<Status>, to: seq<Status>): (r: (Challenge, seq<bool>))
    ensures |r.1| == |to|
  {
    if to == [] then (c, [])
    else
      var (before, won) := Updates(c, from, to[..|to| - 1]);
      var (after, wins) := TransitionStatus(before, from, to[|to| - 1]);
      (after, won + [wins])
  }

  /** The update arbitrates a race: of any number of them that leave the statuses they start
      from, the first one wins if the row has such a status, and no other ever does. */
  lemma {:induction false} FirstUpdateWins(c: Challenge, from: set<Status>, to: seq<Status>)
    requires forall t :: t in to ==> t !in from
    ensures var (after, won) := Updates(c, from, to);
      && (forall k :: 0 <= k < |to| ==> (won[k] <==> k == 0 && c.status in from))
      && after == c.(status := if to != [] && c.status in from then to[0] else c.status)
  {
    if to != [] { FirstUpdateWins(c, from, to[..|to| - 1]); }
  }

  const LIVE: set<Status> := {Open, Pending}

  function StatusFor(opponent: Option<string>): Status {
    if opponent.Some? then Pending else Open
  }

  /** CreateChallenge's row; nobody challenges themselves. */
  function Created(challenger: string, opponent: Option<string>, preference: SeatPreference, expiresAt: int): Result<Challenge, ()> {
    if opponent == Some(challenger) then Err(())
    else Ok(Challenge(challenger, opponent, preference, StatusFor(opponent), Some(expiresAt)))
  }

  /** An indexed record: a new row, or fresh backing and expiry for the one there. */
  function UpsertIndexed(row: Option<Challenge>, challenger: string, opponent: Option<string>, preference: SeatPreference, expiresAt: int): Challenge {
    match row
    case None => Challenge(challenger, opponent, preference, StatusFor(opponent), Some(expiresAt))
    case Some(c) => c.(expiresAt := Some(expiresAt))
  }

  function ExpireDue(c: Challenge, now: int): Challenge {
    if c.status.Live() && c.expiresAt.Some? && c.expiresAt.value <= now then c.(status := Expired) else c
  }

  // ---- seats -------------------------------------------------------------

  /** Players in engine seat order, and the acceptor's seat. */
  function SeatPlayers(c: Challenge, acceptor: string, coin: bool, seats: (string, string), acceptedAt: int): Game {
    var challengerFirst := c.preference == First || (c.preference == Random && coin);
    if challengerFirst then
      Game([Seated(c.challenger, seats.0), Seated(acceptor, seats.1)], seats.1, acceptedAt)
    else
      Game([Seated(acceptor, seats.0), Seated(c.challenger, seats.1)], seats.0, acceptedAt)
  }

  // ---- actors ------------------------------------------------------------

  /** An acceptor has read the row (with the time it read); or has won the update and owes a
      game or a revert; or was cut off while owing one. */
  datatype Acceptor = Read(did: string, seen: Challenge, at: int)
                    | Holding(did: string, seen: Challenge, at: int)
                    | Stranded

  /** A decliner or canceller that has read the row and passed its checks. */
  datatype Closer = Closer(to: Status)

  datatype State = State(
    row: Option<Challenge>,
    acceptors: map<nat, Acceptor>,
    closers: map<nat, Closer>,
    games: seq<Game>)

  datatype Step =
    | Create(challenger: string, opponent: Option<string>, preference: SeatPreference, expiresAt: int)
    | Index(challenger: string, opponent: Option<string>, preference: SeatPreference, expiresAt: int)
    | Withdraw                                     // the indexed record was deleted
    | Reap(now: int)
    | ReadToAccept(who: nat, did: string, now: int)
    | Claim(who: nat, eligible: bool)              // eligibility, the cap, then the update
    | MakeGame(who: nat, coin: bool)
    | Revert(who: nat)                             // the game could not be created
    | CutOff(who: nat)                             // the acceptor stops, or its revert is lost
    | ReadToDecline(who: nat, did: string)
    | ReadToCancel(who: nat, did: string)
    | Close(who: nat)

  /** What AcceptChallenge checks on the row it read. */
  predicate MayAccept(c: Challenge, did: string, now: int) {
    && c.status.Live()
    && (c.expiresAt.Some? ==> now <= c.expiresAt.value)
    && (if c.opponent.Some? then c.opponent.value == did else did != c.challenger)
  }

  predicate MayDecline(c: Challenge, did: string) {
    c.status.Live() && if c.opponent.Some? then c.opponent.value == did else did != c.challenger
  }

  predicate MayCancel(c: Challenge, did: string) {
    c.challenger == did && c.status.Live()
  }

  /** Each step is one database statement, or the purely local work before it. */
  function Next(s: State, step: Step, seats: (string, string)): State {
    match step
    case Create(challenger, opponent, preference, expiresAt) =>
      if s.row.Some? then s
      else
        var c := Created(challenger, opponent, preference, expiresAt);
        if c.Ok? then s.(row := Some(c.value)) else s
    case Index(challenger, opponent, preference, expiresAt) =>
      s.(row := Some(UpsertIndexed(s.row, challenger, opponent, preference, expiresAt)))
    case Withdraw =>
      if s.row == None then s else s.(row := Some(TransitionStatus(s.row.value, LIVE, Cancelled).0))
    case Reap(now) =>
      if s.row == None then s else s.(row := Some(ExpireDue(s.row.value, now)))
    case ReadToAccept(who, did, now) =>
      if s.row == None || who in s.acceptors || !MayAccept(s.row.value, did, now) then s
      else s.(acceptors := s.acceptors[who := Read(did, s.row.value, now)])
    case Claim(who, eligible) =>
      if who !in s.acceptors || !s.acceptors[who].Read? || s.row == None then s
      else if !eligible then s.(acceptors := s.acceptors - {who})
      else
        var a := s.acceptors[who];
        var (c, won) := TransitionStatus(s.row.value, LIVE, Accepted);
        if won then s.(row := Some(c), acceptors := s.acceptors[who := Holding(a.did, a.seen, a.at)])
        else s.(acceptors := s.acceptors - {who})
    case MakeGame(who, coin) =>
      if who !in s.acceptors || !s.acceptors[who].Holding? then s
      else
        var a := s.acceptors[who];
        s.(games := s.games + [SeatPlayers(a.seen, a.did, coin, seats, a.at)], acceptors := s.acceptors - {who})
    case Revert(who) =>
      if who !in s.acceptors || !s.acceptors[who].Holding? || s.row == None then s
      else
        s.(row := Some(TransitionStatus(s.row.value, {Accepted}, s.acceptors[who].seen.status).0),
           acceptors := s.acceptors - {who})
    case CutOff(who) =>
      if who !in s.acceptors then s
      else if s.acceptors[who].Read? then s.(acceptors := s.acceptors - {who})
      else s.(acceptors := s.acceptors[who := Stranded])
    case ReadToDecline(who, did) =>
      if s.row == None || !MayDecline(s.row.value, did) then s
      else s.(closers := s.closers[who := Closer(Declined)])
    case ReadToCancel(who, did) =>
      if s.row == None || !MayCancel(s.row.value, did) then s
      else s.(closers := s.closers[who := Closer(Cancelled)])
    case Close(who) =>
      if who !in s.closers || s.row == None then s
      else
        s.(row := Some(TransitionStatus(s.row.value, LIVE, s.closers[who].to).0), closers := s.closers - {who})
  }

  const START := State(None, map[], map[], [])

  function Run(steps: seq<Step>, seats: (string, string)): State {
    if steps == [] then START
    else Next(Run(steps[..|steps| - 1], seats), steps[|steps| - 1], seats)
  }

  lemma RunOneMore(steps: seq<Step>, step: Step, seats: (string, string))
    ensures Run(steps + [step], seats) == Next(Run(steps, seats), step, seats)
  {
  }

  // ---- the invariant -----------------------------------------------------

  /** The acceptors that hold the accepted row, or did when they were cut off. */
  function Holders(s: State): set<nat> {
    set who | who in s.acceptors && !s.acceptors[who].Read?
  }

  /** What an acceptor read is the row it may take: same parties, same preference, and the
      live status such a row has. */
  predicate SeenIsRow(seen: Challenge, c: Challenge) {
    && seen.challenger == c.challenger && seen.opponent == c.opponent && seen.preference == c.preference
    && seen.status == StatusFor(c.opponent)
  }

  predicate MayHold(c: Challenge, did: string) {
    if c.opponent.Some? then c.opponent.value == did else did != c.challenger
  }

  /** A game this challenge may have produced. */
  ghost predicate GameOf(c: Challenge, g: Game, seats: (string, string)) {
    exists acceptor: string, coin: bool ::
      MayHold(c, acceptor) && g == SeatPlayers(c, acceptor, coin, seats, g.startedAt)
  }

  ghost predicate Inv(s: State, seats: (string, string)) {
    match s.row
    case None => s.acceptors == map[] && s.closers == map[] && s.games == []
    case Some(c) =>
      && (c.status.Live() ==> c.status == StatusFor(c.opponent))
      && (forall who :: who in s.acceptors && !s.acceptors[who].Stranded? ==>
            SeenIsRow(s.acceptors[who].seen, c) && MayHold(c, s.acceptors[who].did))
      && (forall who :: who in s.closers ==> s.closers[who].to in {Declined, Cancelled})
      && |s.games| <= 1
      && (forall g :: g in s.games ==> GameOf(c, g, seats))
      && (c.status != Accepted ==> Holders(s) == {} && s.games == [])
      && (c.status == Accepted ==> if s.games == [] then (exists h :: Holders(s) == {h}) else Holders(s) == {})
  }

  lemma HoldersAfter(s: State, who: nat, a: Acceptor)
    ensures Holders(s.(acceptors := s.acceptors[who := a])) == if a.Read? then Holders(s) - {who} else Holders(s) + {who}
    ensures Holders(s.(acceptors := s.acceptors - {who})) == Holders(s) - {who}
  {
  }

  lemma SeatingIgnoresStatus(c: Challenge, seen: Challenge, acceptor: string, coin: bool, seats: (string, string), at: int)
    requires SeenIsRow(seen, c) && MayHold(c, acceptor)
    ensures GameOf(c, SeatPlayers(seen, acceptor, coin, seats, at), seats)
  {
    assert SeatPlayers(seen, acceptor, coin, seats, at) == SeatPlayers(c, acceptor, coin, seats, at);
  }

  /** A row update that leaves the parties alone leaves the games sound. */
  lemma GamesOutlive(c: Challenge, c': Challenge, g: Game, seats: (string, string))
    requires GameOf(c, g, seats)
    requires c'.challenger == c.challenger && c'.opponent == c.opponent && c'.preference == c.preference
    ensures GameOf(c', g, seats)
  {
    var acceptor: string, coin: bool :| MayHold(c, acceptor) && g == SeatPlayers(c, acceptor, coin, seats, g.startedAt);
    assert g == SeatPlayers(c', acceptor, coin, seats, g.startedAt);
  }

  lemma ClaimKeepsInv(s: State, who: nat, eligible: bool, seats: (string, string))
    requires Inv(s, seats)
    ensures Inv(Next(s, Claim(who, eligible), seats), seats)
  {
    if who in s.acceptors && s.acceptors[who].Read? {
      var a := s.acceptors[who];
      HoldersAfter(s, who, Holding(a.did, a.seen, a.at));
      assert who !in Holders(s);
      OnlyAcceptorsAndStatus(s, Next(s, Claim(who, eligible), seats), seats);
    }
  }

  /** The one holder makes its game or gives the row back; either way nobody holds it. */
  lemma SettleKeepsInv(s: State, step: Step, seats: (string, string))
    requires Inv(s, seats) && (step.MakeGame? || step.Revert?)
    ensures Inv(Next(s, step, seats), seats)
  {
    if step.who in s.acceptors && s.acceptors[step.who].Holding? {
      var a := s.acceptors[step.who];
      assert step.who in Holders(s);
      HoldersAfter(s, step.who, a);
      assert Holders(s) == {step.who};
      SeatingIgnoresStatus(s.row.value, a.seen, a.did, step.MakeGame? && step.coin, seats, a.at);
      OnlyAcceptorsAndStatus(s, Next(s, step, seats), seats);
    }
  }

  lemma ReadOrCutOffKeepsInv(s: State, step: Step, seats: (string, string))
    requires Inv(s, seats) && (step.ReadToAccept? || step.CutOff?)
    ensures Inv(Next(s, step, seats), seats)
  {
  }

  /** The holders and the games' soundness do not depend on the rest of the state. */
  lemma OnlyAcceptorsAndStatus(s: State, s': State, seats: (string, string))
    requires s.row.Some? && s'.row.Some? && s'.row.value == s.row.value.(status := s'.row.value.status)
    ensures Holders(s') == Holders(s.(acceptors := s'.acceptors))
    ensures forall g :: GameOf(s.row.value, g, seats) ==> GameOf(s'.row.value, g, seats)
  {
    forall g | GameOf(s.row.value, g, seats) ensures GameOf(s'.row.value, g, seats) {
      GamesOutlive(s.row.value, s'.row.value, g, seats);
    }
  }

  lemma OtherStepKeepsInv(s: State, step: Step, seats: (string, string))
    requires Inv(s, seats) && !(step.ReadToAccept? || step.Claim? || step.MakeGame? || step.Revert? || step.CutOff?)
    ensures Inv(Next(s, step, seats), seats)
  {
    var s' := Next(s, step, seats);
    assert Holders(s') == Holders(s);
    if s.row.Some? {
      forall g | g in s.games ensures GameOf(s'.row.value, g, seats) { GamesOutlive(s.row.value, s'.row.value, g, seats); }
    }
  }

  /** Every interleaving keeps it: at most one game, and while the row is accepted without
      one, exactly one acceptor holds it or was cut off holding it. */
  lemma {:induction false} RunsKeepInv(steps: seq<Step>, seats: (string, string))
    ensures Inv(Run(steps, seats), seats)
  {
    if steps != [] {
      var n := |steps| - 1;
      RunsKeepInv(steps[..n], seats);
      var s, step := Run(steps[..n], seats), steps[n];
      match step
      case Claim(who, eligible) => ClaimKeepsInv(s, who, eligible, seats);
      case MakeGame(_, _) => SettleKeepsInv(s, step, seats);
      case Revert(_) => SettleKeepsInv(s, step, seats);
      case ReadToAccept(_, _, _) => ReadOrCutOffKeepsInv(s, step, seats);
      case CutOff(_) => ReadOrCutOffKeepsInv(s, step, seats);
      case _ => OtherStepKeepsInv(s, step, seats);
    }
  }

  // ---- the promises ------------------------------------------------------

  /** In every interleaving a challenge yields at most one game. */
  lemma AtMostOneGame(steps: seq<Step>, seats: (string, string))
    ensures |Run(steps, seats).games| <= 1
  {
    RunsKeepInv(steps, seats);
  }

  /** Every acceptor under way, the holder too, read a live challenge it may take, in time. */
  lemma {:induction false} AcceptorsReadInTime(steps: seq<Step>, seats: (string, string), who: nat)
    requires var s := Run(steps, seats); who in s.acceptors && !s.acceptors[who].Stranded?
    ensures var a := Run(steps, seats).acceptors[who]; MayAccept(a.seen, a.did, a.at)
    decreases |steps|
  {
    if steps != [] {
      var before := Run(steps[..|steps| - 1], seats);
      if who in before.acceptors && !before.acceptors[who].Stranded? {
        AcceptorsReadInTime(steps[..|steps| - 1], seats, who);
      }
    }
  }

  /** The game a holder makes is the only one, and starts when the holder read the challenge:
      before the expiry it read, though the index may have moved the expiry since. */
  lemma GameStartsInTime(steps: seq<Step>, seats: (string, string), who: nat, coin: bool)
    requires var s := Run(steps, seats); who in s.acceptors && s.acceptors[who].Holding?
    ensures var a, games := Run(steps, seats).acceptors[who], Run(steps + [MakeGame(who, coin)], seats).games;
      && |games| == 1 && games[0].startedAt == a.at && MayAccept(a.seen, a.did, games[0].startedAt)
      && (a.seen.expiresAt.Some? ==> games[0].startedAt <= a.seen.expiresAt.value)
  {
    RunsKeepInv(steps, seats);
    AcceptorsReadInTime(steps, seats, who);
    RunOneMore(steps, MakeGame(who, coin), seats);
    assert who in Holders(Run(steps, seats));
  }

  /** The acceptor that holds the row always succeeds in giving it back, and what it gives
      back is the live status the row had. */
  lemma RevertRestores(steps: seq<Step>, seats: (string, string), who: nat)
    requires var s := Run(steps, seats); who in s.acceptors && s.acceptors[who].Holding?
    ensures var s, s' := Run(steps, seats), Run(steps + [Revert(who)], seats);
      s.row.Some? && TransitionStatus(s.row.value, {Accepted}, s.acceptors[who].seen.status).1 &&
      s'.row == Some(s.row.value.(status := StatusFor(s.row.value.opponent))) && s'.row.value.status.Live() &&
      s'.games == [] && Holders(s') == {}
  {
    RunsKeepInv(steps, seats);
    RunsKeepInv(steps + [Revert(who)], seats);
    assert (steps + [Revert(who)])[..|steps|] == steps;
    assert who in Holders(Run(steps, seats));
  }

  /** Declined, cancelled and expired are final, and so is accepted once the game exists. */
  predicate Settled(s: State) {
    s.row.Some? && (s.row.value.status in {Declined, Cancelled, Expired} || (s.row.value.status == Accepted && s.games != []))
  }

  lemma SettledStep(s: State, step: Step, seats: (string, string))
    requires Inv(s, seats) && Settled(s)
    ensures var s' := Next(s, step, seats);
      Settled(s') && s'.row.value.status == s.row.value.status && s'.games == s.games
  {
    assert forall who :: who in s.acceptors && s.acceptors[who].Holding? ==> who in Holders(s);
  }

  lemma {:induction false} SettledIsFinal(steps: seq<Step>, more: seq<Step>, seats: (string, string))
    requires Settled(Run(steps, seats))
    ensures var s, s' := Run(steps, seats), Run(steps + more, seats);
      s'.row.Some? && s'.row.value.status == s.row.value.status && s'.games == s.games
    ensures Settled(Run(steps + more, seats))
  {
    if more == [] {
      assert steps + more == steps;
    } else {
      var n := |more| - 1;
      SettledIsFinal(steps, more[..n], seats);
      RunsKeepInv(steps + more[..n], seats);
      assert (steps + more)[..|steps| + n] == steps + more[..n];
      SettledStep(Run(steps + more[..n], seats), more[n], seats);
    }
  }

  /** The game seats the challenger and the acceptor in engine order, and reports the
      acceptor's own seat; a stated preference is honoured. */
  lemma SeatsAreRight(steps: seq<Step>, seats: (string, string), g: Game)
    requires g in Run(steps, seats).games
    ensures var c := Run(steps, seats).row;
      c.Some? && |g.players| == 2 && g.players[0].seat == seats.0 && g.players[1].seat == seats.1 &&
      exists i, acceptor: string :: 0 <= i < 2 && MayHold(c.value, acceptor) &&
        g.players[i].did == c.value.challenger && g.players[1 - i] == Seated(acceptor, g.acceptorSeat) &&
        (c.value.preference == First ==> i == 0) && (c.value.preference == Second ==> i == 1)
  {
    RunsKeepInv(steps, seats);
    var c := Run(steps, seats).row.value;
    var acceptor: string, coin: bool :| MayHold(c, acceptor) && g == SeatPlayers(c, acceptor, coin, seats, g.startedAt);
    var i := if c.preference == First || (c.preference == Random && coin) then 0 else 1;
    assert g.players[i].did == c.challenger && g.players[1 - i] == Seated(acceptor, g.acceptorSeat);
  }

  predicate TwoAgents(g: Game) {
    |g.players| == 2 && g.players[0].did != g.players[1].did
  }

  /** The two players differ exactly when the challenge does not address its own maker. */
  lemma PlayersDiffer(steps: seq<Step>, seats: (string, string), g: Game)
    requires g in Run(steps, seats).games
    ensures var row := Run(steps, seats).row;
      row.Some? && (TwoAgents(g) <==> row.value.opponent != Some(row.value.challenger))
  {
    SeatsAreRight(steps, seats, g);
  }

  lemma PartiesStay(s: State, step: Step, seats: (string, string))
    requires s.row.Some?
    ensures var row := Next(s, step, seats).row;
      row.Some? && row.value.challenger == s.row.value.challenger && row.value.opponent == s.row.value.opponent
  {
  }

  /** CreateChallenge never makes such a challenge, and no later step turns one into it. */
  lemma {:induction false} CreatedIsNotSelfAddressed(steps: seq<Step>, seats: (string, string))
    requires steps != [] && steps[0].Create? && steps[0].opponent != Some(steps[0].challenger)
    ensures var row := Run(steps, seats).row;
      row.Some? && row.value.challenger == steps[0].challenger && row.value.opponent == steps[0].opponent
    ensures forall g :: g in Run(steps, seats).games ==> TwoAgents(g)
  {
    var n := |steps| - 1;
    if n == 0 {
      assert Run(steps[..0], seats) == START;
    } else {
      CreatedIsNotSelfAddressed(steps[..n], seats);
      PartiesStay(Run(steps[..n], seats), steps[n], seats);
    }
    forall g | g in Run(steps, seats).games ensures TwoAgents(g) {
      PlayersDiffer(steps, seats, g);
    }
  }

  /** The indexer takes one over from a record, and it can be accepted: a game in which one
      agent holds both seats. */
  lemma IndexedSelfChallenge(me: string, seats: (string, string)) returns (steps: seq<Step>)
    ensures var games := Run(steps, seats).games; games != [] && !TwoAgents(games[0])
  {
    var index, read, claim, make := Index(me, Some(me), First, 10), ReadToAccept(0, me, 5), Claim(0, true), MakeGame(0, true);
    RunOneMore([], index, seats);
    RunOneMore([] + [index], read, seats);
    RunOneMore([] + [index] + [read], claim, seats);
    RunOneMore([] + [index] + [read] + [claim], make, seats);
    steps := [] + [index] + [read] + [claim] + [make];
  }
}
