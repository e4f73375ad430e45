/** Why a challenge has the status it has, and what it takes to change it: over every run, in
    terms of the steps and the columns of the row. */
module ChallengeCauses {
  import opened Wrappers
  import opened Challenges

  // ---- what a status goes back to ----------------------------------------

  /** The challenge was open or pending when step k read it. */
  ghost predicate ReadLive(steps: seq<Step>, seats: (string, string), k: nat)
    requires k < |steps|
  {
    var row := Run(steps[..k], seats).row;
    row.Some? && (row.value.status == Open || row.value.status == Pending)
  }

  /** Step k read the challenge to cancel it, for its own challenger. */
  ghost predicate CancelRead(steps: seq<Step>, seats: (string, string), c: Challenge, k: nat) {
    k < |steps| && steps[k].ReadToCancel? && steps[k].did == c.challenger && ReadLive(steps, seats, k)
  }

  /** Step k read the challenge to decline it, for the opponent it addresses or, if it addresses
      nobody, for somebody other than the challenger. */
  ghost predicate DeclineRead(steps: seq<Step>, seats: (string, string), c: Challenge, k: nat) {
    && k < |steps| && steps[k].ReadToDecline? && ReadLive(steps, seats, k)
    && (if c.opponent == None then steps[k].did != c.challenger else c.opponent == Some(steps[k].did))
  }

  /** Step k reaped the challenge, at an instant not before the expiry it then carried. */
  ghost predicate ReapedDue(steps: seq<Step>, seats: (string, string), k: nat) {
    && k < |steps| && steps[k].Reap? && ReadLive(steps, seats, k)
    && Run(steps[..k], seats).row.value.expiresAt.Some? && Run(steps[..k], seats).row.value.expiresAt.value <= steps[k].now
  }

  /** Step k read the challenge to accept it, for somebody who may and before its expiry. */
  ghost predicate AcceptRead(steps: seq<Step>, seats: (string, string), c: Challenge, k: nat) {
    && k < |steps| && steps[k].ReadToAccept? && ReadLive(steps, seats, k)
    && (if c.opponent == None then steps[k].did != c.challenger else c.opponent == Some(steps[k].did))
    && (Run(steps[..k], seats).row.value.expiresAt.Some? ==> steps[k].now <= Run(steps[..k], seats).row.value.expiresAt.value)
  }

  ghost predicate Caused(steps: seq<Step>, seats: (string, string), c: Challenge, to: Status) {
    match to
    case Open => true
    case Pending => true
    case Accepted => exists k: nat :: AcceptRead(steps, seats, c, k)
    case Declined => exists k: nat :: DeclineRead(steps, seats, c, k)
    case Cancelled => (exists k: nat :: k < |steps| && steps[k].Withdraw?) || (exists k: nat :: CancelRead(steps, seats, c, k))
    case Expired => exists k: nat :: ReapedDue(steps, seats, k)
  }

  predicate SameParties(a: Challenge, b: Challenge) {
    a.challenger == b.challenger && a.opponent == b.opponent
  }

  /** What was caused stays caused. */
  lemma CausedStays(steps: seq<Step>, step: Step, seats: (string, string), c: Challenge, c': Challenge, to: Status)
    requires Caused(steps, seats, c, to) && SameParties(c, c')
    ensures Caused(steps + [step], seats, c', to)
  {
    var all := steps + [step];
    assert forall k :: 0 <= k < |steps| ==> all[k] == steps[k] && all[..k] == steps[..k];
    match to
    case Accepted =>
      var k: nat :| AcceptRead(steps, seats, c, k);
      assert AcceptRead(all, seats, c', k);
    case Declined =>
      var k: nat :| DeclineRead(steps, seats, c, k);
      assert DeclineRead(all, seats, c', k);
    case Cancelled =>
      if k: nat :| CancelRead(steps, seats, c, k) {
        assert CancelRead(all, seats, c', k);
      } else {
        var k: nat :| k < |steps| && steps[k].Withdraw?;
        assert all[k].Withdraw?;
      }
    case Expired =>
      var k: nat :| ReapedDue(steps, seats, k);
      assert ReapedDue(all, seats, k);
    case _ =>
  }

  ghost predicate CloserCaused(steps: seq<Step>, seats: (string, string), c: Challenge, to: Status) {
    match to
    case Declined => exists k: nat :: DeclineRead(steps, seats, c, k)
    case Cancelled => exists k: nat :: CancelRead(steps, seats, c, k)
    case _ => false
  }

  lemma CloserStays(steps: seq<Step>, step: Step, seats: (string, string), c: Challenge, c': Challenge, to: Status)
    requires CloserCaused(steps, seats, c, to) && SameParties(c, c')
    ensures CloserCaused(steps + [step], seats, c', to) && Caused(steps + [step], seats, c', to)
  {
    var all := steps + [step];
    assert forall k :: 0 <= k < |steps| ==> all[k] == steps[k] && all[..k] == steps[..k];
    if to == Declined {
      var k: nat :| DeclineRead(steps, seats, c, k);
      assert DeclineRead(all, seats, c', k);
    } else {
      var k: nat :| CancelRead(steps, seats, c, k);
      assert CancelRead(all, seats, c', k);
    }
  }

  /** The row, everybody who is about to close it, and everybody who is about to accept it. */
  ghost predicate AllCaused(steps: seq<Step>, seats: (string, string)) {
    var s := Run(steps, seats);
    match s.row
    case None => s.closers == map[] && s.acceptors == map[]
    case Some(c) =>
      && Caused(steps, seats, c, c.status)
      && (forall who :: who in s.closers ==> CloserCaused(steps, seats, c, s.closers[who].to))
      && (forall who :: who in s.acceptors && !s.acceptors[who].Stranded? ==> Caused(steps, seats, c, Accepted))
  }

  /** What a step leaves alone stays caused. */
  ghost predicate OthersCaused(steps: seq<Step>, step: Step, seats: (string, string)) {
    var s, s' := Run(steps, seats), Run(steps + [step], seats);
    && s.row.Some? && s'.row.Some? && SameParties(s.row.value, s'.row.value)
    && (s'.row.value.status == s.row.value.status || Caused(steps + [step], seats, s'.row.value, s'.row.value.status))
    && (forall who :: who in s'.closers ==>
          (who in s.closers && s'.closers[who] == s.closers[who]) || CloserCaused(steps + [step], seats, s'.row.value, s'.closers[who].to))
    && (forall who :: who in s'.acceptors && !s'.acceptors[who].Stranded? ==>
          (who in s.acceptors && !s.acceptors[who].Stranded?) || Caused(steps + [step], seats, s'.row.value, Accepted))
  }

  lemma OthersMeanAll(steps: seq<Step>, step: Step, seats: (string, string))
    requires AllCaused(steps, seats) && OthersCaused(steps, step, seats)
    ensures AllCaused(steps + [step], seats)
  {
    var s, s' := Run(steps, seats), Run(steps + [step], seats);
    var c, c' := s.row.value, s'.row.value;
    if c'.status == c.status { CausedStays(steps, step, seats, c, c', c.status); }
    forall who | who in s'.closers ensures CloserCaused(steps + [step], seats, c', s'.closers[who].to) {
      if who in s.closers && s'.closers[who] == s.closers[who] { CloserStays(steps, step, seats, c, c', s.closers[who].to); }
    }
    forall who | who in s'.acceptors && !s'.acceptors[who].Stranded? ensures Caused(steps + [step], seats, c', Accepted) {
      if who in s.acceptors && !s.acceptors[who].Stranded? { CausedStays(steps, step, seats, c, c', Accepted); }
    }
  }

  lemma StepRuns(steps: seq<Step>, step: Step, seats: (string, string))
    ensures Run(steps + [step], seats) == Next(Run(steps, seats), step, seats)
    ensures (steps + [step])[..|steps|] == steps && (steps + [step])[|steps|] == step
  {
    RunOneMore(steps, step, seats);
  }

  lemma ReadCauses(steps: seq<Step>, step: Step, seats: (string, string))
    requires AllCaused(steps, seats) && Run(steps, seats).row.Some? && (step.ReadToAccept? || step.ReadToDecline? || step.ReadToCancel?)
    ensures OthersCaused(steps, step, seats)
  {
    var all, s, n := steps + [step], Run(steps, seats), |steps|;
    StepRuns(steps, step, seats);
    var s', c := Run(all, seats), s.row.value;
    if s' != s {
      if step.ReadToAccept? {
        assert AcceptRead(all, seats, c, n);
      } else if step.ReadToDecline? {
        assert DeclineRead(all, seats, c, n);
      } else {
        assert CancelRead(all, seats, c, n);
      }
    }
  }

  lemma CloseCauses(steps: seq<Step>, step: Step, seats: (string, string))
    requires AllCaused(steps, seats) && Run(steps, seats).row.Some? && (step.Close? || step.Withdraw? || step.Reap?)
    ensures OthersCaused(steps, step, seats)
  {
    var all, s, n := steps + [step], Run(steps, seats), |steps|;
    StepRuns(steps, step, seats);
    var s', c := Run(all, seats), s.row.value;
    if step.Close? && step.who in s.closers {
      CloserStays(steps, step, seats, c, s'.row.value, s.closers[step.who].to);
    } else if step.Withdraw? {
      assert all[n].Withdraw?;
    } else if step.Reap? && s'.row != s.row {
      assert ReapedDue(all, seats, n);
    }
  }

  lemma ClaimCauses(steps: seq<Step>, step: Step, seats: (string, string))
    requires AllCaused(steps, seats) && Inv(Run(steps, seats), seats) && Run(steps, seats).row.Some?
    requires step.Claim? || step.MakeGame? || step.Revert? || step.CutOff? || step.Create? || step.Index?
    ensures OthersCaused(steps, step, seats)
  {
    var s := Run(steps, seats);
    StepRuns(steps, step, seats);
    if step.Claim? && step.who in s.acceptors && s.acceptors[step.who].Read? {
      CausedStays(steps, step, seats, s.row.value, Run(steps + [step], seats).row.value, Accepted);
    }
  }

  lemma FirstCauses(steps: seq<Step>, step: Step, seats: (string, string))
    requires AllCaused(steps, seats) && Run(steps, seats).row == None
    ensures AllCaused(steps + [step], seats)
  {
    StepRuns(steps, step, seats);
  }

  /** In every run a challenge that is accepted was read by somebody who may accept it, before it
      expired; one that is declined was read by the opponent it addresses, or by somebody other
      than the challenger; one that is cancelled was withdrawn, or read by its own challenger to
      be cancelled; one that is expired was reaped no earlier than an expiry it carried. */
  lemma {:induction false} EveryStatusWasCaused(steps: seq<Step>, seats: (string, string))
    ensures AllCaused(steps, seats)
    ensures Run(steps, seats).row.Some? ==> Caused(steps, seats, Run(steps, seats).row.value, Run(steps, seats).row.value.status)
  {
    if steps != [] {
      var init, step := steps[..|steps| - 1], steps[|steps| - 1];
      EveryStatusWasCaused(init, seats);
      RunsKeepInv(init, seats);
      assert steps == init + [step];
      if Run(init, seats).row == None {
        FirstCauses(init, step, seats);
      } else {
        if step.ReadToAccept? || step.ReadToDecline? || step.ReadToCancel? {
          ReadCauses(init, step, seats);
        } else if step.Close? || step.Withdraw? || step.Reap? {
          CloseCauses(init, step, seats);
        } else {
          ClaimCauses(init, step, seats);
        }
        OthersMeanAll(init, step, seats);
      }
    }
  }

  // ---- what it takes -----------------------------------------------------

  /** The row is open or pending. */
  predicate Standing(s: State) {
    s.row.Some? && (s.row.value.status == Open || s.row.value.status == Pending)
  }

  predicate Addressed(c: Challenge, did: string) {
    if c.opponent == None then did != c.challenger else c.opponent == Some(did)
  }

  /** Left to itself, an acceptance makes a game exactly if the challenge stands, has not expired
      and is addressed to the acceptor; then it is the acceptor's game, made at the instant of
      the read, with the challenger first by preference or by the coin. */
  lemma AcceptanceMakesGame(steps: seq<Step>, seats: (string, string), who: nat, did: string, now: int, coin: bool)
    requires var s := Run(steps, seats); who !in s.acceptors && s.games == []
    ensures var s := Run(steps, seats); var games := Run(steps + [ReadToAccept(who, did, now)] + [Claim(who, true)] + [MakeGame(who, coin)], seats).games;
      && (games != [] <==> Standing(s) && Addressed(s.row.value, did) && (s.row.value.expiresAt.Some? ==> now <= s.row.value.expiresAt.value))
      && (games != [] ==>
            var c := s.row.value; var first := c.preference == First || (c.preference == Random && coin);
            && games[0].startedAt == now
            && games[0].players == (if first then [Seated(c.challenger, seats.0), Seated(did, seats.1)] else [Seated(did, seats.0), Seated(c.challenger, seats.1)])
            && games[0].acceptorSeat == (if first then seats.1 else seats.0))
  {
    var read, claim, make := ReadToAccept(who, did, now), Claim(who, true), MakeGame(who, coin);
    RunOneMore(steps, read, seats);
    RunOneMore(steps + [read], claim, seats);
    RunOneMore(steps + [read] + [claim], make, seats);
  }

  /** Left to itself, a decline takes exactly if the challenge stands and is addressed to the
      decliner. */
  lemma DeclineTakes(steps: seq<Step>, seats: (string, string), who: nat, did: string)
    requires var s := Run(steps, seats); s.row.Some? && who !in s.closers
    ensures var s := Run(steps, seats);
      Run(steps + [ReadToDecline(who, did)] + [Close(who)], seats).row ==
      Some(if Standing(s) && Addressed(s.row.value, did) then s.row.value.(status := Declined) else s.row.value)
  {
    RunOneMore(steps, ReadToDecline(who, did), seats);
    RunOneMore(steps + [ReadToDecline(who, did)], Close(who), seats);
  }

  /** And a cancellation exactly if it stands and is the canceller's own. */
  lemma CancellationTakes(steps: seq<Step>, seats: (string, string), who: nat, did: string)
    requires var s := Run(steps, seats); s.row.Some? && who !in s.closers
    ensures var s := Run(steps, seats);
      Run(steps + [ReadToCancel(who, did)] + [Close(who)], seats).row ==
      Some(if Standing(s) && did == s.row.value.challenger then s.row.value.(status := Cancelled) else s.row.value)
  {
    RunOneMore(steps, ReadToCancel(who, did), seats);
    RunOneMore(steps + [ReadToCancel(who, did)], Close(who), seats);
  }

  /** Reaping ends a standing challenge exactly once its expiry has come; deleting its record ends
      any standing one; neither touches another. */
  lemma ReapingTakes(steps: seq<Step>, seats: (string, string), now: int)
    requires Run(steps, seats).row.Some?
    ensures var s := Run(steps, seats); var c := s.row.value;
      && Run(steps + [Reap(now)], seats).row ==
         Some(if Standing(s) && c.expiresAt.Some? && c.expiresAt.value <= now then c.(status := Expired) else c)
      && Run(steps + [Withdraw], seats).row == Some(if Standing(s) then c.(status := Cancelled) else c)
  {
    RunOneMore(steps, Reap(now), seats);
    RunOneMore(steps, Withdraw, seats);
  }

  /** A challenge begins open, or pending if it addresses somebody; nobody creates one addressed
      to themselves; a record seen again moves the expiry only. */
  lemma BeginningTakes(steps: seq<Step>, seats: (string, string), challenger: string, opponent: Option<string>, preference: SeatPreference, expiresAt: int)
    ensures var row := Run(steps, seats).row; var made := Challenge(challenger, opponent, preference, if opponent == None then Open else Pending, Some(expiresAt));
      && Run(steps + [Create(challenger, opponent, preference, expiresAt)], seats).row ==
         (if row.Some? then row else if opponent == Some(challenger) then None else Some(made))
      && Run(steps + [Index(challenger, opponent, preference, expiresAt)], seats).row ==
         Some(if row == None then made else row.value.(expiresAt := Some(expiresAt)))
  {
    RunOneMore(steps, Create(challenger, opponent, preference, expiresAt), seats);
    RunOneMore(steps, Index(challenger, opponent, preference, expiresAt), seats);
  }
}
