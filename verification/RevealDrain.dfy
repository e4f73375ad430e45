/** The ticker catches up: bounded passes over a backlog leave nothing due, whatever else goes
    on between and during them. */
module RevealDrain {
  import opened Batches
  import opened Commentary
  import opened RevealRuns

  // ---- what a step does to the backlog -----------------------------------

  /** From one table to a later one, nothing new is due at `since`, and what was due then is
      due or settled. */
  ghost predicate Drains(t: Table, t': Table, since: int) {
    && (forall u :: u in Due(t', since) ==> u in Due(t, since))
    && (forall u :: u in t && (u in Due(t, since) || Settled(t[u])) ==> u in t' && (u in Due(t', since) || Settled(t'[u])))
  }

  lemma DrainsTransitive(a: Table, b: Table, c: Table, since: int)
    requires Drains(a, b, since) && Drains(b, c, since)
    ensures Drains(a, c, since)
  {
  }

  /** Notes arrive with a positive delay. */
  predicate Waits(e: Event) {
    e.Arrive? ==> Wait(e.delay) > 0
  }

  lemma ArrivalDrains(t: Table, uri: string, r: Record, delay: Delay, now: int, since: int)
    requires uri !in t && since <= now && Wait(delay) > 0
    ensures Drains(t, Ingested(t, uri, r, delay, now), since)
  {
    IngestAdds(t, uri, r, delay, now);
  }

  lemma RevealDrains(open: Decryptor, t: Table, uri: string, copy: Note, stamp: int, since: int)
    ensures Drains(t, RevealOne(open, t, uri, copy, stamp).0, since)
  {
  }

  lemma NextDrains(open: Decryptor, s: State, e: Event, since: int)
    requires since <= s.now && Waits(e)
    ensures Drains(s.table, Next(open, s, e).table, since)
  {
    if Allowed(s, e) && e.Arrive? {
      ArrivalDrains(s.table, e.uri, e.record, e.delay, s.now, since);
    } else if Allowed(s, e) && e.Continue? {
      var pass := s.passes[e.pass];
      RevealDrains(open, s.table, pass.todo[0], pass.copies[pass.todo[0]], pass.stamp, since);
    }
  }

  lemma {:induction false} RunDrains(open: Decryptor, s: State, es: seq<Event>, since: int)
    requires since <= s.now && forall e :: e in es ==> Waits(e)
    ensures Drains(s.table, Run(open, s, es).table, since) && since <= Run(open, s, es).now
    decreases |es|
  {
    if es != [] {
      var init := es[..|es| - 1];
      var mid := Run(open, s, init);
      RunDrains(open, s, init, since);
      NextDrains(open, mid, es[|es| - 1], since);
      NextGrows(open, mid, es[|es| - 1]);
      DrainsTransitive(s.table, mid.table, Run(open, s, es).table, since);
    }
  }

  // ---- one pass of the ticker --------------------------------------------

  /** Anything, then a pass of the ticker begins, then anything until it is through. */
  datatype Round = Round(before: seq<Event>, readAt: int, stamp: int, batch: seq<string>, during: seq<Event>)

  ghost function Begins(open: Decryptor, s: State, r: Round): State {
    Next(open, Run(open, s, r.before), Begin(ByTimer(r.readAt), r.stamp, r.batch))
  }

  ghost function Ends(open: Decryptor, s: State, r: Round): State {
    Run(open, Begins(open, s, r), r.during)
  }

  ghost predicate IsRound(open: Decryptor, s: State, r: Round, since: int) {
    var p := |Run(open, s, r.before).passes|;
    && since <= r.readAt && Lists(Run(open, s, r.before), ByTimer(r.readAt), r.batch)
    && (forall e :: e in r.before || e in r.during ==> Waits(e))
    && p < |Ends(open, s, r).passes| && Ends(open, s, r).passes[p].todo == []
  }

  /** The query takes the longest due first, so a batch leaves out none of the rows due at an
      earlier instant, or else takes nothing but such rows. */
  lemma BatchTakesOldest(t: Table, readAt: int, since: int, batch: seq<string>)
    requires IsBatch(Due(t, readAt), REVEAL_LIMIT, batch) && since <= readAt
    ensures Due(t, since).Keys <= Elements(batch) || (|batch| == REVEAL_LIMIT && Elements(batch) <= Due(t, since).Keys)
  {
    if u :| u in Due(t, since) && u !in batch {
      assert u in Due(t, readAt);
      forall b | b in batch ensures b in Due(t, since) {
        assert Due(t, readAt)[b] <= Due(t, readAt)[u];
      }
    }
  }

  lemma RestSize(due: set<string>, batch: seq<string>, rest: set<string>)
    requires forall i, j :: 0 <= i < j < |batch| ==> batch[i] != batch[j]
    requires due <= Elements(batch) || (|batch| == REVEAL_LIMIT && Elements(batch) <= due)
    requires rest <= due - Elements(batch)
    ensures |rest| <= Minus(|due|, REVEAL_LIMIT)
  {
    ElementsSize(batch);
    SubsetSize(rest, due - Elements(batch));
    if due <= Elements(batch) {
      assert due - Elements(batch) == {};
    } else {
      assert due == (due - Elements(batch)) + Elements(batch);
    }
  }

  lemma SubsetSize(a: set<string>, b: set<string>)
    requires a <= b
    ensures |a| <= |b|
  {
    assert b == a + (b - a);
  }

  lemma ThroughMeansSettled(open: Decryptor, begun: State, end: State, p: nat, u: string)
    requires Inv(open, end) && Grows(begun, end)
    requires p < |begun.passes| && u in begun.passes[p].copies && end.passes[p].todo == []
    ensures u in end.table && Settled(end.table[u])
  {
    assert PassGrows(begun.passes[p], end.passes[p]) && PassOk(end, end.passes[p]);
    assert CopyOk(end, end.passes[p].kind, u, end.passes[p].copies[u]);
  }

  lemma BeginCopies(open: Decryptor, s: State, readAt: int, stamp: int, batch: seq<string>, u: string)
    requires Lists(s, ByTimer(readAt), batch) && u in batch
    ensures var begun := Next(open, s, Begin(ByTimer(readAt), stamp, batch));
      begun.table == s.table && |begun.passes| == |s.passes| + 1 && u in begun.passes[|s.passes|].copies
  {
    assert u in Due(s.table, readAt);
  }

  /** When a pass of the ticker is through, everything on its list is settled. */
  lemma RoundSettlesBatch(open: Decryptor, s: State, r: Round, since: int, u: string)
    requires Inv(open, s) && IsRound(open, s, r, since) && u in r.batch
    ensures u in Ends(open, s, r).table && Settled(Ends(open, s, r).table[u])
  {
    var mid, begun, end := Run(open, s, r.before), Begins(open, s, r), Ends(open, s, r);
    InvIsKept(open, s, r.before);
    NextKeepsInv(open, mid, Begin(ByTimer(r.readAt), r.stamp, r.batch));
    InvIsKept(open, begun, r.during);
    RunGrows(open, begun, r.during);
    BeginCopies(open, mid, r.readAt, r.stamp, r.batch, u);
    ThroughMeansSettled(open, begun, end, |mid.passes|, u);
  }

  lemma RoundKeeps(open: Decryptor, s: State, r: Round, since: int)
    requires Inv(open, s) && IsRound(open, s, r, since) && since <= s.now
    ensures var mid, end := Run(open, s, r.before), Ends(open, s, r);
      && Inv(open, end) && since <= end.now
      && Drains(s.table, mid.table, since) && Drains(mid.table, end.table, since)
  {
    var mid, begun := Run(open, s, r.before), Begins(open, s, r);
    InvIsKept(open, s, r.before);
    NextKeepsInv(open, mid, Begin(ByTimer(r.readAt), r.stamp, r.batch));
    InvIsKept(open, begun, r.during);
    RunDrains(open, s, r.before, since);
    RunDrains(open, begun, r.during, since);
  }

  lemma RoundShrinks(open: Decryptor, s: State, r: Round, since: int)
    requires Inv(open, s) && IsRound(open, s, r, since) && since <= s.now
    ensures |Due(Ends(open, s, r).table, since)| <= Minus(|Due(s.table, since)|, REVEAL_LIMIT)
  {
    var mid, end := Run(open, s, r.before), Ends(open, s, r);
    RoundKeeps(open, s, r, since);
    BatchTakesOldest(mid.table, r.readAt, since, r.batch);
    forall u | u in r.batch ensures u !in Due(end.table, since) { RoundSettlesBatch(open, s, r, since, u); }
    RestSize(Due(mid.table, since).Keys, r.batch, Due(end.table, since).Keys);
    SubsetSize(Due(mid.table, since).Keys, Due(s.table, since).Keys);
  }

  // ---- the backlog drains ------------------------------------------------

  ghost predicate AreRounds(open: Decryptor, s: State, rounds: seq<Round>, since: int)
    decreases |rounds|
  {
    rounds == [] || (IsRound(open, s, rounds[0], since) && AreRounds(open, Ends(open, s, rounds[0]), rounds[1..], since))
  }

  ghost function AfterRounds(open: Decryptor, s: State, rounds: seq<Round>): State
    decreases |rounds|
  {
    if rounds == [] then s else AfterRounds(open, Ends(open, s, rounds[0]), rounds[1..])
  }

  lemma MinusTwice(n: nat, limit: nat, more: nat)
    ensures Minus(Minus(n, limit), more * limit) == Minus(n, (more + 1) * limit)
  {
  }

  lemma {:induction false} RoundsDrain(open: Decryptor, s: State, rounds: seq<Round>, since: int)
    requires Inv(open, s) && since <= s.now && AreRounds(open, s, rounds, since)
    ensures Drains(s.table, AfterRounds(open, s, rounds).table, since)
    decreases |rounds|
  {
    if rounds != [] {
      var next := Ends(open, s, rounds[0]);
      RoundKeeps(open, s, rounds[0], since);
      RoundsDrain(open, next, rounds[1..], since);
      DrainsTransitive(s.table, Run(open, s, rounds[0].before).table, next.table, since);
      DrainsTransitive(s.table, next.table, AfterRounds(open, s, rounds).table, since);
    }
  }

  lemma {:induction false} RoundsShrink(open: Decryptor, s: State, rounds: seq<Round>, since: int)
    requires Inv(open, s) && since <= s.now && AreRounds(open, s, rounds, since)
    ensures |Due(AfterRounds(open, s, rounds).table, since)| <= Minus(|Due(s.table, since)|, |rounds| * REVEAL_LIMIT)
    decreases |rounds|
  {
    if rounds != [] {
      RoundKeeps(open, s, rounds[0], since);
      RoundShrinks(open, s, rounds[0], since);
      RoundsShrink(open, Ends(open, s, rounds[0]), rounds[1..], since);
      MinusTwice(|Due(s.table, since)|, REVEAL_LIMIT, |rounds| - 1);
    }
  }

  /** The move pass and the ticker take two hundred notes at most. */
  lemma PassIsBounded(s: State, kind: Kind, batch: seq<string>)
    requires Lists(s, kind, batch) && !kind.AtEnd?
    ensures |batch| <= 200
  {
  }

  /** The ticker may begin at any instant up to now, on any answer of its query. */
  lemma TickerMayBegin(open: Decryptor, s: State, readAt: int, stamp: int, batch: seq<string>)
    requires readAt <= s.now && IsBatch(Due(s.table, readAt), 200, batch)
    ensures var begun := Next(open, s, Begin(ByTimer(readAt), stamp, batch));
      |begun.passes| == |s.passes| + 1 && begun.passes[|s.passes|].todo == batch && begun.table == s.table
  {
  }

  /** In every run, passes of the ticker that could take all the notes due at some instant, 200
      each, settle every one of them, however long they take, whatever falls due meanwhile, and
      whatever moves, game ends, other passes and arrivals come between and during them. */
  lemma PassesDrain(open: Decryptor, now: int, es: seq<Event>, rounds: seq<Round>, since: int)
    requires var s := Run(open, Start(now), es);
      since <= s.now && AreRounds(open, s, rounds, since) && |rounds| * 200 >= |Due(s.table, since)|
    ensures var s := Run(open, Start(now), es); var end := AfterRounds(open, s, rounds);
      Due(end.table, since) == map[] && forall u :: u in Due(s.table, since) ==> u in end.table && Settled(end.table[u])
  {
    var s := Run(open, Start(now), es);
    RunsKeepInv(open, now, es);
    RoundsDrain(open, s, rounds, since);
    RoundsShrink(open, s, rounds, since);
    assert |Due(AfterRounds(open, s, rounds).table, since)| == 0;
  }
}
