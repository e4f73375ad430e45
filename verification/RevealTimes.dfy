/** When delayed notes are revealed, in seconds, plies and nanoseconds: the stored bounds, the
    queries and the announcements against the record that arrived. */
module RevealTimes {
  import opened Wrappers
  import Clock
  import opened Commentary
  import opened RevealRuns

  /** A delayed record whose key came out of its escrow. */
  predicate Schedulable(r: Record) {
    r.visibility == Delayed && r.ciphertext != [] && r.escrow.Unwrapped?
  }

  /** The state after a record arrives at a new address and anything goes on after it. */
  ghost function Later(open: Decryptor, s: State, u: string, r: Record, delay: Delay, more: seq<Event>): State {
    Run(open, Next(open, s, Arrive(u, r, delay)), more)
  }

  /** The row stays what the record made it, but for its reveal. */
  lemma RowStays(open: Decryptor, s: State, u: string, r: Record, delay: Delay, more: seq<Event>)
    requires u !in s.table
    ensures var t := Later(open, s, u, r, delay, more);
      && u in t.table && u in t.delays && t.delays[u] == delay && SameNote(NoteOf(r, delay, s.now), t.table[u])
  {
    var arrived := Next(open, s, Arrive(u, r, delay));
    IngestAdds(s.table, u, r, delay, s.now);
    RunGrows(open, arrived, more);
    assert RowGrows(arrived.table[u], Later(open, s, u, r, delay, more).table[u]);
  }

  /** The bounds of the row, and the two queries on it: the ticker's is met from S seconds after
      ingest on, the move query then or from P plies on; both only while the note is hidden and
      not marked. */
  lemma SelectedFrom(open: Decryptor, s: State, u: string, r: Record, plies: int, seconds: int, more: seq<Event>, g: string, ply: int, at: int)
    requires u !in s.table && Schedulable(r)
    ensures u in Later(open, s, u, r, Delay(plies, seconds), more).table
    ensures var n := Later(open, s, u, r, Delay(plies, seconds), more).table[u];
      var hidden := n.revealedAt == None && n.status == EscrowOk;
      && (IsDue(n, at) <==> hidden && at >= s.now + Clock.Nanoseconds(seconds))
      && (IsRevealable(n, g, ply, at) <==> hidden && g == r.gameUri && (at >= s.now + Clock.Nanoseconds(seconds) || ply >= r.ply + plies))
  {
    RowStays(open, s, u, r, Delay(plies, seconds), more);
    Clock.ProductIsNanoseconds(seconds);
  }

  /** In the years that can be counted. */
  lemma DelayedIsSelectedFrom(open: Decryptor, s: State, u: string, r: Record, plies: int, seconds: int, more: seq<Event>, g: string, ply: int, at: int)
    requires u !in s.table && Schedulable(r) && 0 <= seconds <= 9_223_372_036
    ensures u in Later(open, s, u, r, Delay(plies, seconds), more).table
    ensures var n := Later(open, s, u, r, Delay(plies, seconds), more).table[u];
      var hidden := n.revealedAt == None && n.status == EscrowOk;
      && (IsDue(n, at) <==> hidden && at >= s.now + seconds * 1_000_000_000)
      && (IsRevealable(n, g, ply, at) <==> hidden && g == r.gameUri && (at >= s.now + seconds * 1_000_000_000 || ply >= r.ply + plies))
  {
    SelectedFrom(open, s, u, r, plies, seconds, more, g, ply, at);
    Clock.NanosecondsExact(seconds);
  }

  /** Of a delay one second longer, the ticker takes the note at once. */
  lemma TooLongIsAtOnce(open: Decryptor, s: State, u: string, r: Record, plies: int)
    requires u !in s.table && Schedulable(r)
    ensures u in Next(open, s, Arrive(u, r, Delay(plies, 9_223_372_037))).table
    ensures IsDue(Next(open, s, Arrive(u, r, Delay(plies, 9_223_372_037))).table[u], s.now)
  {
    var t := Next(open, s, Arrive(u, r, Delay(plies, 9_223_372_037)));
    assert Run(open, t, []) == t;
    IngestAdds(s.table, u, r, Delay(plies, 9_223_372_037), s.now);
    SelectedFrom(open, s, u, r, plies, 9_223_372_037, [], "", 0, s.now);
    Clock.NanosecondsExact(0);
  }

  /** While its game is active a delayed note is announced at no earlier instant and ply. */
  lemma AnnouncedFrom(open: Decryptor, start: int, es: seq<Event>, u: string, r: Record, plies: int, seconds: int, more: seq<Event>, i: nat)
    requires u !in Run(open, Start(start), es).table && r.visibility == Delayed && 0 <= seconds <= 9_223_372_036
    requires var t := Later(open, Run(open, Start(start), es), u, r, Delay(plies, seconds), more);
      i < |t.announced| && t.announced[i].uri == u && t.announced[i].active
    ensures var s := Run(open, Start(start), es); var t := Later(open, s, u, r, Delay(plies, seconds), more);
      t.announced[i].now >= s.now + seconds * 1_000_000_000 || t.announced[i].ply >= r.ply + plies
  {
    var s, delay := Run(open, Start(start), es), Delay(plies, seconds);
    RunsKeepInv(open, start, es);
    NextKeepsInv(open, s, Arrive(u, r, delay));
    InvIsKept(open, Next(open, s, Arrive(u, r, delay)), more);
    RowStays(open, s, u, r, delay, more);
    Clock.ProductIsNanoseconds(delay.seconds);
    Clock.NanosecondsExact(seconds);
    var t := Later(open, s, u, r, delay, more);
    assert SaidOk(t, t.announced[i]);
  }

  /** A note that is not delayed, or whose key did not come out, is taken by neither query, and
      while its game is active it is not announced. */
  lemma OthersAreNotSelected(open: Decryptor, s: State, u: string, r: Record, delay: Delay, more: seq<Event>, g: string, ply: int, at: int)
    requires u !in s.table && !Schedulable(r)
    ensures u in Later(open, s, u, r, delay, more).table
    ensures var n := Later(open, s, u, r, delay, more).table[u]; !IsDue(n, at) && !IsRevealable(n, g, ply, at)
  {
    RowStays(open, s, u, r, delay, more);
  }

  lemma OthersWaitForTheEnd(open: Decryptor, start: int, es: seq<Event>, u: string, r: Record, delay: Delay, more: seq<Event>, i: nat)
    requires u !in Run(open, Start(start), es).table && r.visibility != Delayed
    requires var t := Later(open, Run(open, Start(start), es), u, r, delay, more); i < |t.announced| && t.announced[i].uri == u
    ensures !Later(open, Run(open, Start(start), es), u, r, delay, more).announced[i].active
  {
    var s := Run(open, Start(start), es);
    RunsKeepInv(open, start, es);
    NextKeepsInv(open, s, Arrive(u, r, delay));
    InvIsKept(open, Next(open, s, Arrive(u, r, delay)), more);
    RowStays(open, s, u, r, delay, more);
    var t := Later(open, s, u, r, delay, more);
    assert SaidOk(t, t.announced[i]);
  }

  /** The rule itself: public notes always, delayed ones from their ply or their seconds on, sealed
      ones never. */
  lemma RuleInNumerals(v: Visibility, ply: int, delay: Delay, receivedAt: int, now: int, currentPly: int)
    ensures v == Public ==> ShouldReveal(v, ply, delay, receivedAt, now, currentPly)
    ensures v == Delayed ==> (ShouldReveal(v, ply, delay, receivedAt, now, currentPly) <==>
              currentPly >= ply + delay.plies || now >= receivedAt + Clock.Nanoseconds(delay.seconds))
    ensures v != Public && v != Delayed ==> !ShouldReveal(v, ply, delay, receivedAt, now, currentPly)
  {
    Clock.ProductIsNanoseconds(delay.seconds);
  }

  // ---- plies -------------------------------------------------------------

  /** The moves accepted in a game so far. */
  ghost function MovesSeen(open: Decryptor, start: int, es: seq<Event>, g: string): nat {
    if es == [] then 0
    else
      var before, e := Run(open, Start(start), es[..|es| - 1]), es[|es| - 1];
      MovesSeen(open, start, es[..|es| - 1], g) + if e == AcceptMove(g) && g in before.games && before.games[g].active then 1 else 0
  }

  /** A game's ply, by which the move pass and the announcements go, counts its moves. */
  lemma {:induction false} PlyCountsMoves(open: Decryptor, start: int, es: seq<Event>, g: string)
    ensures PlyOf(Run(open, Start(start), es), g) == MovesSeen(open, start, es, g)
  {
    if es != [] { PlyCountsMoves(open, start, es[..|es| - 1], g); }
  }

  /** A public note is never announced. */
  lemma PublicIsNotAnnounced(open: Decryptor, start: int, es: seq<Event>, i: nat)
    requires i < |Run(open, Start(start), es).announced|
    ensures var s := Run(open, Start(start), es); var u := s.announced[i].uri;
      u in s.table && (s.table[u].visibility == Delayed || s.table[u].visibility == Sealed)
  {
    RunsKeepInv(open, start, es);
    var s := Run(open, Start(start), es);
    assert SaidOk(s, s.announced[i]) && Honest(open, s.table[s.announced[i].uri]);
    AnnouncedHadKey(open, start, es);
  }

  ghost predicate AnnouncedHaveKeys(s: State) {
    forall a :: a in s.announced ==> a.uri in s.table && s.table[a.uri].contentKey.Some?
  }

  lemma StepAnnouncesKeyed(open: Decryptor, s: State, e: Event)
    requires PassesOk(s) && AnnouncedHaveKeys(s)
    ensures AnnouncedHaveKeys(Next(open, s, e))
  {
    var t := Next(open, s, e);
    NextGrows(open, s, e);
    forall a | a in t.announced ensures a.uri in t.table && t.table[a.uri].contentKey.Some? {
      if a in s.announced {
        assert RowGrows(s.table[a.uri], t.table[a.uri]);
      } else {
        var pass := s.passes[e.pass];
        assert PassOk(s, pass);
        assert CopyOk(s, pass.kind, pass.todo[0], pass.copies[pass.todo[0]]);
      }
    }
  }

  /** What is announced was opened with a key. */
  lemma {:induction false} AnnouncedHadKey(open: Decryptor, start: int, es: seq<Event>)
    ensures AnnouncedHaveKeys(Run(open, Start(start), es))
    decreases |es|
  {
    if es != [] {
      var init := es[..|es| - 1];
      AnnouncedHadKey(open, start, init);
      RunsKeepInv(open, start, init);
      StepAnnouncesKeyed(open, Run(open, Start(start), init), es[|es| - 1]);
    }
  }

  /** A game that is finished stays finished, and its end pass may begin once, on all its hidden
      rows with a key. */
  lemma FinishedGameEnds(open: Decryptor, s: State, g: string, stamp: int, batch: seq<string>, more: seq<Event>)
    requires g in s.games && s.games[g].active && s.games[g].endPass == None
    requires forall i, j :: 0 <= i < j < |batch| ==> batch[i] != batch[j]
    requires forall u :: u in batch <==> u in s.table && s.table[u].gameUri == g && s.table[u].contentKey != None && s.table[u].revealedAt == None
    ensures var ended := Next(open, s, FinishGame(g)); var begun := Next(open, ended, Begin(AtEnd(g), stamp, batch));
      && g in ended.games && !ended.games[g].active && ended.table == s.table
      && |begun.passes| == |s.passes| + 1 && begun.passes[|s.passes|].todo == batch
      && Next(open, begun, Begin(AtEnd(g), stamp, batch)) == begun
      && g in Run(open, ended, more).games && !Run(open, ended, more).games[g].active
  {
    RunGrows(open, Next(open, s, FinishGame(g)), more);
  }
}
