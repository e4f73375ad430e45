/** The reveal scheduler as a protocol: ingest, accepted moves, the ticker and the game-end
    pass interleave freely.  A pass first takes copies of the rows its query returned and then
    works through them one write at a time, while the table goes on changing under it. */
module RevealRuns {
  import opened Wrappers
  import opened Batches
  import opened Commentary

  /** The three passes, with the ply and the clock reading their queries were given. */
  datatype Kind = ByPly(gameUri: string, ply: int, readAt: int) | ByTimer(readAt: int) | AtEnd(gameUri: string)

  datatype Pass = Pass(kind: Kind, stamp: int, copies: Table, todo: seq<string>)

  datatype Progress = Progress(ply: int, active: bool, endPass: Option<nat>)

  /** A reveal event, with the instant, the ply and the status of the game when the row was
      written. */
  datatype Announcement = Announcement(uri: string, text: string, now: int, ply: int, active: bool)

  /** `delays` remembers the delay in force when each note was ingested. */
  datatype State = State(
    now: int,
    games: map<string, Progress>,
    table: Table,
    delays: map<string, Delay>,
    passes: seq<Pass>,
    announced: seq<Announcement>)

  datatype Event =
    | Tick(to: int)
    | StartGame(gameUri: string)
    | AcceptMove(gameUri: string)
    | FinishGame(gameUri: string)
    | Arrive(uri: string, record: Record, delay: Delay)
    | Begin(kind: Kind, stamp: int, batch: seq<string>)
    | Continue(pass: nat)

  predicate Active(s: State, g: string) {
    g in s.games && s.games[g].active
  }

  function PlyOf(s: State, g: string): int {
    if g in s.games then s.games[g].ply else 0
  }

  /** `batch` can be what the query of a pass returns.  The move query and the ticker's are
      bounded; the game-end query is not, and runs once, after the game has finished. */
  ghost predicate Lists(s: State, kind: Kind, batch: seq<string>) {
    && (forall i, j :: 0 <= i < j < |batch| ==> batch[i] != batch[j])
    && match kind
       case ByPly(g, ply, readAt) =>
         && g in s.games && ply <= s.games[g].ply && readAt <= s.now && |batch| <= REVEAL_LIMIT
         && forall u :: u in batch ==> u in s.table && IsRevealable(s.table[u], g, ply, readAt)
       case ByTimer(readAt) =>
         readAt <= s.now && IsBatch(Due(s.table, readAt), REVEAL_LIMIT, batch)
       case AtEnd(g) =>
         && g in s.games && !s.games[g].active && s.games[g].endPass == None
         && forall u :: u in batch <==> u in s.table && IsEscrowed(s.table[u], g)
  }

  ghost predicate Allowed(s: State, e: Event) {
    match e
    case Tick(to) => s.now <= to
    case StartGame(g) => g !in s.games
    case AcceptMove(g) => Active(s, g)
    case FinishGame(g) => Active(s, g)
    case Arrive(uri, _, _) => uri !in s.table
    case Begin(kind, _, batch) => Lists(s, kind, batch)
    case Continue(p) => p < |s.passes| && s.passes[p].todo != [] && s.passes[p].todo[0] in s.passes[p].copies
  }

  function Copies(t: Table, batch: seq<string>): Table {
    map u | u in batch && u in t :: t[u]
  }

  function Begun(s: State, kind: Kind, stamp: int, batch: seq<string>): State {
    var started := s.(passes := s.passes + [Pass(kind, stamp, Copies(s.table, batch), batch)]);
    if kind.AtEnd? && kind.gameUri in s.games then
      started.(games := s.games[kind.gameUri := s.games[kind.gameUri].(endPass := Some(|s.passes|))])
    else started
  }

  function Continued(open: Decryptor, s: State, p: nat): State
    requires p < |s.passes| && s.passes[p].todo != [] && s.passes[p].todo[0] in s.passes[p].copies
  {
    var pass := s.passes[p];
    var uri := pass.todo[0];
    var (table, event) := RevealOne(open, s.table, uri, pass.copies[uri], pass.stamp);
    s.(table := table,
       passes := s.passes[p := pass.(todo := pass.todo[1..])],
       announced := s.announced + match event
                                  case None => []
                                  case Some(r) => [Announcement(uri, r.text, s.now, PlyOf(s, pass.copies[uri].gameUri),
                                                                Active(s, pass.copies[uri].gameUri))])
  }

  /** An event that is not possible changes nothing. */
  ghost function Next(open: Decryptor, s: State, e: Event): State {
    if !Allowed(s, e) then s
    else
      match e
      case Tick(to) => s.(now := to)
      case StartGame(g) => s.(games := s.games[g := Progress(0, true, None)])
      case AcceptMove(g) => s.(games := s.games[g := s.games[g].(ply := s.games[g].ply + 1)])
      case FinishGame(g) => s.(games := s.games[g := s.games[g].(active := false)])
      case Arrive(uri, record, delay) =>
        s.(table := Ingested(s.table, uri, record, delay, s.now), delays := s.delays[uri := delay])
      case Begin(kind, stamp, batch) => Begun(s, kind, stamp, batch)
      case Continue(p) => Continued(open, s, p)
  }

  ghost function Run(open: Decryptor, s: State, es: seq<Event>): State {
    if es == [] then s else Next(open, Run(open, s, es[..|es| - 1]), es[|es| - 1])
  }

  function Start(now: int): State {
    State(now, map[], map[], map[], [], [])
  }

  // ---- what holds of a row -----------------------------------------------

  /** The columns no write changes. */
  predicate SameNote(a: Note, b: Note) {
    && a.gameUri == b.gameUri && a.ply == b.ply && a.player == b.player && a.visibility == b.visibility
    && a.ciphertext == b.ciphertext && a.nonce == b.nonce && a.keyId == b.keyId && a.contentKey == b.contentKey
    && a.receivedAt == b.receivedAt && a.revealsAtPly == b.revealsAtPly && a.revealsAt == b.revealsAt
  }

  /** Both bounds, taken from the delay at ingest, or neither. */
  predicate Bounded(n: Note, delay: Delay) {
    && (n.revealsAt.Some? <==> n.revealsAtPly.Some?)
    && (n.revealsAt.Some? ==> n.visibility == Delayed && n.contentKey.Some?)
    && (n.revealsAt.Some? ==> n.revealsAt == Some(n.receivedAt + Wait(delay)) && n.revealsAtPly == Some(n.ply + delay.plies))
    && (n.visibility == Delayed && n.status == EscrowOk ==> n.revealsAt.Some?)
  }

  /** A row is revealed only with what its ciphertext opens to, and marked only if it does not
      open. */
  predicate Honest(open: Decryptor, n: Note) {
    && (n.contentKey.Some? ==> n.visibility in {Public, Delayed, Sealed} && (n.visibility == Public ==> n.revealedAt.Some?))
    && (n.status == DecryptFailed ==> n.visibility != Public && n.contentKey.Some? && Plaintext(open, n) == None)
    && (n.revealedAt.Some? && n.visibility != Public ==> n.text.Some? && n.text == Plaintext(open, n))
  }

  ghost predicate RowsOk(open: Decryptor, s: State) {
    forall u :: u in s.table ==> u in s.delays && Bounded(s.table[u], s.delays[u]) && Honest(open, s.table[u])
  }

  // ---- what holds of a pass ----------------------------------------------

  predicate DueNow(s: State, n: Note, delay: Delay) {
    n.visibility == Delayed && ShouldReveal(n.visibility, n.ply, delay, n.receivedAt, s.now, PlyOf(s, n.gameUri))
  }

  /** The note may be revealed now and ever after. */
  predicate Licensed(s: State, kind: Kind, n: Note, delay: Delay) {
    if kind.AtEnd? then n.gameUri == kind.gameUri && n.gameUri in s.games && !s.games[n.gameUri].active
    else DueNow(s, n, delay)
  }

  predicate CopyOk(s: State, kind: Kind, u: string, copy: Note) {
    && u in s.table && u in s.delays && SameNote(copy, s.table[u])
    && copy.contentKey.Some? && copy.visibility in {Delayed, Sealed}
    && Licensed(s, kind, s.table[u], s.delays[u])
  }

  ghost predicate PassOk(s: State, p: Pass) {
    && (forall u :: u in p.todo ==> u in p.copies)
    && (forall u :: u in p.copies ==> CopyOk(s, p.kind, u, p.copies[u]))
    && (forall u :: u in p.copies && u !in p.todo ==> Settled(s.table[u]))
  }

  ghost predicate PassesOk(s: State) {
    forall i :: 0 <= i < |s.passes| ==> PassOk(s, s.passes[i])
  }

  // ---- what holds of the reveal events -----------------------------------

  predicate SaidOk(s: State, a: Announcement) {
    && a.uri in s.table && a.uri in s.delays
    && var n := s.table[a.uri];
       && n.visibility != Public && n.revealedAt.Some? && n.text == Some(a.text)
       && (a.active ==> n.visibility == Delayed && ShouldReveal(n.visibility, n.ply, s.delays[a.uri], n.receivedAt, a.now, a.ply))
  }

  ghost predicate Announced(s: State, u: string) {
    exists i :: 0 <= i < |s.announced| && s.announced[i].uri == u
  }

  ghost predicate EventsOk(s: State) {
    && (forall i :: 0 <= i < |s.announced| ==> SaidOk(s, s.announced[i]))
    && (forall i, j :: 0 <= i < j < |s.announced| ==> s.announced[i].uri != s.announced[j].uri)
    && (forall u :: u in s.table && s.table[u].visibility != Public && s.table[u].revealedAt.Some? ==> Announced(s, u))
  }

  // ---- what holds of sealed notes ----------------------------------------

  ghost predicate EndPassOf(s: State, g: string, p: nat) {
    g in s.games && s.games[g].endPass == Some(p) && p < |s.passes| && s.passes[p].kind == AtEnd(g)
  }

  ghost predicate EndPassesOk(s: State) {
    && (forall g :: g in s.games && s.games[g].endPass.Some? ==> EndPassOf(s, g, s.games[g].endPass.value))
    && (forall i :: 0 <= i < |s.passes| && s.passes[i].kind.AtEnd? ==> EndPassOf(s, s.passes[i].kind.gameUri, i))
  }

  /** A sealed note is settled by the game-end pass of its game, or not at all. */
  ghost predicate SealedOk(s: State) {
    && EndPassesOk(s)
    && (forall u :: u in s.table && s.table[u].visibility == Sealed && Settled(s.table[u]) ==> ListedAtEnd(s, u, s.table[u].gameUri))
  }

  ghost predicate ListedAtEnd(s: State, u: string, g: string) {
    && g in s.games && s.games[g].endPass.Some? && s.games[g].endPass.value < |s.passes|
    && u in s.passes[s.games[g].endPass.value].copies
  }

  ghost predicate Inv(open: Decryptor, s: State) {
    RowsOk(open, s) && PassesOk(s) && EventsOk(s) && SealedOk(s)
  }

  // ---- one step ----------------------------------------------------------

  predicate ProgressGrows(a: Progress, b: Progress) {
    a.ply <= b.ply && (!a.active ==> !b.active) && (a.endPass.Some? ==> b.endPass == a.endPass)
  }

  predicate RowGrows(a: Note, b: Note) {
    && SameNote(a, b)
    && (a.revealedAt.Some? ==> b.revealedAt == a.revealedAt && b.text == a.text)
    && (Settled(a) ==> Settled(b))
  }

  /** How a step, or a run, may change the state. */
  ghost predicate Grows(s: State, t: State) {
    && s.now <= t.now
    && (forall g :: g in s.games ==> g in t.games && ProgressGrows(s.games[g], t.games[g]))
    && (forall g :: g in t.games && g !in s.games ==> t.games[g].ply >= 0)
    && (forall u :: u in s.table ==> u in t.table && RowGrows(s.table[u], t.table[u]))
    && (forall u :: u in s.table && u in s.delays ==> u in t.delays && t.delays[u] == s.delays[u])
    && |s.passes| <= |t.passes|
    && (forall i :: 0 <= i < |s.passes| ==> PassGrows(s.passes[i], t.passes[i]))
  }

  predicate PassGrows(a: Pass, b: Pass) {
    b == a.(todo := b.todo)
  }

  predicate MarksApart(a: Note, b: Note) {
    b == a.(agentPublished := b.agentPublished, keyMismatch := b.keyMismatch)
  }

  /** Ingest adds one row and otherwise touches nothing but the publication marks. */
  lemma IngestAdds(t: Table, uri: string, r: Record, delay: Delay, now: int)
    requires uri !in t
    ensures var i := Ingested(t, uri, r, delay, now);
      && i.Keys == t.Keys + {uri} && MarksApart(NoteOf(r, delay, now), i[uri])
      && forall u :: u in t ==> MarksApart(t[u], i[u])
  {
  }

  /** What a reveal may do to the row it is about. */
  lemma RevealTouchesOne(open: Decryptor, t: Table, uri: string, copy: Note, stamp: int)
    requires uri in t
    ensures var (r, event) := RevealOne(open, t, uri, copy, stamp);
      && r.Keys == t.Keys && (forall u :: u in t && u != uri ==> r[u] == t[u])
      && RowGrows(t[uri], r[uri]) && Settled(r[uri])
      && (event.Some? <==> t[uri].revealedAt == None && Plaintext(open, copy).Some?)
      && (event.Some? ==> r[uri].text == Some(event.value.text) && event.value.text == Plaintext(open, copy).value)
      && (r[uri].revealedAt.Some? <==> t[uri].revealedAt.Some? || event.Some?)
      && (r[uri].status == t[uri].status || (r[uri].status == DecryptFailed && Plaintext(open, copy) == None))
  {
  }

  lemma ContinueGrows(open: Decryptor, s: State, p: nat)
    requires Allowed(s, Continue(p))
    ensures Grows(s, Continued(open, s, p))
  {
  }

  lemma GamesGrow(open: Decryptor, s: State, e: Event)
    requires e.Tick? || e.StartGame? || e.AcceptMove? || e.FinishGame?
    ensures Grows(s, Next(open, s, e))
  {
  }

  lemma BeginGrows(s: State, kind: Kind, stamp: int, batch: seq<string>)
    requires Lists(s, kind, batch)
    ensures Grows(s, Begun(s, kind, stamp, batch))
  {
  }

  lemma ArriveGrows(open: Decryptor, s: State, uri: string, r: Record, delay: Delay)
    requires uri !in s.table
    ensures Grows(s, Next(open, s, Arrive(uri, r, delay)))
  {
    IngestAdds(s.table, uri, r, delay, s.now);
  }

  lemma NextGrows(open: Decryptor, s: State, e: Event)
    ensures Grows(s, Next(open, s, e))
  {
    if Allowed(s, e) {
      match e
      case Arrive(uri, r, delay) => ArriveGrows(open, s, uri, r, delay);
      case Begin(kind, stamp, batch) => BeginGrows(s, kind, stamp, batch);
      case Continue(p) => ContinueGrows(open, s, p);
      case _ => GamesGrow(open, s, e);
    }
  }

  lemma GrowsTransitive(s: State, t: State, u: State)
    requires Grows(s, t) && Grows(t, u)
    ensures Grows(s, u)
  {
  }

  // ---- what growth keeps -------------------------------------------------

  lemma ListedKept(s: State, t: State, u: string, g: string)
    requires Grows(s, t) && ListedAtEnd(s, u, g)
    ensures ListedAtEnd(t, u, g)
  {
  }

  lemma CopyKept(s: State, t: State, kind: Kind, u: string, copy: Note)
    requires Grows(s, t) && CopyOk(s, kind, u, copy)
    ensures CopyOk(t, kind, u, copy)
  {
  }

  lemma PassKept(s: State, t: State, p: Pass)
    requires Grows(s, t) && PassOk(s, p)
    ensures PassOk(t, p)
  {
    forall u | u in p.copies ensures CopyOk(t, p.kind, u, p.copies[u]) {
      CopyKept(s, t, p.kind, u, p.copies[u]);
    }
    forall u | u in p.copies && u !in p.todo ensures Settled(t.table[u]) {
      assert CopyOk(s, p.kind, u, p.copies[u]);
      assert RowGrows(s.table[u], t.table[u]);
    }
  }

  lemma SaidKept(s: State, t: State, a: Announcement)
    requires Grows(s, t) && SaidOk(s, a)
    ensures SaidOk(t, a)
  {
  }

  // ---- rows --------------------------------------------------------------

  lemma ArrivalIsOk(open: Decryptor, r: Record, delay: Delay, now: int)
    ensures Bounded(NoteOf(r, delay, now), delay) && Honest(open, NoteOf(r, delay, now))
  {
  }

  lemma MarksKeepRow(open: Decryptor, a: Note, b: Note, delay: Delay)
    requires MarksApart(a, b) && Bounded(a, delay) && Honest(open, a)
    ensures Bounded(b, delay) && Honest(open, b)
  {
  }

  lemma ArriveKeepsRows(open: Decryptor, s: State, uri: string, r: Record, delay: Delay)
    requires RowsOk(open, s) && uri !in s.table
    ensures RowsOk(open, Next(open, s, Arrive(uri, r, delay)))
  {
    IngestAdds(s.table, uri, r, delay, s.now);
    var t := Next(open, s, Arrive(uri, r, delay));
    forall u | u in t.table ensures u in t.delays && Bounded(t.table[u], t.delays[u]) && Honest(open, t.table[u]) {
      if u == uri {
        ArrivalIsOk(open, r, delay, s.now);
        MarksKeepRow(open, NoteOf(r, delay, s.now), t.table[u], delay);
      } else {
        MarksKeepRow(open, s.table[u], t.table[u], s.delays[u]);
      }
    }
  }

  lemma RevealKeepsRow(open: Decryptor, t: Table, uri: string, copy: Note, stamp: int, delay: Delay)
    requires uri in t && Bounded(t[uri], delay) && Honest(open, t[uri])
    requires SameNote(copy, t[uri]) && copy.contentKey.Some? && copy.visibility in {Delayed, Sealed}
    ensures var n := RevealOne(open, t, uri, copy, stamp).0[uri]; Bounded(n, delay) && Honest(open, n)
  {
  }

  lemma CopyInHand(s: State, p: nat)
    requires PassesOk(s) && Allowed(s, Continue(p))
    ensures var u := s.passes[p].todo[0]; CopyOk(s, s.passes[p].kind, u, s.passes[p].copies[u])
  {
  }

  lemma ContinueKeepsRows(open: Decryptor, s: State, p: nat)
    requires RowsOk(open, s) && PassesOk(s) && Allowed(s, Continue(p))
    ensures RowsOk(open, Continued(open, s, p))
  {
    var pass := s.passes[p];
    var uri := pass.todo[0];
    CopyInHand(s, p);
    RevealTouchesOne(open, s.table, uri, pass.copies[uri], pass.stamp);
    RevealKeepsRow(open, s.table, uri, pass.copies[uri], pass.stamp, s.delays[uri]);
  }

  lemma NextKeepsRows(open: Decryptor, s: State, e: Event)
    requires RowsOk(open, s) && PassesOk(s)
    ensures RowsOk(open, Next(open, s, e))
  {
    if Allowed(s, e) {
      match e
      case Arrive(uri, r, delay) => ArriveKeepsRows(open, s, uri, r, delay);
      case Continue(p) => ContinueKeepsRows(open, s, p);
      case _ =>
    }
  }

  // ---- passes ------------------------------------------------------------

  /** The stored bounds stand for the rule: on every row a run produces, the move query's
      condition is the rule applied to the delay the note was ingested with. */
  lemma MoveQueryIsRule(n: Note, delay: Delay, g: string, ply: int, now: int)
    requires Bounded(n, delay)
    ensures IsRevealable(n, g, ply, now) <==>
            && n.gameUri == g && n.visibility == Delayed && n.revealedAt == None && n.status == EscrowOk
            && ShouldReveal(n.visibility, n.ply, delay, n.receivedAt, now, ply)
  {
  }

  /** The ticker's condition is the rule's waiting time alone. */
  lemma TimerQueryIsRule(n: Note, delay: Delay, now: int)
    requires Bounded(n, delay)
    ensures IsDue(n, now) <==>
            n.visibility == Delayed && n.revealedAt == None && n.status == EscrowOk && now - n.receivedAt >= Wait(delay)
  {
  }

  lemma ListedIsLicensed(open: Decryptor, s: State, kind: Kind, batch: seq<string>, u: string)
    requires RowsOk(open, s) && Lists(s, kind, batch) && u in batch
    ensures u in s.table && CopyOk(s, kind, u, s.table[u])
  {
  }

  lemma NewPassIsOk(open: Decryptor, s: State, kind: Kind, stamp: int, batch: seq<string>)
    requires RowsOk(open, s) && Lists(s, kind, batch)
    ensures PassOk(s, Pass(kind, stamp, Copies(s.table, batch), batch))
  {
    forall u | u in batch ensures u in s.table && CopyOk(s, kind, u, s.table[u]) {
      ListedIsLicensed(open, s, kind, batch, u);
    }
  }

  lemma BeginKeepsPasses(open: Decryptor, s: State, kind: Kind, stamp: int, batch: seq<string>)
    requires RowsOk(open, s) && PassesOk(s) && Lists(s, kind, batch)
    ensures PassesOk(Begun(s, kind, stamp, batch))
  {
    var t := Begun(s, kind, stamp, batch);
    BeginGrows(s, kind, stamp, batch);
    NewPassIsOk(open, s, kind, stamp, batch);
    PassKept(s, t, Pass(kind, stamp, Copies(s.table, batch), batch));
    forall i | 0 <= i < |s.passes| ensures PassOk(t, t.passes[i]) {
      PassKept(s, t, s.passes[i]);
    }
  }

  lemma PassMovesOn(s: State, pass: Pass)
    requires PassOk(s, pass) && pass.todo != [] && pass.todo[0] in s.table && Settled(s.table[pass.todo[0]])
    ensures PassOk(s, pass.(todo := pass.todo[1..]))
  {
  }

  lemma ContinueKeepsPasses(open: Decryptor, s: State, p: nat)
    requires PassesOk(s) && Allowed(s, Continue(p))
    ensures PassesOk(Continued(open, s, p))
  {
    var t := Continued(open, s, p);
    var pass := s.passes[p];
    ContinueGrows(open, s, p);
    CopyInHand(s, p);
    RevealTouchesOne(open, s.table, pass.todo[0], pass.copies[pass.todo[0]], pass.stamp);
    PassKept(s, t, pass);
    PassMovesOn(t, pass);
    forall i | 0 <= i < |s.passes| && i != p ensures PassOk(t, t.passes[i]) {
      PassKept(s, t, s.passes[i]);
    }
  }

  lemma NextKeepsPasses(open: Decryptor, s: State, e: Event)
    requires RowsOk(open, s) && PassesOk(s)
    ensures PassesOk(Next(open, s, e))
  {
    if Allowed(s, e) {
      match e
      case Begin(kind, stamp, batch) => BeginKeepsPasses(open, s, kind, stamp, batch);
      case Continue(p) => ContinueKeepsPasses(open, s, p);
      case _ =>
        var t := Next(open, s, e);
        NextGrows(open, s, e);
        forall i | 0 <= i < |t.passes| ensures PassOk(t, t.passes[i]) {
          PassKept(s, t, s.passes[i]);
        }
    }
  }

  // ---- reveal events -----------------------------------------------------

  /** Outside of reveals no hidden row becomes revealed, and none of the others is touched. */
  lemma OthersStayHidden(open: Decryptor, s: State, e: Event, u: string)
    requires !e.Continue? && u in Next(open, s, e).table
    ensures var n := Next(open, s, e).table[u];
      if u in s.table then MarksApart(s.table[u], n)
      else n.status != DecryptFailed && (n.visibility != Public ==> n.revealedAt == None)
  {
    if Allowed(s, e) && e.Arrive? {
      IngestAdds(s.table, e.uri, e.record, e.delay, s.now);
    }
  }

  lemma QuietKeepsEvents(open: Decryptor, s: State, e: Event)
    requires EventsOk(s) && !e.Continue?
    ensures EventsOk(Next(open, s, e))
  {
    var t := Next(open, s, e);
    NextGrows(open, s, e);
    assert t.announced == s.announced;
    forall i | 0 <= i < |t.announced| ensures SaidOk(t, t.announced[i]) {
      SaidKept(s, t, s.announced[i]);
    }
    forall u | u in t.table && t.table[u].visibility != Public && t.table[u].revealedAt.Some? ensures Announced(t, u) {
      OthersStayHidden(open, s, e, u);
      AnnouncedKept(s, t, u);
    }
  }

  /** The event a reveal sends, if it sends one, is about a row nobody has announced yet, and
      while the game is active the rule allows it. */
  lemma EventIsFresh(open: Decryptor, s: State, p: nat)
    requires EventsOk(s) && PassesOk(s) && Allowed(s, Continue(p))
    ensures var t := Continued(open, s, p);
      && s.announced <= t.announced <= s.announced + t.announced[|s.announced|..] && |t.announced| <= |s.announced| + 1
      && (|t.announced| > |s.announced| ==>
            var a := t.announced[|s.announced|]; a.uri == s.passes[p].todo[0] && SaidOk(t, a) && !Announced(s, a.uri))
      && t.table.Keys == s.table.Keys
      && (forall u :: u in s.table && t.table[u].revealedAt.Some? && s.table[u].revealedAt == None ==>
            |t.announced| > |s.announced| && u == t.announced[|s.announced|].uri)
  {
  }

  lemma AnnouncedKept(s: State, t: State, u: string)
    requires s.announced <= t.announced && Announced(s, u)
    ensures Announced(t, u)
  {
  }

  lemma StillDistinct(s: State, t: State)
    requires s.announced <= t.announced && |t.announced| <= |s.announced| + 1
    requires forall i, j :: 0 <= i < j < |s.announced| ==> s.announced[i].uri != s.announced[j].uri
    requires |t.announced| > |s.announced| ==> !Announced(s, t.announced[|s.announced|].uri)
    ensures forall i, j :: 0 <= i < j < |t.announced| ==> t.announced[i].uri != t.announced[j].uri
  {
  }

  lemma ContinueKeepsEvents(open: Decryptor, s: State, p: nat)
    requires EventsOk(s) && PassesOk(s) && Allowed(s, Continue(p))
    ensures EventsOk(Continued(open, s, p))
  {
    var t := Continued(open, s, p);
    EventIsFresh(open, s, p);
    ContinueGrows(open, s, p);
    forall i | 0 <= i < |s.announced| ensures SaidOk(t, t.announced[i]) {
      SaidKept(s, t, s.announced[i]);
    }
    StillDistinct(s, t);
    forall u | u in t.table && t.table[u].visibility != Public && t.table[u].revealedAt.Some? ensures Announced(t, u) {
      if s.table[u].revealedAt.Some? {
        assert RowGrows(s.table[u], t.table[u]);
        AnnouncedKept(s, t, u);
      } else {
        assert t.announced[|s.announced|].uri == u;
      }
    }
  }

  lemma NextKeepsEvents(open: Decryptor, s: State, e: Event)
    requires EventsOk(s) && PassesOk(s)
    ensures EventsOk(Next(open, s, e))
  {
    if Allowed(s, e) && e.Continue? {
      ContinueKeepsEvents(open, s, e.pass);
    } else if !e.Continue? {
      QuietKeepsEvents(open, s, e);
    }
  }

  // ---- sealed notes ------------------------------------------------------

  lemma BeginKeepsEndPasses(s: State, kind: Kind, stamp: int, batch: seq<string>)
    requires EndPassesOk(s) && Lists(s, kind, batch)
    ensures EndPassesOk(Begun(s, kind, stamp, batch))
  {
  }

  lemma QuietKeepsEndPasses(open: Decryptor, s: State, e: Event)
    requires EndPassesOk(s) && !e.Continue?
    ensures EndPassesOk(Next(open, s, e))
  {
    var t := Next(open, s, e);
    if e.Begin? {
      if Allowed(s, e) { BeginKeepsEndPasses(s, e.kind, e.stamp, e.batch); }
    } else {
      assert t.passes == s.passes && forall g :: g in t.games && t.games[g].endPass.Some? ==> g in s.games && t.games[g].endPass == s.games[g].endPass;
    }
  }

  lemma QuietKeepsSealed(open: Decryptor, s: State, e: Event)
    requires SealedOk(s) && !e.Continue?
    ensures SealedOk(Next(open, s, e))
  {
    var t := Next(open, s, e);
    NextGrows(open, s, e);
    QuietKeepsEndPasses(open, s, e);
    forall u | u in t.table && t.table[u].visibility == Sealed && Settled(t.table[u]) ensures ListedAtEnd(t, u, t.table[u].gameUri) {
      OthersStayHidden(open, s, e, u);
      ListedKept(s, t, u, s.table[u].gameUri);
    }
  }

  lemma ContinueKeepsSealed(open: Decryptor, s: State, p: nat)
    requires SealedOk(s) && PassesOk(s) && Allowed(s, Continue(p))
    ensures SealedOk(Continued(open, s, p))
  {
    var t := Continued(open, s, p);
    var pass := s.passes[p];
    var uri := pass.todo[0];
    ContinueGrows(open, s, p);
    CopyInHand(s, p);
    RevealTouchesOne(open, s.table, uri, pass.copies[uri], pass.stamp);
    forall u | u in t.table && t.table[u].visibility == Sealed && Settled(t.table[u]) ensures ListedAtEnd(t, u, t.table[u].gameUri) {
      if u == uri {
        assert EndPassOf(s, pass.kind.gameUri, p);
      } else {
        ListedKept(s, t, u, s.table[u].gameUri);
      }
    }
  }

  lemma NextKeepsSealed(open: Decryptor, s: State, e: Event)
    requires SealedOk(s) && PassesOk(s)
    ensures SealedOk(Next(open, s, e))
  {
    if Allowed(s, e) && e.Continue? {
      ContinueKeepsSealed(open, s, e.pass);
    } else if !e.Continue? {
      QuietKeepsSealed(open, s, e);
    }
  }

  // ---- every run ---------------------------------------------------------

  lemma NextKeepsInv(open: Decryptor, s: State, e: Event)
    requires Inv(open, s)
    ensures Inv(open, Next(open, s, e))
  {
    NextKeepsRows(open, s, e);
    NextKeepsPasses(open, s, e);
    NextKeepsEvents(open, s, e);
    NextKeepsSealed(open, s, e);
  }

  lemma {:induction false} InvIsKept(open: Decryptor, s: State, es: seq<Event>)
    requires Inv(open, s)
    ensures Inv(open, Run(open, s, es))
    decreases |es|
  {
    if es != [] {
      InvIsKept(open, s, es[..|es| - 1]);
      NextKeepsInv(open, Run(open, s, es[..|es| - 1]), es[|es| - 1]);
    }
  }

  lemma RunsKeepInv(open: Decryptor, now: int, es: seq<Event>)
    ensures Inv(open, Run(open, Start(now), es))
  {
    InvIsKept(open, Start(now), es);
  }

  lemma {:induction false} RunGrows(open: Decryptor, s: State, es: seq<Event>)
    ensures Grows(s, Run(open, s, es))
    decreases |es|
  {
    if es != [] {
      var mid := Run(open, s, es[..|es| - 1]);
      RunGrows(open, s, es[..|es| - 1]);
      NextGrows(open, mid, es[|es| - 1]);
      GrowsTransitive(s, mid, Run(open, s, es));
    }
  }

  /** The move query and the ticker's query select, in every reachable state, exactly the
      unrevealed rows with a usable key for which the reveal rule holds with the delay of
      their ingest. */
  lemma QueriesAreTheRule(open: Decryptor, start: int, es: seq<Event>, u: string, g: string, ply: int, now: int)
    requires u in Run(open, Start(start), es).table
    ensures var s := Run(open, Start(start), es);
      u in s.delays &&
      var n, delay := s.table[u], s.delays[u];
      && (IsRevealable(n, g, ply, now) <==>
            n.gameUri == g && n.visibility == Delayed && n.revealedAt == None && n.status == EscrowOk &&
            ShouldReveal(n.visibility, n.ply, delay, n.receivedAt, now, ply))
      && (IsDue(n, now) <==>
            n.visibility == Delayed && n.revealedAt == None && n.status == EscrowOk && now - n.receivedAt >= Wait(delay))
  {
    RunsKeepInv(open, start, es);
    var s := Run(open, Start(start), es);
    MoveQueryIsRule(s.table[u], s.delays[u], g, ply, now);
    TimerQueryIsRule(s.table[u], s.delays[u], now);
  }

  /** However the passes race: a note announced while its game is active is a delayed one for
      which the rule held then, each note is announced at most once, and every row outside the
      public ones that is revealed has been announced, with the text it holds. */
  lemma EventsFollowTheRule(open: Decryptor, now: int, es: seq<Event>)
    ensures var s := Run(open, Start(now), es);
      && (forall i :: 0 <= i < |s.announced| ==> SaidOk(s, s.announced[i]))
      && (forall i, j :: 0 <= i < j < |s.announced| ==> s.announced[i].uri != s.announced[j].uri)
      && (forall u :: u in s.table && s.table[u].visibility != Public && s.table[u].revealedAt.Some? ==> Announced(s, u))
  {
    RunsKeepInv(open, now, es);
  }

  /** A game view shows a text only when the note is public, or a reveal announced exactly that
      text; and for a game that was active then, the rule allowed it. */
  lemma ViewFollowsTheRule(open: Decryptor, now: int, es: seq<Event>, u: string)
    requires u in Run(open, Start(now), es).table && EntryOf(u, Run(open, Start(now), es).table[u]).text.Some?
    ensures var s := Run(open, Start(now), es);
      s.table[u].visibility == Public ||
      exists i :: 0 <= i < |s.announced| && s.announced[i].uri == u && SaidOk(s, s.announced[i]) &&
        EntryOf(u, s.table[u]).text == Some(s.announced[i].text)
  {
    RunsKeepInv(open, now, es);
    var s := Run(open, Start(now), es);
    if s.table[u].visibility != Public {
      var i :| 0 <= i < |s.announced| && s.announced[i].uri == u;
      assert SaidOk(s, s.announced[i]);
    }
  }

  /** A revealed row keeps its text and its instant whatever happens next, and no row is both
      revealed and marked as not decryptable. */
  lemma RevealsArePermanent(open: Decryptor, now: int, es: seq<Event>, more: seq<Event>, u: string)
    requires u in Run(open, Start(now), es).table && Run(open, Start(now), es).table[u].revealedAt.Some?
    ensures var s := Run(open, Start(now), es);
      var t := Run(open, s, more);
      u in t.table && t.table[u].text == s.table[u].text && t.table[u].revealedAt == s.table[u].revealedAt &&
      s.table[u].status != DecryptFailed
  {
    RunsKeepInv(open, now, es);
    RunGrows(open, Run(open, Start(now), es), more);
  }

  /** Once the game-end pass of a game has worked through its list, a sealed note of that game
      is settled exactly if it was on the list.  A sealed note that arrives later stays
      private. */
  lemma SealedSettledIffListed(open: Decryptor, now: int, es: seq<Event>, u: string, p: nat)
    requires var s := Run(open, Start(now), es);
      u in s.table && s.table[u].visibility == Sealed && EndPassOf(s, s.table[u].gameUri, p) && s.passes[p].todo == []
    ensures var s := Run(open, Start(now), es); Settled(s.table[u]) <==> u in s.passes[p].copies
  {
    RunsKeepInv(open, now, es);
    var s := Run(open, Start(now), es);
    assert PassOk(s, s.passes[p]);
    if Settled(s.table[u]) {
      assert ListedAtEnd(s, u, s.table[u].gameUri);
    }
  }

  lemma NotListedAfter(s: State, t: State, u: string, g: string)
    requires Grows(s, t) && SealedOk(s)
    requires g in s.games && s.games[g].endPass.Some? && !ListedAtEnd(s, u, g)
    ensures !ListedAtEnd(t, u, g)
  {
  }

  /** Everything the game-end pass finds stops being private: when it has worked through its
      list, however it was interleaved with other passes, every row the game had with a key is
      revealed or marked. */
  lemma EndPassSettlesGame(open: Decryptor, now: int, es: seq<Event>, g: string, stamp: int, batch: seq<string>, more: seq<Event>)
    requires Lists(Run(open, Start(now), es), AtEnd(g), batch)
    requires var s := Run(open, Start(now), es);
      var t := Run(open, Next(open, s, Begin(AtEnd(g), stamp, batch)), more);
      |s.passes| < |t.passes| && t.passes[|s.passes|].todo == []
    ensures var s := Run(open, Start(now), es);
      var t := Run(open, Next(open, s, Begin(AtEnd(g), stamp, batch)), more);
      forall u :: u in s.table && s.table[u].gameUri == g && s.table[u].contentKey.Some? ==> u in t.table && Settled(t.table[u])
  {
    var s := Run(open, Start(now), es);
    var begun := Next(open, s, Begin(AtEnd(g), stamp, batch));
    var t := Run(open, begun, more);
    RunsKeepInv(open, now, es);
    NextKeepsInv(open, s, Begin(AtEnd(g), stamp, batch));
    InvIsKept(open, begun, more);
    RunGrows(open, begun, more);
    var p := |s.passes|;
    assert PassGrows(begun.passes[p], t.passes[p]) && PassOk(t, t.passes[p]);
    forall u | u in s.table && s.table[u].gameUri == g && s.table[u].contentKey.Some? ensures u in t.table && Settled(t.table[u]) {
      assert RowGrows(begun.table[u], t.table[u]);
      if IsEscrowed(s.table[u], g) {
        assert u in t.passes[p].copies;
      }
    }
  }

  lemma LateSealedNoteStaysPrivate(open: Decryptor, now: int, es: seq<Event>, u: string, r: Record, delay: Delay, more: seq<Event>)
    requires var s := Run(open, Start(now), es);
      u !in s.table && r.visibility == Sealed && r.gameUri in s.games && s.games[r.gameUri].endPass.Some?
    ensures var t := Run(open, Next(open, Run(open, Start(now), es), Arrive(u, r, delay)), more);
      u in t.table && t.table[u].revealedAt == None
  {
    var s := Run(open, Start(now), es);
    var arrived := Next(open, s, Arrive(u, r, delay));
    var t := Run(open, arrived, more);
    RunsKeepInv(open, now, es);
    NextKeepsInv(open, s, Arrive(u, r, delay));
    InvIsKept(open, arrived, more);
    RunGrows(open, arrived, more);
    var p := s.games[r.gameUri].endPass.value;
    assert EndPassOf(s, r.gameUri, p) && PassOk(s, s.passes[p]);
    OthersStayHidden(open, s, Arrive(u, r, delay), u);
    NewRow(open, s, u, r, delay);
    NotListedAfter(arrived, t, u, r.gameUri);
    assert RowGrows(arrived.table[u], t.table[u]);
  }

  lemma NewRow(open: Decryptor, s: State, u: string, r: Record, delay: Delay)
    requires u !in s.table
    ensures var t := Next(open, s, Arrive(u, r, delay));
      u in t.table && t.table[u].visibility == r.visibility && t.table[u].gameUri == r.gameUri && t.passes == s.passes && t.games == s.games
  {
  }
}
