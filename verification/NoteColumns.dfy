/** The commentary table in its columns: what a record becomes, what a view shows of it, what opens
    it, and whose rows the publication marks are on. */
module NoteColumns {
  import opened Wrappers
  import Base64
  import Clock
  import Keys
  import opened Commentary
  import opened RevealRuns
  import opened Publication

  // ---- what a record becomes ---------------------------------------------

  /** Public records carry a text and no ciphertext; delayed ones a ciphertext and a key in
      escrow; sealed ones a ciphertext. */
  predicate Acceptable(r: Record) {
    || (r.visibility == Public && r.text != None && |r.ciphertext| == 0)
    || (r.visibility == Delayed && |r.ciphertext| > 0 && (r.escrow == BadWrap || r.escrow.Unwrapped?))
    || (r.visibility == Sealed && |r.ciphertext| > 0)
  }

  /** An acceptable record is kept whole, with the key that came out of escrow; a public one is
      revealed at once, and only a delayed one with its key gets bounds.  Any other is kept
      without ciphertext and key, and marked invalid. */
  lemma RecordBecomes(r: Record, delay: Delay, now: int)
    ensures var n := NoteOf(r, delay, now);
      && n.gameUri == r.gameUri && n.ply == r.ply && n.player == r.player && n.visibility == r.visibility
      && n.text == r.text && n.keyId == r.keyId && n.receivedAt == now && !n.agentPublished && !n.keyMismatch
      && (Acceptable(r) ==> n.ciphertext == r.ciphertext && n.nonce == r.nonce && n.contentKey == (if r.escrow.Unwrapped? then Some(r.escrow.key) else None))
      && (!Acceptable(r) ==> n.ciphertext == [] && n.nonce == [] && n.contentKey == None)
      && n.status == (if !Acceptable(r) then EscrowInvalid
                      else if r.escrow == BadWrap then EscrowFailed
                      else if r.escrow == NoWrap && r.visibility == Sealed then NoEscrow
                      else EscrowOk)
      && n.revealedAt == (if Acceptable(r) && r.visibility == Public then Some(now) else None)
      && (if Acceptable(r) && r.visibility == Delayed && r.escrow.Unwrapped?
          then n.revealsAtPly == Some(r.ply + delay.plies) && n.revealsAt == Some(now + Clock.Nanoseconds(delay.seconds))
          else n.revealsAtPly == None && n.revealsAt == None)
  {
    Clock.ProductIsNanoseconds(delay.seconds);
  }

  // ---- what a view shows -------------------------------------------------

  /** A view shows every row that is not invalid, in order: the text of a revealed note and of no
      other, and the bounds of a hidden one. */
  predicate ShownAs(e: Entry, uri: string, n: Note) {
    && e.uri == uri && e.ply == n.ply && e.player == n.player && e.visibility == n.visibility
    && (n.revealedAt != None ==> e.revealed && e.text == n.text && e.revealsAt == None && e.revealsAtPly == None)
    && (n.revealedAt == None ==> !e.revealed && e.text == None && e.revealsAt == n.revealsAt && e.revealsAtPly == n.revealsAtPly)
  }

  function Valid(rows: seq<(string, Note)>): seq<(string, Note)> {
    if rows == [] then []
    else Valid(rows[..|rows| - 1]) + if rows[|rows| - 1].1.status == EscrowInvalid then [] else [rows[|rows| - 1]]
  }

  lemma {:induction false} ViewShowsValid(rows: seq<(string, Note)>)
    ensures |Shown(rows)| == |Valid(rows)|
    ensures forall i :: 0 <= i < |Shown(rows)| ==> ShownAs(Shown(rows)[i], Valid(rows)[i].0, Valid(rows)[i].1)
  {
    if rows != [] { ViewShowsValid(rows[..|rows| - 1]); }
  }

  // ---- what opens a note -------------------------------------------------

  /** A key of 32 bytes and a nonce of 24 open the ciphertext, bound to game, ply and player; other
      lengths open nothing. */
  lemma OpensWith(open: Decryptor, n: Note)
    ensures Plaintext(open, n) ==
            if n.contentKey != None && |n.contentKey.value| == 32 && |n.nonce| == 24
            then open(n.contentKey.value, n.nonce, n.ciphertext, n.gameUri + "|" + Keys.Dec(n.ply) + "|" + n.player)
            else None
  {
  }

  /** The game-end pass finds every row of the game that holds a key and was not revealed; the
      ticker and the move pass those whose key came out of escrow and has not failed to open. */
  lemma FoundAtEnd(n: Note, g: string)
    ensures IsEscrowed(n, g) <==> n.gameUri == g && n.contentKey != None && n.revealedAt == None
  {
  }

  // ---- whose rows are marked ---------------------------------------------

  /** Rows of one player's notes of one game under one key identifier. */
  predicate Together(a: Note, b: Note) {
    a.gameUri == b.gameUri && a.player == b.player && a.keyId == b.keyId && a.keyId != None && a.keyId.value != ""
  }

  /** A public note whose text is a key. */
  ghost predicate Publishes(n: Note, key: Bytes) {
    n.visibility == Public && n.text != None && Base64.PublishedKey(n.text.value) == Some(key)
  }

  predicate Escrows(n: Note, key: Bytes) {
    n.contentKey == Some(key) && |key| == 32
  }

  ghost predicate PublishedKeyHeld(t: Table, n: Note) {
    exists v, w, key :: v in t && w in t && Together(n, t[v]) && Together(n, t[w]) && Publishes(t[v], key) && Escrows(t[w], key)
  }

  ghost predicate SomePublished(t: Table, n: Note) {
    exists v, key :: v in t && Together(n, t[v]) && Publishes(t[v], key)
  }

  ghost predicate SomeEscrowed(t: Table, n: Note) {
    exists w, key :: w in t && Together(n, t[w]) && Escrows(t[w], key)
  }

  lemma TogetherIsGroup(n: Note, m: Note)
    requires Named(n)
    ensures InGroup(m, GroupOf(n)) <==> Together(n, m)
  {
  }

  lemma KindsInColumns(t: Table, n: Note)
    requires Named(n)
    ensures HasPublished(t, GroupOf(n)) <==> SomePublished(t, n)
    ensures HasEscrowed(t, GroupOf(n)) <==> SomeEscrowed(t, n)
  {
    var g := GroupOf(n);
    forall m ensures InGroup(m, g) <==> Together(n, m) { TogetherIsGroup(n, m); }
    if u :| u in t && InGroup(t[u], g) && PublishedBy(t[u]).Some? { assert Publishes(t[u], PublishedBy(t[u]).value); }
    if u :| u in t && InGroup(t[u], g) && EscrowedBy(t[u]).Some? { assert Escrows(t[u], EscrowedBy(t[u]).value); }
  }

  lemma MatchInColumns(t: Table, n: Note)
    requires Named(n)
    ensures Matched(t, GroupOf(n)) <==> PublishedKeyHeld(t, n)
  {
    var g := GroupOf(n);
    forall m ensures InGroup(m, g) <==> Together(n, m) { TogetherIsGroup(n, m); }
    if u, v :| u in t && v in t && InGroup(t[u], g) && InGroup(t[v], g) && PublishedBy(t[u]).Some? && PublishedBy(t[u]) == EscrowedBy(t[v]) {
      var key := PublishedBy(t[u]).value;
      assert Publishes(t[u], key) && Escrows(t[v], key);
    }
    if v, w, key :| v in t && w in t && Together(n, t[v]) && Together(n, t[w]) && Publishes(t[v], key) && Escrows(t[w], key) {
      assert PublishedBy(t[v]) == Some(key) && EscrowedBy(t[w]) == Some(key);
    }
  }

  /** In every run over valid records a row is marked published exactly if some note of the same
      player, game and key identifier publishes a key that another of them holds in escrow.  If
      they hold keys of both kinds and none agree, all are marked mismatched; without both kinds
      none is. */
  lemma MarksInColumns(open: Decryptor, now: int, es: seq<Event>, u: string)
    requires AllValid(es) && u in Run(open, Start(now), es).table
    ensures var t := Run(open, Start(now), es).table; var n := t[u];
      && (n.agentPublished <==> PublishedKeyHeld(t, n))
      && (SomePublished(t, n) && SomeEscrowed(t, n) && !PublishedKeyHeld(t, n) ==> n.keyMismatch)
      && (n.keyMismatch ==> SomePublished(t, n) && SomeEscrowed(t, n))
  {
    MarksFollowKeys(open, now, es);
    var t := Run(open, Start(now), es).table;
    assert MarkOk(t, u) && MismatchOk(t, u);
    if Named(t[u]) {
      KindsInColumns(t, t[u]);
      MatchInColumns(t, t[u]);
    }
  }

  /** A record changes the marks of nobody else's rows. */
  lemma MarksStayWithPlayer(t: Table, uri: string, r: Record, delay: Delay, now: int, u: string)
    requires uri !in t && u in t && (t[u].player != r.player || t[u].gameUri != r.gameUri || t[u].keyId != r.keyId)
    ensures u in Ingested(t, uri, r, delay, now) && Ingested(t, uri, r, delay, now)[u] == t[u]
  {
  }
}
