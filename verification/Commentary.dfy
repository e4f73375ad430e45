/** The commentary table: ingest of agents' notes, the reveal rule and the queries that
    stand for it, and the two writes a reveal can make. */
module Commentary {
  import opened Wrappers
  import Base64
  import Batches
  import Clock
  import Keys
  import Lex

  type Bytes = Lex.Bytes

  const KEY_SIZE := 32
  const NONCE_SIZE := 24
  const REVEAL_LIMIT := 200

  datatype Visibility = Public | Delayed | Sealed | Other(name: string)

  datatype EscrowStatus = EscrowOk | EscrowInvalid | EscrowFailed | NoEscrow | DecryptFailed

  /** Reveal after this many further plies or this many seconds. */
  datatype Delay = Delay(plies: int, seconds: int)

  datatype Note = Note(
    gameUri: string,
    ply: int,
    player: string,
    visibility: Visibility,
    text: Option<string>,
    ciphertext: Bytes,
    nonce: Bytes,
    keyId: Option<string>,
    contentKey: Option<Bytes>,
    status: EscrowStatus,
    receivedAt: int,
    revealsAtPly: Option<int>,
    revealsAt: Option<int>,
    revealedAt: Option<int>,
    agentPublished: bool,
    keyMismatch: bool)

  /** Notes by record address. */
  type Table = map<string, Note>

  // ---- the reveal rule ---------------------------------------------------

  function Wait(delay: Delay): int {
    Clock.Int64(delay.seconds * Clock.SECOND)
  }

  /** A delayed note is due once its ply bound is reached or its wait has passed; a sealed one
      never is while the game lasts. */
  predicate ShouldReveal(v: Visibility, ply: int, delay: Delay, receivedAt: int, now: int, currentPly: int) {
    match v
    case Public => true
    case Delayed => currentPly >= ply + delay.plies || now - receivedAt >= Wait(delay)
    case Sealed => false
    case Other(_) => false
  }

  // ---- ingest ------------------------------------------------------------

  /** What the escrow wrap of a record yields. */
  datatype Escrow = NoWrap | Unwrapped(key: Bytes) | BadWrap

  datatype Record = Record(
    gameUri: string,
    ply: int,
    player: string,
    visibility: Visibility,
    text: Option<string>,
    ciphertext: Bytes,
    nonce: Bytes,
    keyId: Option<string>,
    escrow: Escrow)

  predicate ValidFields(r: Record) {
    match r.visibility
    case Public => r.text.Some? && r.ciphertext == []
    case Delayed => r.ciphertext != [] && r.escrow != NoWrap
    case Sealed => r.ciphertext != []
    case Other(_) => false
  }

  function StatusOf(r: Record): EscrowStatus {
    match r.escrow
    case Unwrapped(_) => EscrowOk
    case BadWrap => EscrowFailed
    case NoWrap => if r.visibility == Sealed then NoEscrow else EscrowOk
  }

  /** Only delayed notes whose key unwrapped are scheduled. */
  function BoundsOf(r: Record, delay: Delay, now: int): (Option<int>, Option<int>) {
    if r.visibility != Delayed || StatusOf(r) != EscrowOk then (None, None)
    else (Some(r.ply + delay.plies), Some(now + Wait(delay)))
  }

  /** The row of a new record. */
  function NoteOf(r: Record, delay: Delay, now: int): Note {
    if ValidFields(r) then
      Note(r.gameUri, r.ply, r.player, r.visibility, r.text, r.ciphertext, r.nonce, r.keyId,
           if r.escrow.Unwrapped? then Some(r.escrow.key) else None, StatusOf(r), now,
           BoundsOf(r, delay, now).0, BoundsOf(r, delay, now).1,
           if r.visibility == Public then Some(now) else None, false, false)
    else
      Note(r.gameUri, r.ply, r.player, r.visibility, r.text, [], [], r.keyId, None, EscrowInvalid, now,
           None, None, None, false, false)
  }

  // ---- key publication ---------------------------------------------------

  /** One agent's notes of one game under one key identifier. */
  datatype Group = Group(gameUri: string, player: string, keyId: string)

  predicate InGroup(n: Note, g: Group) {
    n.gameUri == g.gameUri && n.player == g.player && n.keyId == Some(g.keyId)
  }

  ghost function PublishedBy(n: Note): Option<Bytes> {
    if n.visibility == Public && n.text.Some? then Base64.PublishedKey(n.text.value) else None
  }

  function EscrowedBy(n: Note): Option<Bytes> {
    if n.contentKey.Some? && |n.contentKey.value| == KEY_SIZE then n.contentKey else None
  }

  ghost predicate HasPublished(t: Table, g: Group) {
    exists u :: u in t && InGroup(t[u], g) && PublishedBy(t[u]).Some?
  }

  ghost predicate HasEscrowed(t: Table, g: Group) {
    exists u :: u in t && InGroup(t[u], g) && EscrowedBy(t[u]).Some?
  }

  /** Some published key equals some escrowed key of the group. */
  ghost predicate Matched(t: Table, g: Group) {
    exists u, v :: u in t && v in t && InGroup(t[u], g) && InGroup(t[v], g) &&
      PublishedBy(t[u]).Some? && PublishedBy(t[u]) == EscrowedBy(t[v])
  }

  /** Or the marks onto every row of the group. */
  function MarkPublication(t: Table, g: Group, published: bool, mismatch: bool): Table {
    map u | u in t ::
      if InGroup(t[u], g) then
        t[u].(agentPublished := t[u].agentPublished || published, keyMismatch := t[u].keyMismatch || mismatch)
      else t[u]
  }

  ghost function Detected(t: Table, g: Group): Table {
    if g.keyId == "" || !HasPublished(t, g) || !HasEscrowed(t, g) then t
    else MarkPublication(t, g, Matched(t, g), !Matched(t, g))
  }

  function GroupOf(n: Note): Group {
    Group(n.gameUri, n.player, if n.keyId.Some? then n.keyId.value else "")
  }

  /** One record event.  An address already taken is left as it was; only valid records set
      off publication detection. */
  ghost function Ingested(t: Table, uri: string, r: Record, delay: Delay, now: int): Table {
    if uri in t then t
    else
      var n := NoteOf(r, delay, now);
      if ValidFields(r) then Detected(t[uri := n], GroupOf(n)) else t[uri := n]
  }

  // ---- queries -----------------------------------------------------------

  predicate Openable(n: Note) {
    n.revealedAt == None && n.contentKey.Some?
  }

  /** The timer branch: wall-clock bound passed. */
  predicate IsDue(n: Note, now: int) {
    Openable(n) && n.status == EscrowOk && n.revealsAt.Some? && n.revealsAt.value <= now
  }

  /** The move branch: either bound of a delayed note reached. */
  predicate IsRevealable(n: Note, gameUri: string, currentPly: int, now: int) {
    && n.gameUri == gameUri && Openable(n) && n.visibility == Delayed && n.status == EscrowOk
    && ((n.revealsAtPly.Some? && n.revealsAtPly.value <= currentPly) || (n.revealsAt.Some? && n.revealsAt.value <= now))
  }

  /** The game-end pass: everything hidden that has a key. */
  predicate IsEscrowed(n: Note, gameUri: string) {
    n.gameUri == gameUri && Openable(n)
  }

  /** The ticker's query: due rows by wall-clock bound. */
  function Due(t: Table, now: int): map<string, int> {
    map u | u in t && IsDue(t[u], now) :: t[u].revealsAt.value
  }

  // ---- display -----------------------------------------------------------

  /** What a game view shows of a note. */
  datatype Entry = Entry(
    uri: string,
    ply: int,
    player: string,
    visibility: Visibility,
    revealed: bool,
    text: Option<string>,
    revealsAt: Option<int>,
    revealsAtPly: Option<int>)

  function EntryOf(uri: string, n: Note): Entry {
    if n.revealedAt.Some? then Entry(uri, n.ply, n.player, n.visibility, true, n.text, None, None)
    else Entry(uri, n.ply, n.player, n.visibility, false, None, n.revealsAt, n.revealsAtPly)
  }

  /** Invalid notes are not shown at all. */
  function Shown(rows: seq<(string, Note)>): seq<Entry> {
    if rows == [] then []
    else
      var (uri, n) := rows[|rows| - 1];
      Shown(rows[..|rows| - 1]) + if n.status == EscrowInvalid then [] else [EntryOf(uri, n)]
  }

  method BuildEntries(rows: seq<(string, Note)>) returns (out: seq<Entry>)
    ensures out == Shown(rows)
  {
    out := [];
    var i := 0;
    while i < |rows|
      invariant 0 <= i <= |rows|
      invariant out == Shown(rows[..i])
    {
      assert rows[..i + 1][..i] == rows[..i];
      var (uri, n) := rows[i];
      if n.status != EscrowInvalid {
        if n.revealedAt.Some? {
          out := out + [Entry(uri, n.ply, n.player, n.visibility, true, n.text, None, None)];
        } else {
          out := out + [Entry(uri, n.ply, n.player, n.visibility, false, None, n.revealsAt, n.revealsAtPly)];
        }
      }
      i := i + 1;
    }
    assert rows[..i] == rows;
  }

  /** Every entry comes from a row that is valid, and shows the text only of a revealed one. */
  lemma {:induction false} ShownFrom(rows: seq<(string, Note)>, e: Entry)
    ensures e in Shown(rows) <==> exists r :: r in rows && r.1.status != EscrowInvalid && e == EntryOf(r.0, r.1)
  {
    if rows != [] {
      ShownFrom(rows[..|rows| - 1], e);
      assert rows == rows[..|rows| - 1] + [rows[|rows| - 1]];
    }
  }

  // ---- revealing one note ------------------------------------------------

  /** Authenticated decryption: key, nonce, ciphertext, associated data. */
  type Decryptor = (Bytes, Bytes, Bytes, string) -> Option<string>

  /** The text of a note, if its stored key material opens it. */
  function Plaintext(open: Decryptor, n: Note): Option<string> {
    if n.contentKey == None || |n.contentKey.value| != KEY_SIZE || |n.nonce| != NONCE_SIZE then None
    else open(n.contentKey.value, n.nonce, n.ciphertext, Keys.AAD(n.gameUri, n.ply, n.player))
  }

  /** Nothing is left to reveal of the note. */
  predicate Settled(n: Note) {
    n.revealedAt.Some? || n.status == DecryptFailed
  }

  datatype Revealed = Revealed(uri: string, text: string)

  /** Reveal from a copy the query returned: the first writer stores the text and announces
      it; a note that does not open is marked so that it is not tried again. */
  function RevealOne(open: Decryptor, t: Table, uri: string, copy: Note, now: int): (Table, Option<Revealed>) {
    if uri !in t then (t, None)
    else
      match Plaintext(open, copy)
      case None => (t[uri := t[uri].(status := DecryptFailed)], None)
      case Some(text) =>
        if t[uri].revealedAt.Some? then (t, None)
        else (t[uri := t[uri].(text := Some(text), revealedAt := Some(now))], Some(Revealed(uri, text)))
  }

  // ---- the table in place ------------------------------------------------

  /** The commentary repository and the code over it. */
  class CommentaryIndex {
    const open: Decryptor
    /** Addresses in arrival order. */
    var uris: seq<string>
    var rows: Table
    var announced: seq<Revealed>

    ghost predicate Valid()
      reads this
    {
      forall u :: u in uris <==> u in rows
    }

    constructor (open: Decryptor)
      ensures Valid() && rows == map[] && announced == [] && this.open == open
    {
      this.open := open;
      uris, rows, announced := [], map[], [];
    }

    /** Gather the group's published and escrowed keys, compare each pair, mark the rows. */
    method DetectKeyPublication(g: Group)
      requires Valid()
      modifies this`rows
      ensures Valid() && rows == Detected(old(rows), g)
    {
      if g.keyId == "" { return; }
      var published, escrowed := CollectKeys(g);
      PublishedKeysExist(rows, uris, g);
      EscrowedKeysExist(rows, uris, g);
      if |published| == 0 || |escrowed| == 0 { return; }
      var matched := AnyEqual(published, escrowed);
      KeysDecideMatch(rows, uris, g);
      rows := MarkPublication(rows, g, matched, !matched);
    }

    static method AnyEqual(published: seq<Bytes>, escrowed: seq<Bytes>) returns (matched: bool)
      ensures matched <==> Meet(published, escrowed)
    {
      matched := false;
      var i := 0;
      while i < |published|
        invariant 0 <= i <= |published|
        invariant matched <==> Meet(published[..i], escrowed)
      {
        var j := 0;
        while j < |escrowed|
          invariant 0 <= j <= |escrowed|
          invariant matched <==> Meet(published[..i], escrowed) || published[i] in escrowed[..j]
        {
          if published[i] == escrowed[j] { matched := true; }
          j := j + 1;
        }
        assert escrowed[..j] == escrowed;
        MeetOneMore(published, i, escrowed);
        i := i + 1;
      }
      assert published[..i] == published;
    }

    method CollectKeys(g: Group) returns (published: seq<Bytes>, escrowed: seq<Bytes>)
      requires Valid()
      ensures published == PublishedKeys(rows, uris, g)
      ensures escrowed == EscrowedKeys(rows, uris, g)
    {
      published, escrowed := [], [];
      var i := 0;
      while i < |uris|
        invariant 0 <= i <= |uris|
        invariant published == PublishedKeys(rows, uris[..i], g)
        invariant escrowed == EscrowedKeys(rows, uris[..i], g)
      {
        var n := rows[uris[i]];
        assert uris[..i + 1][..i] == uris[..i];
        if InGroup(n, g) {
          if n.visibility == Public && n.text.Some? {
            var key := Base64.DecodePublishedKey(n.text.value);
            if key.Some? { published := published + [key.value]; }
          }
          if n.contentKey.Some? && |n.contentKey.value| == KEY_SIZE {
            escrowed := escrowed + [n.contentKey.value];
          }
        }
        i := i + 1;
      }
      assert uris[..i] == uris;
    }

    method IngestCommentary(uri: string, r: Record, delay: Delay, now: int)
      requires Valid()
      modifies this`rows, this`uris
      ensures Valid() && rows == Ingested(old(rows), uri, r, delay, now)
    {
      if uri in rows { return; }
      var n := NoteOf(r, delay, now);
      rows := rows[uri := n];
      uris := uris + [uri];
      if ValidFields(r) {
        DetectKeyPublication(GroupOf(n));
      }
    }

    /** Decrypt, store, announce; or mark as not decryptable. */
    method Reveal(uri: string, copy: Note, now: int)
      requires Valid() && uri in rows
      modifies this`rows, this`announced
      ensures Valid()
      ensures rows == RevealOne(open, old(rows), uri, copy, now).0
      ensures var event := RevealOne(open, old(rows), uri, copy, now).1;
        announced == old(announced) + if event.Some? then [event.value] else []
    {
      var text := Plaintext(open, copy);
      if text == None {
        rows := rows[uri := rows[uri].(status := DecryptFailed)];
        return;
      }
      if rows[uri].revealedAt.Some? { return; }
      rows := rows[uri := rows[uri].(text := text, revealedAt := Some(now))];
      announced := announced + [Revealed(uri, text.value)];
    }

    /** The move pass, after ply `ply` was accepted.  `due` is the query's answer. */
    method RevealPlyPass(gameUri: string, ply: int, readAt: int, due: seq<string>, now: int)
      requires Valid() && |due| <= REVEAL_LIMIT
      requires forall u :: u in due ==> u in rows && IsRevealable(rows[u], gameUri, ply, readAt)
      modifies this`rows, this`announced
      ensures Valid() && rows == RevealedEach(open, old(rows), old(rows), due, now)
      ensures announced == old(announced) + AnnouncedEach(open, old(rows), due, now)
    {
      RevealEach(due, now);
    }

    /** The ticker pass.  `due` is the query's answer. */
    method RevealTimerPass(due: seq<string>, now: int)
      requires Valid() && Batches.IsBatch(Due(rows, now), REVEAL_LIMIT, due)
      modifies this`rows, this`announced
      ensures Valid() && rows == RevealedEach(open, old(rows), old(rows), due, now)
      ensures announced == old(announced) + AnnouncedEach(open, old(rows), due, now)
    {
      RevealEach(due, now);
    }

    /** The game-end pass: nothing stays private. */
    method RevealAll(gameUri: string, now: int)
      requires Valid()
      modifies this`rows, this`announced
      ensures Valid() && rows.Keys == old(rows).Keys
      ensures rows == RevealedEach(open, old(rows), old(rows), Hidden(old(rows), uris, gameUri), now)
      ensures announced == old(announced) + AnnouncedEach(open, old(rows), Hidden(old(rows), uris, gameUri), now)
      ensures forall u :: u in rows && rows[u].gameUri == gameUri && rows[u].contentKey.Some? ==> Settled(rows[u])
      ensures forall u :: u in rows && !IsEscrowed(old(rows)[u], gameUri) ==> rows[u] == old(rows)[u]
    {
      var hidden: seq<string> := [];
      var i := 0;
      while i < |uris|
        invariant 0 <= i <= |uris|
        invariant hidden == Hidden(rows, uris[..i], gameUri)
      {
        assert uris[..i + 1][..i] == uris[..i];
        if IsEscrowed(rows[uris[i]], gameUri) { hidden := hidden + [uris[i]]; }
        i := i + 1;
      }
      assert uris[..i] == uris;
      RevealEach(hidden, now);
      PassSettles(open, old(rows), hidden, now);
    }

    /** One pass over the rows a query returned, each opened from the copy it returned. */
    method RevealEach(batch: seq<string>, now: int)
      requires Valid() && forall u :: u in batch ==> u in rows
      modifies this`rows, this`announced
      ensures Valid() && rows == RevealedEach(open, old(rows), old(rows), batch, now)
      ensures announced == old(announced) + AnnouncedEach(open, old(rows), batch, now)
    {
      var copies := rows;
      var i := 0;
      while i < |batch|
        invariant 0 <= i <= |batch|
        invariant Valid() && rows.Keys == copies.Keys
        invariant rows == RevealedEach(open, copies, copies, batch[..i], now)
        invariant announced == old(announced) + AnnouncedEach(open, copies, batch[..i], now)
      {
        RevealedOneMore(open, copies, batch, i, now);
        Reveal(batch[i], copies[batch[i]], now);
        i := i + 1;
      }
      assert batch[..|batch|] == batch;
    }
  }

  /** The table after a pass over `batch`, opened from the copies in `copies`. */
  function RevealedEach(open: Decryptor, copies: Table, t: Table, batch: seq<string>, now: int): (r: Table)
    requires forall u :: u in batch ==> u in copies
    ensures r.Keys == t.Keys
  {
    if batch == [] then t
    else
      var n := |batch| - 1;
      RevealOne(open, RevealedEach(open, copies, t, batch[..n], now), batch[n], copies[batch[n]], now).0
  }

  lemma RevealOneSettles(open: Decryptor, t: Table, uri: string, copy: Note, now: int)
    requires uri in t
    ensures var r := RevealOne(open, t, uri, copy, now).0;
      && r.Keys == t.Keys && SameSecret(t[uri], r[uri]) && Settled(r[uri])
      && forall u :: u in t && u != uri ==> r[u] == t[u]
  {
  }

  /** A pass settles every row it was given and touches no other. */
  lemma {:induction false} PassSettlesRow(open: Decryptor, t: Table, batch: seq<string>, now: int, u: string)
    requires (forall b :: b in batch ==> b in t) && u in t
    ensures var n := RevealedEach(open, t, t, batch, now)[u];
      SameSecret(t[u], n) && (u in batch ==> Settled(n)) && (u !in batch ==> n == t[u])
  {
    if batch != [] {
      var k := |batch| - 1;
      PassSettlesRow(open, t, batch[..k], now, u);
      RevealOneSettles(open, RevealedEach(open, t, t, batch[..k], now), batch[k], t[batch[k]], now);
      assert u in batch <==> u in batch[..k] || u == batch[k] by {
        assert batch == batch[..k] + [batch[k]];
      }
    }
  }

  lemma PassSettles(open: Decryptor, t: Table, batch: seq<string>, now: int)
    requires forall b :: b in batch ==> b in t
    ensures var r := RevealedEach(open, t, t, batch, now);
      forall u :: u in t ==> SameSecret(t[u], r[u]) && (u in batch ==> Settled(r[u])) && (u !in batch ==> r[u] == t[u])
  {
    forall u | u in t
      ensures var n := RevealedEach(open, t, t, batch, now)[u];
        SameSecret(t[u], n) && (u in batch ==> Settled(n)) && (u !in batch ==> n == t[u])
    {
      PassSettlesRow(open, t, batch, now, u);
    }
  }

  predicate SameSecret(a: Note, b: Note) {
    a.gameUri == b.gameUri && a.contentKey == b.contentKey && (Settled(a) ==> Settled(b))
  }

  /** The events of a pass over `batch`, in order. */
  function AnnouncedEach(open: Decryptor, copies: Table, batch: seq<string>, now: int): seq<Revealed>
    requires forall u :: u in batch ==> u in copies
  {
    if batch == [] then []
    else
      var n := |batch| - 1;
      var event := RevealOne(open, RevealedEach(open, copies, copies, batch[..n], now), batch[n], copies[batch[n]], now).1;
      AnnouncedEach(open, copies, batch[..n], now) + if event.Some? then [event.value] else []
  }

  /** The rows the game-end query lists. */
  function Hidden(t: Table, uris: seq<string>, gameUri: string): (hidden: seq<string>)
    requires forall u :: u in uris ==> u in t
    ensures forall u :: u in hidden <==> u in uris && IsEscrowed(t[u], gameUri)
  {
    if uris == [] then []
    else
      var init, last := uris[..|uris| - 1], uris[|uris| - 1];
      assert uris == init + [last];
      Hidden(t, init, gameUri) + if IsEscrowed(t[last], gameUri) then [last] else []
  }

  lemma RevealedOneMore(open: Decryptor, copies: Table, batch: seq<string>, i: nat, now: int)
    requires i < |batch| && forall u :: u in batch ==> u in copies
    ensures RevealedEach(open, copies, copies, batch[..i + 1], now) ==
            RevealOne(open, RevealedEach(open, copies, copies, batch[..i], now), batch[i], copies[batch[i]], now).0
    ensures var event := RevealOne(open, RevealedEach(open, copies, copies, batch[..i], now), batch[i], copies[batch[i]], now).1;
      AnnouncedEach(open, copies, batch[..i + 1], now) ==
      AnnouncedEach(open, copies, batch[..i], now) + if event.Some? then [event.value] else []
  {
    assert batch[..i + 1][..i] == batch[..i];
  }

  /** The keys the group's rows publish, in row order. */
  ghost function PublishedKeys(t: Table, uris: seq<string>, g: Group): seq<Bytes>
    requires forall u :: u in uris ==> u in t
  {
    if uris == [] then []
    else
      var n, rest := t[uris[|uris| - 1]], PublishedKeys(t, uris[..|uris| - 1], g);
      if InGroup(n, g) && PublishedBy(n).Some? then rest + [PublishedBy(n).value] else rest
  }

  /** The keys the group's rows hold in escrow, in row order. */
  ghost function EscrowedKeys(t: Table, uris: seq<string>, g: Group): seq<Bytes>
    requires forall u :: u in uris ==> u in t
  {
    if uris == [] then []
    else
      var n, rest := t[uris[|uris| - 1]], EscrowedKeys(t, uris[..|uris| - 1], g);
      if InGroup(n, g) && EscrowedBy(n).Some? then rest + [EscrowedBy(n).value] else rest
  }

  lemma {:induction false} PublishedKeyFrom(t: Table, uris: seq<string>, g: Group, k: Bytes)
    requires forall u :: u in uris ==> u in t
    ensures k in PublishedKeys(t, uris, g) <==> exists u :: u in uris && InGroup(t[u], g) && PublishedBy(t[u]) == Some(k)
  {
    if uris != [] {
      var u, rest := uris[|uris| - 1], uris[..|uris| - 1];
      assert uris == rest + [u];
      PublishedKeyFrom(t, rest, g, k);
    }
  }

  lemma {:induction false} EscrowedKeyFrom(t: Table, uris: seq<string>, g: Group, k: Bytes)
    requires forall u :: u in uris ==> u in t
    ensures k in EscrowedKeys(t, uris, g) <==> exists u :: u in uris && InGroup(t[u], g) && EscrowedBy(t[u]) == Some(k)
  {
    if uris != [] {
      var u, rest := uris[|uris| - 1], uris[..|uris| - 1];
      assert uris == rest + [u];
      EscrowedKeyFrom(t, rest, g, k);
    }
  }

  lemma PublishedKeysExist(t: Table, uris: seq<string>, g: Group)
    requires forall u :: u in uris <==> u in t
    ensures HasPublished(t, g) <==> PublishedKeys(t, uris, g) != []
  {
    var keys := PublishedKeys(t, uris, g);
    if u :| u in t && InGroup(t[u], g) && PublishedBy(t[u]).Some? {
      PublishedKeyFrom(t, uris, g, PublishedBy(t[u]).value);
    }
    if keys != [] { PublishedKeyFrom(t, uris, g, keys[0]); }
  }

  lemma EscrowedKeysExist(t: Table, uris: seq<string>, g: Group)
    requires forall u :: u in uris <==> u in t
    ensures HasEscrowed(t, g) <==> EscrowedKeys(t, uris, g) != []
  {
    var keys := EscrowedKeys(t, uris, g);
    if u :| u in t && InGroup(t[u], g) && EscrowedBy(t[u]).Some? {
      EscrowedKeyFrom(t, uris, g, EscrowedBy(t[u]).value);
    }
    if keys != [] { EscrowedKeyFrom(t, uris, g, keys[0]); }
  }

  /** Comparing the two lists pair by pair decides whether the group is matched. */
  lemma KeysDecideMatch(t: Table, uris: seq<string>, g: Group)
    requires forall u :: u in uris <==> u in t
    ensures Matched(t, g) <==> Meet(PublishedKeys(t, uris, g), EscrowedKeys(t, uris, g))
  {
    var ps, es := PublishedKeys(t, uris, g), EscrowedKeys(t, uris, g);
    if u, v :| u in t && v in t && InGroup(t[u], g) && InGroup(t[v], g) &&
               PublishedBy(t[u]).Some? && PublishedBy(t[u]) == EscrowedBy(t[v]) {
      PublishedKeyFrom(t, uris, g, PublishedBy(t[u]).value);
      EscrowedKeyFrom(t, uris, g, PublishedBy(t[u]).value);
    }
    if a :| 0 <= a < |ps| && ps[a] in es {
      PublishedKeyFrom(t, uris, g, ps[a]);
      EscrowedKeyFrom(t, uris, g, ps[a]);
    }
  }

  predicate Meet(published: seq<Bytes>, escrowed: seq<Bytes>) {
    exists a :: 0 <= a < |published| && published[a] in escrowed
  }

  lemma MeetOneMore(published: seq<Bytes>, i: nat, escrowed: seq<Bytes>)
    requires i < |published|
    ensures Meet(published[..i + 1], escrowed) <==> Meet(published[..i], escrowed) || published[i] in escrowed
  {
  }
}
