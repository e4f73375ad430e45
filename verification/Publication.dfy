/** Key publication: whether the marks on a group's rows say what the group holds, over every
    run of the index, in whatever order the records came in. */
module Publication {
  import opened Wrappers
  import Base64
  import opened Commentary
  import opened RevealRuns

  /** A key identifier that detection looks at. */
  predicate Named(n: Note) {
    n.keyId.Some? && n.keyId.value != ""
  }

  /** The row is marked published exactly if its group is matched. */
  ghost predicate MarkOk(t: Table, u: string)
    requires u in t
  {
    t[u].agentPublished <==> Named(t[u]) && Matched(t, GroupOf(t[u]))
  }

  /** A group with keys of both kinds and no match is marked as such throughout, and no group
      without both kinds is. */
  ghost predicate MismatchOk(t: Table, u: string)
    requires u in t
  {
    var both := Named(t[u]) && HasPublished(t, GroupOf(t[u])) && HasEscrowed(t, GroupOf(t[u]));
    (both && !Matched(t, GroupOf(t[u])) ==> t[u].keyMismatch) && (t[u].keyMismatch ==> both)
  }

  ghost predicate Marked(t: Table) {
    forall u :: u in t ==> MarkOk(t, u) && MismatchOk(t, u)
  }

  // ---- what the keys of a group depend on --------------------------------

  /** What detection reads of a row. */
  ghost predicate SameKeys(a: Note, b: Note) {
    && a.gameUri == b.gameUri && a.player == b.player && a.keyId == b.keyId
    && PublishedBy(a) == PublishedBy(b) && EscrowedBy(a) == EscrowedBy(b)
  }

  /** `t` has the rows of `s`, with the keys they had, and perhaps more of them. */
  ghost predicate Includes(t: Table, s: Table) {
    forall u :: u in s ==> u in t && SameKeys(s[u], t[u])
  }

  lemma MatchedGrows(s: Table, t: Table, g: Group)
    requires Includes(t, s)
    ensures Matched(s, g) ==> Matched(t, g)
    ensures HasPublished(s, g) ==> HasPublished(t, g)
    ensures HasEscrowed(s, g) ==> HasEscrowed(t, g)
  {
  }

  lemma MatchedNeedsBoth(t: Table, g: Group)
    requires Matched(t, g)
    ensures HasPublished(t, g) && HasEscrowed(t, g)
  {
  }

  lemma MatchedFrame(s: Table, t: Table, g: Group)
    requires Includes(t, s) && t.Keys == s.Keys
    ensures Matched(s, g) <==> Matched(t, g)
    ensures HasPublished(s, g) <==> HasPublished(t, g)
    ensures HasEscrowed(s, g) <==> HasEscrowed(t, g)
  {
    MatchedGrows(s, t, g);
    MatchedGrows(t, s, g);
  }

  /** A row outside a group does not count for it. */
  lemma MatchedOfOthers(t: Table, uri: string, n: Note, g: Group)
    requires uri !in t && !InGroup(n, g)
    ensures Matched(t[uri := n], g) <==> Matched(t, g)
    ensures HasPublished(t[uri := n], g) <==> HasPublished(t, g)
    ensures HasEscrowed(t[uri := n], g) <==> HasEscrowed(t, g)
  {
    MatchedGrows(t, t[uri := n], g);
  }

  // ---- one ingest --------------------------------------------------------

  lemma MarksKeepKeys(t: Table, g: Group, published: bool, mismatch: bool)
    ensures var r := MarkPublication(t, g, published, mismatch); r.Keys == t.Keys && Includes(r, t)
  {
  }

  /** Rows outside the new row's group. */
  lemma IngestElsewhere(t: Table, uri: string, n: Note, u: string)
    requires uri !in t && u in t && MarkOk(t, u) && MismatchOk(t, u) && !InGroup(t[u], GroupOf(n))
    ensures var r := Detected(t[uri := n], GroupOf(n)); u in r && MarkOk(r, u) && MismatchOk(r, u)
  {
    var g, t1 := GroupOf(n), t[uri := n];
    var r := Detected(t1, g);
    MarksKeepKeys(t1, g, Matched(t1, g), !Matched(t1, g));
    assert r[u] == t[u];
    if Named(t[u]) {
      MatchedOfOthers(t, uri, n, GroupOf(t[u]));
      MatchedFrame(t1, r, GroupOf(t[u]));
    }
  }

  /** What detection writes into a row of its group. */
  lemma DetectionWrites(t: Table, g: Group, u: string)
    requires u in t && InGroup(t[u], g) && g.keyId != ""
    ensures var r := Detected(t, g);
      var both := HasPublished(t, g) && HasEscrowed(t, g);
      && u in r && r[u].keyId == t[u].keyId && GroupOf(r[u]) == GroupOf(t[u]) == g
      && (r[u].agentPublished <==> t[u].agentPublished || (both && Matched(t, g)))
      && (r[u].keyMismatch <==> t[u].keyMismatch || (both && !Matched(t, g)))
  {
  }

  lemma DetectionKeepsKeys(t: Table, g: Group)
    ensures var r := Detected(t, g);
      (Matched(t, g) <==> Matched(r, g)) && (HasPublished(t, g) <==> HasPublished(r, g)) && (HasEscrowed(t, g) <==> HasEscrowed(r, g))
  {
    MarksKeepKeys(t, g, Matched(t, g), !Matched(t, g));
    MatchedFrame(t, Detected(t, g), g);
  }

  /** Rows of the new row's group, the new one among them. */
  lemma IngestInGroup(t: Table, uri: string, n: Note, u: string)
    requires uri !in t && !n.agentPublished && !n.keyMismatch
    requires u == uri || (u in t && MarkOk(t, u) && MismatchOk(t, u) && InGroup(t[u], GroupOf(n)))
    ensures var r := Detected(t[uri := n], GroupOf(n)); u in r && MarkOk(r, u) && MismatchOk(r, u)
  {
    var g, t1 := GroupOf(n), t[uri := n];
    if g.keyId != "" {
      DetectionWrites(t1, g, u);
      DetectionKeepsKeys(t1, g);
      MatchedGrows(t, t1, g);
      if Matched(t1, g) { MatchedNeedsBoth(t1, g); }
    }
  }

  lemma IngestKeepsMarks(t: Table, uri: string, r: Record, delay: Delay, now: int)
    requires Marked(t) && ValidFields(r)
    ensures Marked(Ingested(t, uri, r, delay, now))
  {
    if uri !in t {
      var n := NoteOf(r, delay, now);
      var after := Ingested(t, uri, r, delay, now);
      IngestAdds(t, uri, r, delay, now);
      forall u | u in after ensures MarkOk(after, u) && MismatchOk(after, u) {
        if u == uri || InGroup(t[u], GroupOf(n)) {
          IngestInGroup(t, uri, n, u);
        } else {
          IngestElsewhere(t, uri, n, u);
        }
      }
    }
  }

  /** A row that brings no content key. */
  lemma KeylessArrival(t: Table, uri: string, n: Note)
    requires uri !in t && n.contentKey == None
    ensures var g, after := GroupOf(n), t[uri := n];
      && (HasEscrowed(after, g) <==> HasEscrowed(t, g))
      && (HasPublished(after, g) <==> HasPublished(t, g) || (n.keyId.Some? && PublishedBy(n).Some?))
  {
    var g, after := GroupOf(n), t[uri := n];
    MatchedGrows(t, after, g);
    assert n.keyId.Some? ==> InGroup(after[uri], g);
  }

  /** A record that fails field validation is stored without detection.  The table stays rightly
      marked exactly if the record's group does not then hold keys of both kinds. */
  lemma InvalidKeepsMarksIffOneKind(t: Table, uri: string, r: Record, delay: Delay, now: int)
    requires Marked(t) && uri !in t && !ValidFields(r)
    ensures var n := NoteOf(r, delay, now); var g := GroupOf(n);
      Marked(Ingested(t, uri, r, delay, now)) <==>
      !(Named(n) && HasEscrowed(t, g) && (HasPublished(t, g) || PublishedBy(n).Some?))
  {
    var n := NoteOf(r, delay, now);
    var g, after := GroupOf(n), t[uri := n];
    KeylessArrival(t, uri, n);
    MatchedGrows(t, after, g);
    if Named(n) && HasEscrowed(after, g) && HasPublished(after, g) {
      assert !MarkOk(after, uri) || !MismatchOk(after, uri);
    } else {
      if Matched(after, g) { MatchedNeedsBoth(after, g); }
      forall u | u in after ensures MarkOk(after, u) && MismatchOk(after, u) {
        if u != uri {
          assert MarkOk(t, u) && MismatchOk(t, u);
          if Named(t[u]) && !InGroup(n, GroupOf(t[u])) { MatchedOfOthers(t, uri, n, GroupOf(t[u])); }
        }
      }
    }
  }

  /** A sealed note whose key was escrowed, and a public record that publishes a key but carries
      a ciphertext, which makes it invalid. */
  function SealedNote(key: Bytes): Record {
    Record("game", 1, "player", Sealed, None, [0], [], Some("id"), Unwrapped(key))
  }

  function InvalidKey(e: Base64.Encoding, key: Bytes): Record {
    Record("game", 1, "player", Public, Some(Base64.Encode(e, key)), [0], [], Some("id"), NoWrap)
  }

  /** Whether or not the published key is the escrowed one, its group goes without its mark. */
  lemma InvalidKeyGoesUnmarked(e: Base64.Encoding, escrowed: Bytes, published: Bytes, now: int)
    requires |escrowed| == |published| == KEY_SIZE
    ensures var t := Ingested(map[], "note", SealedNote(escrowed), Delay(0, 0), now);
      var after := Ingested(t, "key", InvalidKey(e, published), Delay(0, 0), now);
      var g := Group("game", "player", "id");
      && Marked(t) && !Marked(after) && "key" in after && !after["key"].agentPublished && !after["key"].keyMismatch
      && HasPublished(after, g) && HasEscrowed(after, g) && (Matched(after, g) <==> escrowed == published)
  {
    var first, second := SealedNote(escrowed), InvalidKey(e, published);
    var t := Ingested(map[], "note", first, Delay(0, 0), now);
    IngestKeepsMarks(map[], "note", first, Delay(0, 0), now);
    IngestAdds(map[], "note", first, Delay(0, 0), now);
    assert "note"[0] != "key"[0];
    Base64.PublishedKeyRecovered(e, published);
    InvalidKeepsMarksIffOneKind(t, "key", second, Delay(0, 0), now);
    var after, g := Ingested(t, "key", second, Delay(0, 0), now), Group("game", "player", "id");
    assert after.Keys == {"note", "key"};
    assert InGroup(t["note"], g) && EscrowedBy(t["note"]) == Some(escrowed) && PublishedBy(t["note"]) == None;
    assert InGroup(after["note"], g) && EscrowedBy(after["note"]) == Some(escrowed);
    assert InGroup(after["key"], g) && PublishedBy(after["key"]) == Some(published);
  }

  // ---- every run ---------------------------------------------------------

  /** The records that arrived, by address: the first one counts. */
  ghost function RecordsOf(es: seq<Event>): map<string, Record> {
    if es == [] then map[]
    else
      var m, e := RecordsOf(es[..|es| - 1]), es[|es| - 1];
      if e.Arrive? && e.uri !in m then m[e.uri := e.record] else m
  }

  ghost predicate AllValid(es: seq<Event>) {
    forall e :: e in es && e.Arrive? ==> ValidFields(e.record)
  }

  /** The rows of those records, without their schedule and without marks. */
  ghost function Ideal(m: map<string, Record>): Table {
    map u | u in m :: NoteOf(m[u], Delay(0, 0), 0)
  }

  /** The table holds the records of `m`, rightly marked. */
  ghost predicate Tracks(t: Table, m: map<string, Record>) {
    Marked(t) && t.Keys == m.Keys && Includes(t, Ideal(m))
  }

  /** What a write of a reveal or of ingest elsewhere leaves alone. */
  ghost predicate SameMarks(a: Note, b: Note) {
    SameKeys(a, b) && a.agentPublished == b.agentPublished && a.keyMismatch == b.keyMismatch
  }

  lemma MarkedFrame(s: Table, t: Table)
    requires Marked(s) && s.Keys == t.Keys && forall u :: u in s ==> SameMarks(s[u], t[u])
    ensures Marked(t)
  {
    forall u | u in t ensures MarkOk(t, u) && MismatchOk(t, u) {
      assert SameMarks(s[u], t[u]) && MarkOk(s, u) && MismatchOk(s, u);
      MatchedFrame(s, t, GroupOf(s[u]));
    }
  }

  /** Revealing a hidden note changes no key: only a public text can publish one. */
  lemma RevealKeepsMarks(open: Decryptor, t: Table, uri: string, copy: Note, stamp: int)
    requires uri in t && t[uri].visibility != Public
    ensures var r := RevealOne(open, t, uri, copy, stamp).0;
      r.Keys == t.Keys && forall u :: u in t ==> SameMarks(t[u], r[u])
  {
  }

  lemma ContinueKeepsMarks(open: Decryptor, s: State, p: nat)
    requires Inv(open, s) && Allowed(s, Continue(p))
    ensures var t := Continued(open, s, p); t.table.Keys == s.table.Keys && forall u :: u in s.table ==> SameMarks(s.table[u], t.table[u])
  {
    var pass := s.passes[p];
    CopyInHand(s, p);
    RevealKeepsMarks(open, s.table, pass.todo[0], pass.copies[pass.todo[0]], pass.stamp);
  }

  lemma IncludesTransitive(a: Table, b: Table, c: Table)
    requires Includes(b, a) && Includes(c, b)
    ensures Includes(c, a)
  {
  }

  lemma SameRecordSameKeys(r: Record, delay: Delay, now: int)
    ensures SameKeys(NoteOf(r, Delay(0, 0), 0), NoteOf(r, delay, now))
  {
  }

  lemma MarksApartSameKeys(a: Note, b: Note)
    requires MarksApart(a, b)
    ensures SameKeys(a, b)
  {
  }

  lemma IngestIncludesRow(t: Table, ideal: Note, uri: string, r: Record, delay: Delay, now: int, u: string)
    requires uri !in t && u in t && SameKeys(ideal, t[u])
    ensures u in Ingested(t, uri, r, delay, now) && SameKeys(ideal, Ingested(t, uri, r, delay, now)[u])
  {
  }

  lemma IngestIncludesNew(t: Table, uri: string, r: Record, delay: Delay, now: int)
    requires uri !in t
    ensures var after := Ingested(t, uri, r, delay, now); uri in after && SameKeys(NoteOf(r, Delay(0, 0), 0), after[uri])
  {
    IngestAdds(t, uri, r, delay, now);
    SameRecordSameKeys(r, delay, now);
    MarksApartSameKeys(NoteOf(r, delay, now), Ingested(t, uri, r, delay, now)[uri]);
  }

  lemma IngestIncludes(t: Table, after: Table, m: map<string, Record>, uri: string, r: Record, delay: Delay, now: int)
    requires Includes(t, Ideal(m)) && t.Keys == m.Keys && uri !in t && after == Ingested(t, uri, r, delay, now)
    ensures Includes(after, Ideal(m[uri := r]))
  {
    forall u | u in m[uri := r] ensures u in after && SameKeys(NoteOf(m[uri := r][u], Delay(0, 0), 0), after[u]) {
      if u == uri {
        IngestIncludesNew(t, uri, r, delay, now);
      } else {
        assert SameKeys(Ideal(m)[u], t[u]);
        IngestIncludesRow(t, Ideal(m)[u], uri, r, delay, now, u);
      }
    }
  }

  lemma IngestKeys(t: Table, uri: string, r: Record, delay: Delay, now: int)
    requires uri !in t
    ensures Ingested(t, uri, r, delay, now).Keys == t.Keys + {uri}
  {
  }

  lemma IngestKeepsTrack(t: Table, m: map<string, Record>, uri: string, r: Record, delay: Delay, now: int)
    requires Tracks(t, m) && ValidFields(r) && uri !in t
    ensures Tracks(Ingested(t, uri, r, delay, now), m[uri := r])
  {
    IngestKeepsMarks(t, uri, r, delay, now);
    IngestIncludes(t, Ingested(t, uri, r, delay, now), m, uri, r, delay, now);
    IngestKeys(t, uri, r, delay, now);
  }

  lemma TrackFrame(s: Table, t: Table, m: map<string, Record>)
    requires Tracks(s, m) && s.Keys == t.Keys && forall u :: u in s ==> SameMarks(s[u], t[u])
    ensures Tracks(t, m)
  {
    MarkedFrame(s, t);
    IncludesTransitive(Ideal(m), s, t);
  }

  lemma TableStays(open: Decryptor, s: State, e: Event)
    requires e.Arrive? ==> e.uri in s.table
    requires e.Continue? ==> !Allowed(s, e)
    ensures Next(open, s, e).table == s.table
  {
  }

  lemma ContinueKeepsTrack(open: Decryptor, s: State, m: map<string, Record>, p: nat)
    requires Inv(open, s) && Tracks(s.table, m) && Allowed(s, Continue(p))
    ensures Tracks(Continued(open, s, p).table, m)
  {
    ContinueKeepsMarks(open, s, p);
    TrackFrame(s.table, Continued(open, s, p).table, m);
  }

  lemma NextKeepsTrack(open: Decryptor, s: State, m: map<string, Record>, e: Event)
    requires Inv(open, s) && Tracks(s.table, m) && (e.Arrive? ==> ValidFields(e.record))
    ensures Tracks(Next(open, s, e).table, if e.Arrive? && e.uri !in m then m[e.uri := e.record] else m)
  {
    if e.Arrive? && e.uri !in s.table {
      IngestKeepsTrack(s.table, m, e.uri, e.record, e.delay, s.now);
    } else if e.Continue? && Allowed(s, e) {
      ContinueKeepsTrack(open, s, m, e.pass);
    } else {
      TableStays(open, s, e);
    }
  }

  /** In every run over valid records: a row is marked published exactly if some published key
      of its group equals some escrowed one, after each event and whatever is revealed between
      them; and a group with keys of both kinds and no match is marked throughout. */
  lemma {:induction false} MarksFollowKeys(open: Decryptor, now: int, es: seq<Event>)
    requires AllValid(es)
    ensures Marked(Run(open, Start(now), es).table) && Tracks(Run(open, Start(now), es).table, RecordsOf(es))
    decreases |es|
  {
    if es != [] {
      var init := es[..|es| - 1];
      MarksFollowKeys(open, now, init);
      RunsKeepInv(open, now, init);
      NextKeepsTrack(open, Run(open, Start(now), init), RecordsOf(init), es[|es| - 1]);
    }
  }

  lemma IdealFrame(t: Table, m: map<string, Record>, u: string)
    requires Tracks(t, m) && u in m
    ensures var n := NoteOf(m[u], Delay(0, 0), 0);
      SameKeys(n, t[u]) && (Matched(Ideal(m), GroupOf(n)) <==> Matched(t, GroupOf(n)))
  {
    assert u in Ideal(m) && SameKeys(Ideal(m)[u], t[u]);
    assert Ideal(m).Keys == t.Keys;
    MatchedFrame(Ideal(m), t, GroupOf(Ideal(m)[u]));
  }

  /** The published mark of a row is a function of the records that arrived. */
  lemma MarkFromRecords(open: Decryptor, now: int, es: seq<Event>, u: string)
    requires AllValid(es)
    ensures var t, m := Run(open, Start(now), es).table, RecordsOf(es);
      && (u in t <==> u in m)
      && (u in m ==> var n := NoteOf(m[u], Delay(0, 0), 0);
                     t[u].agentPublished <==> Named(n) && Matched(Ideal(m), GroupOf(n)))
  {
    var t, m := Run(open, Start(now), es).table, RecordsOf(es);
    MarksFollowKeys(open, now, es);
    if u in m {
      IdealFrame(t, m, u);
      assert MarkOk(t, u);
    }
  }

  /** The same records give the same published marks: neither the order of arrival nor replays
      nor the delays, the clock or the reveals in between matter. */
  lemma OrderDoesNotMatter(open: Decryptor, now: int, es: seq<Event>, open': Decryptor, now': int, fs: seq<Event>, u: string)
    requires AllValid(es) && AllValid(fs) && OneEach(es) && Arrivals(es) == Arrivals(fs)
    requires u in Run(open, Start(now), es).table
    ensures var s, t := Run(open, Start(now), es), Run(open', Start(now'), fs);
      u in t.table && s.table[u].agentPublished == t.table[u].agentPublished
  {
    SameArrivalsSameRecords(es, fs);
    MarkFromRecords(open, now, es, u);
    MarkFromRecords(open', now', fs, u);
  }

  ghost function Arrivals(es: seq<Event>): set<(string, Record)> {
    set e | e in es && e.Arrive? :: (e.uri, e.record)
  }

  /** An address names one record; it may arrive any number of times. */
  ghost predicate OneEach(es: seq<Event>) {
    forall e, f :: e in es && f in es && e.Arrive? && f.Arrive? && e.uri == f.uri ==> e.record == f.record
  }

  lemma {:induction false} RecordsArrived(es: seq<Event>, u: string)
    ensures u in RecordsOf(es) ==> (u, RecordsOf(es)[u]) in Arrivals(es)
    ensures u !in RecordsOf(es) ==> forall r :: (u, r) !in Arrivals(es)
    decreases |es|
  {
    if es != [] {
      var init, e := es[..|es| - 1], es[|es| - 1];
      assert es == init + [e];
      RecordsArrived(init, u);
      assert Arrivals(es) == Arrivals(init) + if e.Arrive? then {(e.uri, e.record)} else {};
    }
  }

  lemma SameArrivalsSameRecords(es: seq<Event>, fs: seq<Event>)
    requires OneEach(es) && Arrivals(es) == Arrivals(fs)
    ensures RecordsOf(es) == RecordsOf(fs)
  {
    forall u ensures u in RecordsOf(es) <==> u in RecordsOf(fs) {
      RecordsArrived(es, u);
      RecordsArrived(fs, u);
    }
    forall u | u in RecordsOf(es) ensures RecordsOf(es)[u] == RecordsOf(fs)[u] {
      RecordsArrived(es, u);
      RecordsArrived(fs, u);
      var e :| e in es && e.Arrive? && (e.uri, e.record) == (u, RecordsOf(es)[u]);
      var f :| f in es && f.Arrive? && (f.uri, f.record) == (u, RecordsOf(fs)[u]);
    }
  }
}
