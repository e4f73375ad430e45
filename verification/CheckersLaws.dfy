/** The checkers move codec: decoding undoes encoding, and encoding undoes decoding exactly on
    canonical bytes. */
module CheckersLaws {
  import opened Wrappers
  import opened Lex
  import opened Cbor
  import opened Codec
  import opened CborMaps
  import opened Records
  import opened Weaving
  import opened Decoding
  import opened CheckersMoves

  lemma SlotsInOrder(m: Move)
    ensures SlotsAscending(Slots(m), None) && Keys(Slots(m)) == KNOWN
  {
  }

  lemma PathIsValue(skip: Skipper, p: Path)
    requires SkipsPaths(skip)
    ensures skip(EncodePath(p)) == Some(|EncodePath(p)|)
  {
    PathRoundTrip(p, []);
    assert EncodePath(p) + [] == EncodePath(p);
  }

  lemma SlotsAreValues(skip: Skipper, m: Move)
    requires Lawful(skip) && SkipsPaths(skip)
    ensures SlotsStorable(skip, Slots(m))
  {
    PathIsValue(skip, m.path);
    TextIsValue(skip, m.typeId);
  }

  // ---- what decoding gathers ---------------------------------------------

  function PathField(was: Path, found: Option<Bytes>): Option<Path> {
    if found == None then Some(was) else PathOf(found.value)
  }

  /** Each known field from the entry under its key, if there is one; the other entries kept as
      extras, in order. */
  function Gathered(m: Move, es: seq<Entry>): Option<Move> {
    var typeId := TextField(m.typeId, Lookup(es, TYPE));
    var path := PathField(m.path, Lookup(es, PATH));
    if typeId == None || path == None then None
    else Some(Move(typeId.value, path.value, m.extra + AsExtras(Unknown(es, KNOWN))))
  }

  lemma GatherOne(m: Move, e: Entry, es: seq<Entry>)
    requires Ascending(es, Some(e.key))
    ensures Gathered(m, [e] + es) == match Take(m, e) case None => None case Some(next) => Gathered(next, es)
  {
    FirstLookups(e, es, KNOWN);
    AsExtrasFirst(m.extra, e, Unknown(es, KNOWN));
  }

  /** Taking the entries one by one gathers them. */
  lemma TakeGathers()
    ensures Gathers(Take, Gathered)
  {
    forall m: Move ensures Gathered(m, []) == Some(m) {
      assert m.extra + [] == m.extra;
    }
    forall m: Move, e: Entry, es: seq<Entry> | Ascending(es, Some(e.key))
      ensures Gathered(m, [e] + es) == match Take(m, e) case None => None case Some(next) => Gathered(next, es)
    {
      GatherOne(m, e, es);
    }
  }

  // ---- decoding what was encoded -----------------------------------------

  /** Binary extras as decoding leaves them: sorted, well-formed and not under a known key. */
  ghost predicate Encodable(skip: Skipper, m: Move) {
    var es := Of(m.extra, Binary);
    Ascending(es, None) && AllStorable(skip, es) && NoneKnown(es, KNOWN) && |Entries(m)| < LIMIT
  }

  /** What m, encoded, becomes when decoded into `into`. */
  function Overlay(into: Move, m: Move): Move {
    Move(if m.typeId == [] then into.typeId else m.typeId, m.path, Without(into.extra, Binary) + AsExtras(Of(m.extra, Binary)))
  }

  lemma GatherHeld(into: Move, m: Move, es: seq<Entry>)
    requires Lookup(es, PATH) == Some(EncodePath(m.path)) && Lookup(es, TYPE) == TypeName(m.typeId)
    requires Unknown(es, KNOWN) == Of(m.extra, Binary)
    ensures Gathered(Cleared(into), es) == Some(Overlay(into, m))
  {
    TextFieldBack([], m.typeId);
    PathOfEncode(m.path);
  }

  lemma OverlayOnFresh(m: Move)
    ensures Overlay(FRESH, m) == m.(extra := AsExtras(Of(m.extra, Binary)))
  {
  }

  /** Decoding an encoded move gives back its squares, its type and its sorted binary extras,
      whatever bytes follow. */
  lemma EncodedMoveDecodes(skip: Skipper, m: Move, into: Move, t: Bytes)
    requires Lawful(skip) && SkipsPaths(skip) && Encodable(skip, m)
    ensures Decode(EntryReader(skip), Take, Cleared(into), Encode(m) + t) == Some(Parsed(Overlay(into, m), |Encode(m)|))
    ensures Ascending(Entries(m), None)
    ensures into == FRESH ==> Overlay(into, m) == m.(extra := AsExtras(Of(m.extra, Binary)))
  {
    var es, s := Entries(m), Slots(m);
    SlotsInOrder(m);
    SlotsAreValues(skip, m);
    WeaveStorable(skip, Of(m.extra, Binary), s);
    Woven(Of(m.extra, Binary), s);
    assert s[0] in s && s[1] in s;
    MapRoundTrip(skip, es, t);
    TakeGathers();
    TakingGathers(Take, Gathered, Cleared(into), es, None);
    GatherHeld(into, m, es);
    OverlayOnFresh(m);
    DecodeTakesMap(EntryReader(skip), Take, Cleared(into), Encode(m) + t);
  }

  // ---- encoding what was decoded -----------------------------------------

  /** The squares present, and no empty type name. */
  predicate CanonicalMap(es: seq<Entry>) {
    Lookup(es, PATH).Some? && Lookup(es, TYPE) != Some(EncodeText([]))
  }

  lemma SlotsAsFound(es: seq<Entry>, m: Move)
    requires Gathered(FRESH, es) == Some(m)
    ensures (forall s :: s in Slots(m) ==> Lookup(es, s.key) == s.value) <==> CanonicalMap(es)
  {
    var s := Slots(m);
    assert s[0] in s && s[1] in s;
    TypeNameWas(Lookup(es, TYPE));
    if Lookup(es, PATH).Some? { PathOfIsCanonical(Lookup(es, PATH).value); }
  }

  /** Encoding a decoded move gives the same bytes exactly if they were canonical. */
  lemma DecodedMoveReencodes(skip: Skipper, s: Bytes, m: Move, size: nat)
    requires Lawful(skip) && SkipsPaths(skip) && Decode(EntryReader(skip), Take, FRESH, s) == Some(Parsed(m, size))
    requires |Entries(m)| < LIMIT
    ensures size <= |s| && ReadMap(EntryReader(skip), s).Some?
    ensures Encode(m) == s[..size] <==> CanonicalMap(ReadMap(EntryReader(skip), s).value.value)
    ensures Encodable(skip, m)
  {
    DecodeTakesMap(EntryReader(skip), Take, FRESH, s);
    MapIsCanonical(skip, s);
    var es := ReadMap(EntryReader(skip), s).value.value;
    TakeGathers();
    TakingGathers(Take, Gathered, FRESH, es, None);
    DecodedExtras(skip, [], es, KNOWN);
    SlotsInOrder(m);
    SlotsAreValues(skip, m);
    EncodedAgain(skip, es, Slots(m));
    SlotsAsFound(es, m);
  }
}
