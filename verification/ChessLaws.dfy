/** The chess move codec: decoding undoes encoding, and encoding undoes decoding exactly on
    canonical bytes. */
module ChessLaws {
  import opened Wrappers
  import opened Lex
  import opened Cbor
  import opened Codec
  import opened CborMaps
  import opened Records
  import opened Weaving
  import opened Decoding
  import opened ChessMoves

  // ---- slots -------------------------------------------------------------

  lemma SlotsInOrder(m: Move)
    ensures SlotsAscending(Slots(m), None) && Keys(Slots(m)) == KNOWN
  {
    var s := Slots(m);
    assert s[1..][1..] == s[2..] && s[2..][1..] == s[3..] && s[3..][1..] == s[4..] && s[4..][1..] == [];
    assert SlotsAscending(s[4..], Some(TYPE));
    assert SlotsAscending(s[3..], Some(FROM));
    assert SlotsAscending(s[2..], Some(SAN));
    assert SlotsAscending(s[1..], Some(TO));
    forall k: Bytes ensures k in Keys(s) <==> k in KNOWN {
      assert s[0] in s && s[1] in s && s[2] in s && s[3] in s && s[4] in s;
    }
  }

  // ---- what decoding gathers ---------------------------------------------

  function OptionalField(was: Option<Short>, found: Option<Bytes>): Option<Option<Short>> {
    if found == None || found.value == NULL then Some(was)
    else match TextOf(found.value) case None => None case Some(x) => Some(Some(x))
  }

  /** Each known field from the entry under its key, if there is one; the other entries kept as
      extras, in order. */
  function Gathered(m: Move, es: seq<Entry>): Option<Move> {
    var typeId := TextField(m.typeId, Lookup(es, TYPE));
    var from := TextField(m.from, Lookup(es, FROM));
    var promotion := OptionalField(m.promotion, Lookup(es, PROMOTION));
    var san := OptionalField(m.san, Lookup(es, SAN));
    var to := TextField(m.to, Lookup(es, TO));
    if typeId == None || from == None || promotion == None || san == None || to == None then None
    else Some(Move(typeId.value, from.value, promotion.value, san.value, to.value, m.extra + AsExtras(Unknown(es, KNOWN))))
  }

  lemma GatherText(m: Move, e: Entry, es: seq<Entry>)
    requires Ascending(es, Some(e.key)) && e.key in {TO, FROM, TYPE}
    ensures Gathered(m, [e] + es) == match Take(m, e) case None => None case Some(next) => Gathered(next, es)
  {
    FirstLookups(e, es, KNOWN);
  }

  lemma GatherOptional(m: Move, e: Entry, es: seq<Entry>)
    requires Ascending(es, Some(e.key)) && e.key in {SAN, PROMOTION}
    ensures Gathered(m, [e] + es) == match Take(m, e) case None => None case Some(next) => Gathered(next, es)
  {
    FirstLookups(e, es, KNOWN);
  }

  lemma GatherUnknown(m: Move, e: Entry, es: seq<Entry>)
    requires Ascending(es, Some(e.key)) && e.key !in KNOWN
    ensures Gathered(m, [e] + es) == match Take(m, e) case None => None case Some(next) => Gathered(next, es)
  {
    FirstLookups(e, es, KNOWN);
    AsExtrasFirst(m.extra, e, Unknown(es, KNOWN));
  }

  lemma GatherOne(m: Move, e: Entry, es: seq<Entry>)
    requires Ascending(es, Some(e.key))
    ensures Gathered(m, [e] + es) == match Take(m, e) case None => None case Some(next) => Gathered(next, es)
  {
    if e.key in {TO, FROM, TYPE} {
      GatherText(m, e, es);
    } else if e.key in {SAN, PROMOTION} {
      GatherOptional(m, e, es);
    } else {
      GatherUnknown(m, e, es);
    }
  }

  /** Taking the entries one by one gathers them. */
  lemma TakeGathers()
    ensures Gathers(Take, Gathered)
  {
    forall m: Move ensures Gathered(m, []) == Some(m) {
      assert m.extra + [] == m.extra;
    }
    forall m: Move, e: Entry, es: seq<Entry> | Ascending(es, Some(e.key))
      ensures Gathered(m, [e] + es) == match Take(m, e) case None => None case Some(next) => Gathered(next, es)
    {
      GatherOne(m, e, es);
    }
  }

  // ---- decoding what was encoded -----------------------------------------

  /** Binary extras as decoding leaves them: sorted, well-formed and not under a known key.
      Only such a record has one place for every extra. */
  ghost predicate Encodable(skip: Skipper, m: Move) {
    var es := Of(m.extra, Binary);
    Ascending(es, None) && AllStorable(skip, es) && NoneKnown(es, KNOWN) && |Entries(m)| < LIMIT
  }

  lemma SlotsAreText(skip: Skipper, m: Move)
    requires Lawful(skip)
    ensures SlotsStorable(skip, Slots(m))
  {
    TextIsValue(skip, m.to);
    TextIsValue(skip, m.from);
    TextIsValue(skip, m.typeId);
    if m.san.Some? { TextIsValue(skip, m.san.value); }
    if m.promotion.Some? { TextIsValue(skip, m.promotion.value); }
  }

  /** The record that results when m, encoded, is decoded into `into`: m, except that optional
      fields m leaves out keep the values they had, and extras of the other encoding are those
      of `into`. */
  function Overlay(into: Move, m: Move): Move {
    Move(if m.typeId == [] then into.typeId else m.typeId,
         m.from,
         if m.promotion == None then into.promotion else m.promotion,
         if m.san == None then into.san else m.san,
         m.to,
         Without(into.extra, Binary) + AsExtras(Of(m.extra, Binary)))
  }

  lemma OptionalFieldBack(was: Option<Short>, x: Short)
    ensures OptionalField(was, Some(EncodeText(x))) == Some(Some(x))
  {
    TextOfEncode(x);
    NullIsNoText();
  }

  lemma NullIsNoText()
    ensures TextOf(NULL) == None
  {
  }

  /** The entries hold m's fields, each under its key. */
  predicate Holds(es: seq<Entry>, m: Move) {
    && Lookup(es, TO) == Some(EncodeText(m.to)) && Lookup(es, SAN) == Optional(m.san)
    && Lookup(es, FROM) == Some(EncodeText(m.from))
    && Lookup(es, TYPE) == TypeName(m.typeId)
    && Lookup(es, PROMOTION) == Optional(m.promotion)
  }

  lemma EntriesHold(skip: Skipper, m: Move)
    requires Encodable(skip, m)
    ensures Holds(Entries(m), m)
  {
    SlotsInOrder(m);
    Woven(Of(m.extra, Binary), Slots(m));
    var s := Slots(m);
    assert s[0] in s && s[1] in s && s[2] in s && s[3] in s && s[4] in s;
  }

  lemma GatherHeld(into: Move, m: Move, es: seq<Entry>)
    requires Holds(es, m) && Unknown(es, KNOWN) == Of(m.extra, Binary)
    ensures Gathered(Cleared(into), es) == Some(Overlay(into, m))
  {
    TextFieldBack([], m.to);
    TextFieldBack([], m.from);
    TextFieldBack([], m.typeId);
    if m.san.Some? { OptionalFieldBack(into.san, m.san.value); }
    if m.promotion.Some? { OptionalFieldBack(into.promotion, m.promotion.value); }
  }

  lemma OverlayOnFresh(m: Move)
    ensures Overlay(FRESH, m) == m.(extra := AsExtras(Of(m.extra, Binary)))
  {
  }

  /** Decoding an encoded move gives back all its fields and its sorted binary extras, whatever
      bytes follow. */
  lemma EncodedMoveDecodes(skip: Skipper, m: Move, into: Move, t: Bytes)
    requires Lawful(skip) && Encodable(skip, m)
    ensures Decode(EntryReader(skip), Take, Cleared(into), Encode(m) + t) == Some(Parsed(Overlay(into, m), |Encode(m)|))
    ensures Ascending(Entries(m), None)
    ensures into == FRESH ==> Overlay(into, m) == m.(extra := AsExtras(Of(m.extra, Binary)))
  {
    var es := Entries(m);
    SlotsInOrder(m);
    SlotsAreText(skip, m);
    WeaveStorable(skip, Of(m.extra, Binary), Slots(m));
    Woven(Of(m.extra, Binary), Slots(m));
    EntriesHold(skip, m);
    MapRoundTrip(skip, es, t);
    TakeGathers();
    TakingGathers(Take, Gathered, Cleared(into), es, None);
    GatherHeld(into, m, es);
    OverlayOnFresh(m);
    DecodeTakesMap(EntryReader(skip), Take, Cleared(into), Encode(m) + t);
  }

  // ---- encoding what was decoded -----------------------------------------

  /** Required keys present, no nulls, and no empty type name. */
  predicate CanonicalMap(es: seq<Entry>) {
    && Lookup(es, TO).Some? && Lookup(es, FROM).Some?
    && Lookup(es, SAN) != Some(NULL) && Lookup(es, PROMOTION) != Some(NULL)
    && Lookup(es, TYPE) != Some(EncodeText([]))
  }

  lemma OptionalFieldWas(found: Option<Bytes>)
    requires OptionalField(None, found).Some?
    ensures found != Some(NULL) <==> found == Optional(OptionalField(None, found).value)
  {
    if found.Some? && found.value != NULL { TextOfIsCanonical(found.value); }
  }

  /** Every slot still holds what the map held exactly if the map is canonical. */
  lemma SlotsAsFound(es: seq<Entry>, m: Move)
    requires Gathered(FRESH, es) == Some(m)
    ensures (forall s :: s in Slots(m) ==> Lookup(es, s.key) == s.value) <==> CanonicalMap(es)
  {
    var s := Slots(m);
    assert s[0] in s && s[1] in s && s[2] in s && s[3] in s && s[4] in s;
    TextFieldWas([], Lookup(es, TO));
    TextFieldWas([], Lookup(es, FROM));
    TypeNameWas(Lookup(es, TYPE));
    OptionalFieldWas(Lookup(es, SAN));
    OptionalFieldWas(Lookup(es, PROMOTION));
  }

  /** Encoding a decoded move gives the same bytes exactly if they were canonical. */
  lemma DecodedMoveReencodes(skip: Skipper, s: Bytes, m: Move, size: nat)
    requires Lawful(skip) && Decode(EntryReader(skip), Take, FRESH, s) == Some(Parsed(m, size))
    requires |Entries(m)| < LIMIT
    ensures size <= |s| && ReadMap(EntryReader(skip), s).Some?
    ensures Encode(m) == s[..size] <==> CanonicalMap(ReadMap(EntryReader(skip), s).value.value)
    ensures Encodable(skip, m)
  {
    DecodeTakesMap(EntryReader(skip), Take, FRESH, s);
    MapIsCanonical(skip, s);
    var es := ReadMap(EntryReader(skip), s).value.value;
    TakeGathers();
    TakingGathers(Take, Gathered, FRESH, es, None);
    DecodedExtras(skip, [], es, KNOWN);
    SlotsInOrder(m);
    SlotsAreText(skip, m);
    EncodedAgain(skip, es, Slots(m));
    SlotsAsFound(es, m);
  }
}
