/** The chess move record byte by byte: which bytes stand where in what is written, and what is
    read from which bytes, with the keys by name and the heads in numerals. */
module ChessBytes {
  import opened Wrappers
  import opened Lex
  import opened Cbor
  import opened Codec
  import opened CborMaps
  import opened Records
  import opened Decoding
  import opened Weaving
  import opened Wire
  import opened RecordBytes
  import opened ChessMoves
  import ChessLaws

  /** The keys are the names of the fields. */
  lemma KeysAreNames()
    ensures TO == Ascii("to") && SAN == Ascii("san") && FROM == Ascii("from") && TYPE == Ascii("$type") && PROMOTION == Ascii("promotion")
  {
  }

  function Pairs(m: Move): nat {
    2 + (if m.san == None then 0 else 1) + (if m.typeId == [] then 0 else 1) + (if m.promotion == None then 0 else 1)
  }

  /** The members under their names, in the order of the encoding. */
  function ChessMembers(m: Move): seq<Bytes> {
    [Named("to", Text(m.to)), IfAny("san", m.san), Named("from", Text(m.from)), IfNotEmpty("$type", m.typeId), IfAny("promotion", m.promotion)]
  }

  /** What is written of a chess move: a map header that counts the members, and the members,
      with the kept binary extras `e` before, between and after them. */
  lemma ChessMoveOnWire(m: Move) returns (e: seq<seq<Entry>>)
    requires |Entries(m)| < LIMIT
    ensures |e| == 6 && Flat(e) == Of(m.extra, Binary) && Pairs(m) + |Flat(e)| < WIDE
    ensures Encode(m) == Headed(0xa0, Pairs(m) + |Flat(e)|) + InTurn(e, ChessMembers(m))
  {
    HeaderCount(m);
    MapOnWire(Entries(m));
    e := SlotsOnWire(Of(m.extra, Binary), Slots(m));
    ChessSlots(m);
  }

  lemma OptionalMember(key: string, k: Short, x: Option<Short>)
    requires |key| < 24 && k == Ascii(key)
    ensures Member(Slot(k, Optional(x))) == IfAny(key, x)
  {
    if x.Some? { NamedText(key, k, x.value); }
  }

  lemma Required(to: Short, from: Short)
    ensures Member(Slot(TO, Some(EncodeText(to)))) == Named("to", Text(to))
    ensures Member(Slot(FROM, Some(EncodeText(from)))) == Named("from", Text(from))
  {
    KeysAreNames();
    NamedText("to", TO, to);
    NamedText("from", FROM, from);
  }

  lemma Kind(typeId: Short)
    ensures Member(Slot(TYPE, TypeName(typeId))) == IfNotEmpty("$type", typeId)
  {
    KeysAreNames();
    TypeMember("$type", TYPE, typeId);
  }

  lemma Optionals(san: Option<Short>, promotion: Option<Short>)
    ensures Member(Slot(SAN, Optional(san))) == IfAny("san", san)
    ensures Member(Slot(PROMOTION, Optional(promotion))) == IfAny("promotion", promotion)
  {
    KeysAreNames();
    OptionalMember("san", SAN, san);
    OptionalMember("promotion", PROMOTION, promotion);
  }

  lemma ChessSlots(m: Move)
    ensures Members(Slots(m)) == ChessMembers(m)
  {
    Required(m.to, m.from);
    Kind(m.typeId);
    Optionals(m.san, m.promotion);
    FiveMembers(Slots(m), ChessMembers(m));
  }

  lemma FiveMembers(s: seq<Slot>, r: seq<Bytes>)
    requires |s| == |r| == 5 && forall i :: 0 <= i < 5 ==> Member(s[i]) == r[i]
    ensures Members(s) == r
  {
    forall i | 0 <= i < 5 ensures Members(s)[i] == r[i] { MembersAt(s, i); }
  }

  function PlainBytes(m: Move): Bytes {
    [0xa0 + Pairs(m)] + Chain(ChessMembers(m))
  }

  /** A move without extras is written with nothing between its members. */
  lemma PlainChessMove(m: Move)
    requires Of(m.extra, Binary) == []
    ensures |Entries(m)| < LIMIT && Encode(m) == PlainBytes(m)
  {
    HeaderCount(m);
    var e := ChessMoveOnWire(m);
    FlatOfNothing(e);
    InTurnAlone(e, ChessMembers(m));
  }

  /** And it is read from exactly these bytes, whatever follows. */
  lemma PlainChessMoveIsRead(skip: Skipper, m: Move, into: Move, s: Bytes, t: Bytes)
    requires Lawful(skip) && Of(m.extra, Binary) == [] && s == PlainBytes(m)
    ensures Decode(EntryReader(skip), Take, Cleared(into), s + t) == Some(Parsed(ChessLaws.Overlay(into, m), |s|))
  {
    PlainChessMove(m);
    ChessLaws.EncodedMoveDecodes(skip, m, into, t);
  }

  lemma ChainOfFive(a: Bytes, b: Bytes, c: Bytes, d: Bytes, e: Bytes)
    ensures Chain([a, b, c, d, e]) == a + (b + (c + (d + e)))
  {
    assert Chain([e]) == e + Chain([]);
    assert [d, e][1..] == [e];
    assert Chain([d, e]) == d + Chain([e]);
    assert [c, d, e][1..] == [d, e];
    assert Chain([c, d, e]) == c + Chain([d, e]);
    assert [b, c, d, e][1..] == [c, d, e];
    assert Chain([b, c, d, e]) == b + Chain([c, d, e]);
    assert [a, b, c, d, e][1..] == [b, c, d, e];
  }

  const PAWN_TO_E4 := Move([], [0x65, 0x32], None, None, [0x65, 0x34], [])

  const PAWN_TO_E4_BYTES: Bytes := [0xa2, 0x62, 0x74, 0x6f, 0x62, 0x65, 0x34, 0x64, 0x66, 0x72, 0x6f, 0x6d, 0x62, 0x65, 0x32]

  lemma ToE4()
    ensures Named("to", Text([0x65, 0x34])) == [0x62, 0x74, 0x6f, 0x62, 0x65, 0x34]
  {
    assert Ascii("to") == [0x74, 0x6f];
  }

  lemma FromE2()
    ensures Named("from", Text([0x65, 0x32])) == [0x64, 0x66, 0x72, 0x6f, 0x6d, 0x62, 0x65, 0x32]
  {
    assert Ascii("from") == [0x66, 0x72, 0x6f, 0x6d];
  }

  lemma TwoMembers(m: Move, to: Bytes, from: Bytes)
    requires ChessMembers(m) == [to, [], from, [], []] && Pairs(m) == 2
    ensures PlainBytes(m) == [0xa2] + to + from
  {
    ChainOfFive(to, [], from, [], []);
  }

  lemma PawnBytes()
    ensures PlainBytes(PAWN_TO_E4) == PAWN_TO_E4_BYTES
  {
    ToE4();
    FromE2();
    TwoMembers(PAWN_TO_E4, [0x62, 0x74, 0x6f, 0x62, 0x65, 0x34], [0x64, 0x66, 0x72, 0x6f, 0x6d, 0x62, 0x65, 0x32]);
  }

  /** e2e4 on the wire. */
  lemma PawnToE4(skip: Skipper)
    requires Lawful(skip)
    ensures |Entries(PAWN_TO_E4)| < LIMIT && Encode(PAWN_TO_E4) == PAWN_TO_E4_BYTES
    ensures Decode(EntryReader(skip), Take, FRESH, PAWN_TO_E4_BYTES) == Some(Parsed(PAWN_TO_E4, 15))
  {
    var m := PAWN_TO_E4;
    PawnBytes();
    PlainChessMove(m);
    PlainChessMoveIsRead(skip, m, FRESH, PAWN_TO_E4_BYTES, []);
    ChessLaws.OverlayOnFresh(m);
    assert PAWN_TO_E4_BYTES + [] == PAWN_TO_E4_BYTES;
  }

  // ---- what was read -----------------------------------------------------

  /** An optional text: the text under its name; a null or nothing leaves it out. */
  ghost predicate OptionalFrom(es: seq<Entry>, key: string, x: Option<Short>) {
    match x
    case Some(t) => Stands(es, key, Text(t))
    case None => Stands(es, key, [0xf6]) || Absent(es, key)
  }

  lemma OptionalWasRead(es: seq<Entry>, key: string, k: Short, x: Option<Short>)
    requires Ascending(es, None) && k == Ascii(key) && ChessLaws.OptionalField(None, Lookup(es, k)) == Some(x)
    ensures OptionalFrom(es, key, x)
  {
    FoundStands(es, key, k);
    if Lookup(es, k).Some? && Lookup(es, k).value != NULL { TextOfIsCanonical(Lookup(es, k).value); }
    if x.Some? { TextOnWire(x.value); }
  }

  /** A move that was read holds, field by field, what stands under the names in the bytes, and
      keeps every other entry. */
  lemma ChessMoveWasRead(skip: Skipper, s: Bytes, m: Move, size: nat) returns (es: seq<Entry>)
    requires Lawful(skip) && Decode(EntryReader(skip), Take, FRESH, s) == Some(Parsed(m, size))
    ensures |es| < WIDE && size <= |s| && s[..size] == Headed(0xa0, |es|) + Others(es)
    ensures ReadFrom(es, "to", [], m.to) && ReadFrom(es, "from", [], m.from) && ReadFrom(es, "$type", [], m.typeId)
    ensures OptionalFrom(es, "san", m.san) && OptionalFrom(es, "promotion", m.promotion)
    ensures m.extra == AsExtras(Unknown(es, {Ascii("to"), Ascii("san"), Ascii("from"), Ascii("$type"), Ascii("promotion")}))
  {
    DecodeTakesMap(EntryReader(skip), Take, FRESH, s);
    es := MapWasRead(skip, s);
    ChessLaws.TakeGathers();
    TakingGathers(Take, ChessLaws.Gathered, FRESH, es, None);
    ChessFieldsWereRead(es, m);
  }

  lemma ChessFieldsWereRead(es: seq<Entry>, m: Move)
    requires Ascending(es, None) && ChessLaws.Gathered(FRESH, es) == Some(m)
    ensures ReadFrom(es, "to", [], m.to) && ReadFrom(es, "from", [], m.from) && ReadFrom(es, "$type", [], m.typeId)
    ensures OptionalFrom(es, "san", m.san) && OptionalFrom(es, "promotion", m.promotion)
    ensures m.extra == AsExtras(Unknown(es, {Ascii("to"), Ascii("san"), Ascii("from"), Ascii("$type"), Ascii("promotion")}))
  {
    KeysAreNames();
    TextWasRead(es, "to", TO, [], m.to);
    TextWasRead(es, "from", FROM, [], m.from);
    TextWasRead(es, "$type", TYPE, [], m.typeId);
    OptionalWasRead(es, "san", SAN, m.san);
    OptionalWasRead(es, "promotion", PROMOTION, m.promotion);
    assert [] + AsExtras(Unknown(es, KNOWN)) == AsExtras(Unknown(es, KNOWN));
  }
}
