/** The checkers move record byte by byte, with its keys by name and the heads in numerals. */
module CheckersBytes {
  import opened Wrappers
  import opened Lex
  import opened Cbor
  import opened Codec
  import opened CborMaps
  import opened Records
  import opened Decoding
  import opened Weaving
  import opened Wire
  import opened RecordBytes
  import opened CheckersMoves
  import CheckersLaws

  lemma KeysAreNames()
    ensures PATH == Ascii("path") && TYPE == Ascii("$type")
  {
  }

  // ---- squares -----------------------------------------------------------

  function Square(i: int64): Bytes {
    if i >= 0 then Headed(0x00, i) else Headed(0x20, -1 - i)
  }

  function Squares(p: seq<int64>): Bytes {
    if p == [] then [] else Square(p[0]) + Squares(p[1..])
  }

  function PathBytes(p: Path): Bytes {
    Headed(0x80, |p|) + Squares(p)
  }

  lemma {:induction false} SquaresOnWire(p: seq<int64>)
    ensures WriteMany(EncodeInt, p) == Squares(p)
  {
    if p != [] {
      if p[0] >= 0 { HeadOnWire(0, 0x00, p[0]); } else { HeadOnWire(1, 0x20, -1 - p[0]); }
      SquaresOnWire(p[1..]);
    }
  }

  /** A path is an array header and one integer for each square. */
  lemma PathOnWire(p: Path)
    ensures EncodePath(p) == PathBytes(p)
  {
    HeadOnWire(4, 0x80, |p|);
    SquaresOnWire(p);
  }

  // ---- what is written ---------------------------------------------------

  function Pairs(m: Move): nat {
    if m.typeId == [] then 1 else 2
  }

  function CheckersMembers(m: Move): seq<Bytes> {
    [Named("path", PathBytes(m.path)), IfNotEmpty("$type", m.typeId)]
  }

  /** What is written of a checkers move: a map header that counts the members, and the members,
      with the kept binary extras `e` before, between and after them. */
  lemma CheckersMoveOnWire(m: Move) returns (e: seq<seq<Entry>>)
    requires |Entries(m)| < LIMIT
    ensures |e| == 3 && Flat(e) == Of(m.extra, Binary) && Pairs(m) + |Flat(e)| < WIDE
    ensures Encode(m) == Headed(0xa0, Pairs(m) + |Flat(e)|) + InTurn(e, CheckersMembers(m))
  {
    HeaderCount(m);
    MapOnWire(Entries(m));
    e := SlotsOnWire(Of(m.extra, Binary), Slots(m));
    CheckersSlots(m);
  }

  lemma CheckersSlots(m: Move)
    ensures Members(Slots(m)) == CheckersMembers(m)
  {
    KeysAreNames();
    PathOnWire(m.path);
    TypeMember("$type", TYPE, m.typeId);
    MembersAt(Slots(m), 0);
    MembersAt(Slots(m), 1);
  }

  function PlainBytes(m: Move): Bytes {
    [0xa0 + Pairs(m)] + Chain(CheckersMembers(m))
  }

  /** A move without extras is written with nothing between its members, and read from exactly
      these bytes, whatever follows. */
  lemma PlainCheckersMove(m: Move)
    requires Of(m.extra, Binary) == []
    ensures |Entries(m)| < LIMIT && Encode(m) == PlainBytes(m)
  {
    HeaderCount(m);
    var e := CheckersMoveOnWire(m);
    FlatOfNothing(e);
    InTurnAlone(e, CheckersMembers(m));
  }

  lemma PlainCheckersMoveIsRead(skip: Skipper, m: Move, into: Move, s: Bytes, t: Bytes)
    requires Lawful(skip) && SkipsPaths(skip) && Of(m.extra, Binary) == [] && s == PlainBytes(m)
    ensures Decode(EntryReader(skip), Take, Cleared(into), s + t) == Some(Parsed(CheckersLaws.Overlay(into, m), |s|))
  {
    PlainCheckersMove(m);
    CheckersLaws.EncodedMoveDecodes(skip, m, into, t);
  }

  const JUMP := Move([], [22, 400], [])

  const JUMP_BYTES: Bytes := [0xa1, 0x64, 0x70, 0x61, 0x74, 0x68, 0x82, 0x16, 0x19, 0x01, 0x90]

  lemma JumpSquares()
    ensures PathBytes([22, 400]) == [0x82, 0x16, 0x19, 0x01, 0x90]
  {
    assert [22, 400][1..] == [400];
    assert Squares([400]) == Square(400) + Squares([]);
  }

  lemma JumpPath()
    ensures Named("path", [0x82, 0x16, 0x19, 0x01, 0x90]) == [0x64, 0x70, 0x61, 0x74, 0x68, 0x82, 0x16, 0x19, 0x01, 0x90]
  {
    assert Ascii("path") == [0x70, 0x61, 0x74, 0x68];
  }

  lemma ChainOfOne(a: Bytes)
    ensures Chain([a, []]) == a
  {
    assert [a, []][1..] == [[]];
    assert Chain([[]]) == [] + Chain([]);
  }

  lemma JumpBytes()
    ensures PlainBytes(JUMP) == JUMP_BYTES
  {
    JumpSquares();
    JumpPath();
    ChainOfOne(Named("path", PathBytes([22, 400])));
  }

  /** A record on the wire. */
  lemma JumpOnWire(skip: Skipper)
    requires Lawful(skip) && SkipsPaths(skip)
    ensures |Entries(JUMP)| < LIMIT && Encode(JUMP) == JUMP_BYTES
    ensures Decode(EntryReader(skip), Take, FRESH, JUMP_BYTES) == Some(Parsed(JUMP, 11))
  {
    JumpBytes();
    PlainCheckersMove(JUMP);
    PlainCheckersMoveIsRead(skip, JUMP, FRESH, JUMP_BYTES, []);
    CheckersLaws.OverlayOnFresh(JUMP);
    assert JUMP_BYTES + [] == JUMP_BYTES;
  }

  // ---- what was read -----------------------------------------------------

  ghost predicate PathReadFrom(es: seq<Entry>, x: Path) {
    Stands(es, "path", PathBytes(x)) || (Absent(es, "path") && x == [])
  }

  /** A move that was read holds, field by field, what stands under the names in the bytes, and
      keeps every other entry. */
  lemma CheckersMoveWasRead(skip: Skipper, s: Bytes, m: Move, size: nat) returns (es: seq<Entry>)
    requires Lawful(skip) && SkipsPaths(skip) && Decode(EntryReader(skip), Take, FRESH, s) == Some(Parsed(m, size))
    ensures |es| < WIDE && size <= |s| && s[..size] == Headed(0xa0, |es|) + Others(es)
    ensures PathReadFrom(es, m.path) && ReadFrom(es, "$type", [], m.typeId)
    ensures m.extra == AsExtras(Unknown(es, {Ascii("path"), Ascii("$type")}))
  {
    DecodeTakesMap(EntryReader(skip), Take, FRESH, s);
    es := MapWasRead(skip, s);
    CheckersLaws.TakeGathers();
    TakingGathers(Take, CheckersLaws.Gathered, FRESH, es, None);
    KeysAreNames();
    TextWasRead(es, "$type", TYPE, [], m.typeId);
    PathWasRead(es, m);
    assert [] + AsExtras(Unknown(es, KNOWN)) == AsExtras(Unknown(es, KNOWN));
  }

  lemma PathWasRead(es: seq<Entry>, m: Move)
    requires Ascending(es, None) && CheckersLaws.PathField([], Lookup(es, PATH)) == Some(m.path)
    ensures PathReadFrom(es, m.path)
  {
    KeysAreNames();
    FoundStands(es, "path", PATH);
    if Lookup(es, PATH).Some? { PathOfIsCanonical(Lookup(es, PATH).value); }
    PathOnWire(m.path);
  }
}
