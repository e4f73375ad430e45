/** The chess move record and its binary codec. */
module ChessMoves {
  import opened Wrappers
  import opened Lex
  import opened Cbor
  import opened Codec
  import opened CborMaps
  import opened Records
  import opened Decoding
  import opened RecordWriter

  const TO: Short := [0x74, 0x6f]
  const SAN: Short := [0x73, 0x61, 0x6e]
  const FROM: Short := [0x66, 0x72, 0x6f, 0x6d]
  const TYPE: Short := [0x24, 0x74, 0x79, 0x70, 0x65]
  const PROMOTION: Short := [0x70, 0x72, 0x6f, 0x6d, 0x6f, 0x74, 0x69, 0x6f, 0x6e]

  const KNOWN: set<Bytes> := {TO, SAN, FROM, TYPE, PROMOTION}

  datatype Move = Move(
    typeId: Short,
    from: Short,
    promotion: Option<Short>,
    san: Option<Short>,
    to: Short,
    extra: seq<Extra>)

  const FRESH := Move([], [], None, None, [], [])

  // ---- what is written ---------------------------------------------------

  function Optional(x: Option<Short>): Option<Bytes> {
    if x == None then None else Some(EncodeText(x.value))
  }

  /** The known fields in key order; an empty type name is left out. */
  function Slots(m: Move): seq<Slot> {
    [Slot(TO, Some(EncodeText(m.to))),
     Slot(SAN, Optional(m.san)),
     Slot(FROM, Some(EncodeText(m.from))),
     Slot(TYPE, TypeName(m.typeId)),
     Slot(PROMOTION, Optional(m.promotion))]
  }

  function Entries(m: Move): seq<Entry> {
    Weave(Of(m.extra, Binary), Slots(m))
  }

  function Encode(m: Move): Bytes
    requires |Entries(m)| < LIMIT
  {
    EncodeMap(Entries(m))
  }

  // ---- what is read ------------------------------------------------------

  function Take(m: Move, e: Entry): Option<Move> {
    if e.key == TO then
      match TextOf(e.value) case None => None case Some(x) => Some(m.(to := x))
    else if e.key == SAN then
      if e.value == NULL then Some(m)
      else match TextOf(e.value) case None => None case Some(x) => Some(m.(san := Some(x)))
    else if e.key == FROM then
      match TextOf(e.value) case None => None case Some(x) => Some(m.(from := x))
    else if e.key == TYPE then
      match TextOf(e.value) case None => None case Some(x) => Some(m.(typeId := x))
    else if e.key == PROMOTION then
      if e.value == NULL then Some(m)
      else match TextOf(e.value) case None => None case Some(x) => Some(m.(promotion := Some(x)))
    else Some(m.(extra := m.extra + [Extra(e.key, e.value, Binary)]))
  }

  /** Decoding into a record first drops the binary extras it holds; other fields keep their
      values until an entry replaces them. */
  function Cleared(m: Move): Move {
    m.(extra := Without(m.extra, Binary))
  }

  // ---- the record --------------------------------------------------------

  class ChessMove {
    var typeId: Short
    var from: Short
    var promotion: Option<Short>
    var san: Option<Short>
    var to: Short
    var extra: seq<Extra>

    constructor ()
      ensures Value() == FRESH
    {
      typeId, from, promotion, san, to, extra := [], [], None, None, [], [];
    }

    function Value(): Move
      reads this
    {
      Move(typeId, from, promotion, san, to, extra)
    }

    method AppendCBOR(buf: Bytes) returns (out: Bytes)
      requires |Entries(Value())| < LIMIT
      ensures out == buf + Encode(Value())
    {
      var extras := CountExtra(extra, Binary);
      var n := 2 + extras;
      if san.Some? { n := n + 1; }
      if typeId != [] { n := n + 1; }
      if promotion.Some? { n := n + 1; }
      HeaderCount(Value());
      var head := EncodeHead(MAP, n);
      out := AppendPairs(extra, Slots(Value()), buf + head);
      Joins(buf, head, WriteMany(EncodeEntry, Entries(Value())));
    }

    /** Takes the value at the front of s under `key`, and tells its length. */
    method TakeValue(skip: Skipper, s: Bytes, key: Short) returns (size: Option<nat>)
      requires Lawful(skip)
      modifies this
      ensures Took(skip, Take, old(Value()), s, key, Value(), size)
      ensures size.Some? ==> size.value <= |s|
    {
      size := None;
      if |key| == 2 && key == TO {
        TextValue(skip, s);
        var x :- ReadText(s);
        to, size := x.value, Some(x.size);
      } else if |key| == 3 && key == SAN {
        NullValue(skip, s);
        if s != [] && s[0] == NULL[0] { return Some(1); }
        TextValue(skip, s);
        var x :- ReadText(s);
        san, size := Some(x.value), Some(x.size);
      } else if |key| == 4 && key == FROM {
        TextValue(skip, s);
        var x :- ReadText(s);
        from, size := x.value, Some(x.size);
      } else if |key| == 5 && key == TYPE {
        TextValue(skip, s);
        var x :- ReadText(s);
        typeId, size := x.value, Some(x.size);
      } else if |key| == 9 && key == PROMOTION {
        NullValue(skip, s);
        if s != [] && s[0] == NULL[0] { return Some(1); }
        TextValue(skip, s);
        var x :- ReadText(s);
        promotion, size := Some(x.value), Some(x.size);
      } else {
        size := skip(s);
        if size.Some? { extra := extra + [Extra(key, s[..size.value], Binary)]; }
      }
    }

    /** The pairs after the header; keys must keep increasing. */
    method TakePairs(skip: Skipper, s: Bytes, count: nat) returns (size: Option<nat>)
      requires Lawful(skip)
      modifies this
      ensures PairsDecode(skip, Take, old(Value()), s, count, Value(), size)
    {
      var rest: Bytes, left: nat, at: nat := s, count, 0;
      var prev: Option<Bytes> := None;
      ghost var m0 := Value();
      ghost var m := m0;
      Starts(skip, Take, m, s, count);
      while left > 0
        invariant left <= count && at <= |s| && rest == s[at..] && m == Value()
        invariant OnCourse(skip, Take, m0, s, count, m, rest, left, prev, at)
      {
        var key := ReadText(rest);
        if key == None {
          NoKey(skip, Take, m0, s, count, m, rest, left, prev, at);
          return None;
        }
        if prev.Some? && !KeyLess(prev.value, key.value.value) {
          OutOfOrder(skip, Take, m0, s, count, m, rest, left, prev, at);
          return None;
        }
        var value := rest[key.value.size..];
        var taken := TakeValue(skip, value, key.value.value);
        ghost var m' := Value();
        if taken == None {
          Refused(skip, Take, m0, s, count, m, rest, key.value, value, m', left, prev, at);
          return None;
        }
        var rest': Bytes, left': nat := value[taken.value..], left - 1;
        var prev': Option<Bytes>, at': nat := Some(key.value.value), at + key.value.size + taken.value;
        Taken(skip, Take, m0, s, count, m, rest, key.value, value, taken.value, m', left, prev, at, rest', left', prev', at');
        m := m';
        rest, left, prev, at := rest', left', prev', at';
      }
      size := Some(at);
      Ends(skip, Take, m0, s, count, m, rest, prev, at, size);
    }

    /** The position after the record, or no record. */
    method UnmarshalCBORAt(skip: Skipper, data: Bytes, pos: nat) returns (end: Option<nat>)
      requires Lawful(skip) && pos <= |data|
      modifies this
      ensures end.Some? ==> pos <= end.value
      ensures Decodes(skip, Take, Cleared(old(Value())), data[pos..], Value(), if end == None then None else Some(end.value - pos))
    {
      extra := ClearedExtra(extra, Binary);
      ghost var m := Value();
      assert m == Cleared(old(Value()));
      var s := data[pos..];
      var head := HeadOf(s);
      if head == None || head.value.major != MAP {
        NoHead(skip, Take, m, s, m);
        return None;
      }
      var rest, count := s[head.value.size..], head.value.argument;
      var n := TakePairs(skip, rest, count);
      ghost var size := if n == None then None else Some(head.value.size + n.value);
      DecodesAfterHead(skip, Take, m, s, head.value, rest, count, Value(), n, size);
      if n == None { return None; }
      end := Some(pos + head.value.size + n.value);
      assert size.value == end.value - pos;
    }
  }

  /** The header announces as many pairs as are written, whatever the extras. */
  lemma HeaderCount(m: Move)
    ensures |Entries(m)| == 2 + |Of(m.extra, Binary)| + (if m.san.Some? then 1 else 0)
                            + (if m.typeId != [] then 1 else 0) + (if m.promotion.Some? then 1 else 0)
  {
    WeaveCount(Of(m.extra, Binary), Slots(m));
    FilledSlots(m);
  }

  lemma FilledSlots(m: Move)
    ensures Filled(Slots(m)) == 2 + (if m.san.Some? then 1 else 0) + (if m.typeId != [] then 1 else 0) + (if m.promotion.Some? then 1 else 0)
  {
    var s := Slots(m);
    assert s[1..][1..] == s[2..] && s[2..][1..] == s[3..] && s[3..][1..] == s[4..] && s[4..][1..] == [];
    assert Filled(s[4..]) == |Present(s[4])|;
    assert Filled(s[3..]) == |Present(s[3])| + Filled(s[4..]);
    assert Filled(s[2..]) == |Present(s[2])| + Filled(s[3..]);
    assert Filled(s[1..]) == |Present(s[1])| + Filled(s[2..]);
  }
}
