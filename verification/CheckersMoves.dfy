/** The checkers move record, with its array of squares, and its binary codec. */
module CheckersMoves {
  import opened Wrappers
  import opened Lex
  import opened Cbor
  import opened Codec
  import opened CborMaps
  import opened Records
  import opened Decoding
  import opened RecordWriter

  type int64 = i: int | -0x8000_0000_0000_0000 <= i < 0x8000_0000_0000_0000

  type Path = p: seq<int64> | |p| < LIMIT

  const PATH: Short := [0x70, 0x61, 0x74, 0x68]
  const TYPE: Short := [0x24, 0x74, 0x79, 0x70, 0x65]

  const KNOWN: set<Bytes> := {PATH, TYPE}

  datatype Move = Move(typeId: Short, path: Path, extra: seq<Extra>)

  const FRESH := Move([], [], [])

  // ---- integers and paths ------------------------------------------------

  function EncodeInt(i: int64): Bytes {
    if i >= 0 then EncodeHead(UNSIGNED, i) else EncodeHead(NEGATIVE, -1 - i)
  }

  function ReadInt(s: Bytes): (r: Option<Parsed<int64>>)
    ensures r.Some? ==> 0 < r.value.size <= |s|
  {
    match HeadOf(s)
    case None => None
    case Some(h) =>
      if h.major > NEGATIVE || h.argument >= 0x8000_0000_0000_0000 then None
      else Some(Parsed(if h.major == UNSIGNED then h.argument else -1 - h.argument, h.size))
  }

  lemma IntRoundTrip(i: int64, t: Bytes)
    ensures ReadInt(EncodeInt(i) + t) == Some(Parsed(i, |EncodeInt(i)|))
  {
    HeadRoundTrip(if i >= 0 then UNSIGNED else NEGATIVE, if i >= 0 then i else -1 - i, t);
  }

  lemma IntIsCanonical(s: Bytes)
    requires ReadInt(s).Some?
    ensures s[..ReadInt(s).value.size] == EncodeInt(ReadInt(s).value.value)
  {
    HeadIsCanonical(s);
  }

  predicate AnyInt(i: int64) {
    true
  }

  lemma IntsRoundTrip()
    ensures ReadsBack(ReadInt, EncodeInt, AnyInt) && Codec.Canonical(ReadInt, EncodeInt)
  {
    forall i: int64, t: Bytes ensures ReadInt(EncodeInt(i) + t) == Some(Parsed(i, |EncodeInt(i)|)) { IntRoundTrip(i, t); }
    forall s: Bytes | ReadInt(s).Some?
      ensures ReadInt(s).value.size <= |s| && s[..ReadInt(s).value.size] == EncodeInt(ReadInt(s).value.value)
    {
      IntIsCanonical(s);
    }
  }

  function EncodePath(p: Path): Bytes {
    EncodeArray(EncodeInt, p)
  }

  function ReadPath(s: Bytes): (r: Option<Parsed<Path>>)
    ensures r.Some? ==> 0 < r.value.size <= |s|
  {
    ReadArray(ReadInt, s)
  }

  lemma {:induction false} EachIntTakesRoom(p: seq<int64>)
    ensures |p| <= |WriteMany(EncodeInt, p)|
  {
    if p != [] { EachIntTakesRoom(p[1..]); }
  }

  lemma PathRoundTrip(p: Path, t: Bytes)
    ensures ReadPath(EncodePath(p) + t) == Some(Parsed(p, |EncodePath(p)|))
  {
    IntsRoundTrip();
    EachIntTakesRoom(p);
    ArrayRoundTrip(ReadInt, EncodeInt, AnyInt, p, t);
  }

  lemma PathIsCanonical(s: Bytes)
    requires ReadPath(s).Some?
    ensures s[..ReadPath(s).value.size] == EncodePath(ReadPath(s).value.value)
  {
    IntsRoundTrip();
    ArrayIsCanonical(ReadInt, EncodeInt, s);
  }

  /** A value that is an array of integers, read whole. */
  function PathOf(v: Bytes): Option<Path> {
    match ReadPath(v)
    case Some(r) => if r.size == |v| then Some(r.value) else None
    case None => None
  }

  lemma PathOfEncode(p: Path)
    ensures PathOf(EncodePath(p)) == Some(p)
  {
    PathRoundTrip(p, []);
    assert EncodePath(p) + [] == EncodePath(p);
  }

  lemma PathOfIsCanonical(v: Bytes)
    requires PathOf(v).Some?
    ensures v == EncodePath(PathOf(v).value)
  {
    PathIsCanonical(v);
    assert v[..|v|] == v;
  }

  // ---- skipping paths ----------------------------------------------------

  /** Arrays of integers are values. */
  ghost predicate SkipsPaths(skip: Skipper) {
    forall s: Bytes {:trigger ReadPath(s)} :: ReadPath(s).Some? ==> skip(s) == Some(ReadPath(s).value.size)
  }

  lemma {:induction false} IntsAreItems(s: Bytes, count: nat)
    requires ReadMany(ReadInt, s, count).Some?
    ensures ItemsSize(s, count) == Some(ReadMany(ReadInt, s, count).value.size)
    decreases count
  {
    if count > 0 { IntsAreItems(s[ReadInt(s).value.size..], count - 1); }
  }

  lemma PathIsItem(s: Bytes)
    requires ReadPath(s).Some?
    ensures ItemSize(s) == Some(ReadPath(s).value.size)
  {
    var h := HeadOf(s).value;
    var body := s[h.size..];
    IntsAreItems(body, h.argument);
    ArrayIsItem(s, h, body, ReadMany(ReadInt, body, h.argument).value.size);
  }

  lemma ItemsSkipPaths()
    ensures SkipsPaths(ItemSize)
  {
    forall s: Bytes | ReadPath(s).Some? ensures ItemSize(s) == Some(ReadPath(s).value.size) { PathIsItem(s); }
  }

  /** A value is a path exactly if one can be read there. */
  lemma PathValue(skip: Skipper, s: Bytes)
    requires Lawful(skip) && SkipsPaths(skip)
    ensures var x := ReadPath(s);
      && (x.Some? ==> skip(s) == Some(x.value.size) && PathOf(s[..x.value.size]) == Some(x.value.value))
      && (x == None && skip(s).Some? ==> skip(s).value <= |s| && PathOf(s[..skip(s).value]) == None)
  {
    var x := ReadPath(s);
    if x.Some? {
      PathIsCanonical(s);
      PathOfEncode(x.value.value);
    } else if skip(s).Some? {
      var v, t := s[..skip(s).value], s[skip(s).value..];
      assert s == v + t;
      if PathOf(v).Some? {
        PathOfIsCanonical(v);
        PathRoundTrip(PathOf(v).value, t);
      }
    }
  }

  // ---- what is written ---------------------------------------------------

  function Slots(m: Move): seq<Slot> {
    [Slot(PATH, Some(EncodePath(m.path))), Slot(TYPE, TypeName(m.typeId))]
  }

  function Entries(m: Move): seq<Entry> {
    Weave(Of(m.extra, Binary), Slots(m))
  }

  function Encode(m: Move): Bytes
    requires |Entries(m)| < LIMIT
  {
    EncodeMap(Entries(m))
  }

  // ---- what is read ------------------------------------------------------

  function Take(m: Move, e: Entry): Option<Move> {
    if e.key == PATH then
      match PathOf(e.value) case None => None case Some(x) => Some(m.(path := x))
    else if e.key == TYPE then
      match TextOf(e.value) case None => None case Some(x) => Some(m.(typeId := x))
    else Some(m.(extra := m.extra + [Extra(e.key, e.value, Binary)]))
  }

  function Cleared(m: Move): Move {
    m.(extra := Without(m.extra, Binary))
  }

  /** Allocates the squares and fills them in one by one. */
  method ReadInts(s: Bytes, count: nat) returns (r: Option<Parsed<seq<int64>>>)
    ensures r == ReadMany(ReadInt, s, count)
  {
    var a := new int64[count];
    var rest: Bytes, left: nat, at: nat := s, count, 0;
    ghost var seen: seq<int64> := [];
    ManyBegin(ReadInt, s, count);
    for i := 0 to count
      invariant left == count - i && at <= |s| && rest == s[at..] && seen == a[..i]
      invariant ManyOnCourse(ReadInt, s, count, seen, rest, left, at)
    {
      var x :- ReadInt(rest);
      a[i] := x.value;
      ghost var seen' := seen + [x.value];
      var rest': Bytes, left': nat, at': nat := rest[x.size..], left - 1, at + x.size;
      ManyNext(ReadInt, s, count, seen, rest, left, at, x, seen', rest', left', at');
      seen := seen';
      rest, left, at := rest', left', at';
    }
    ManyEnd(ReadInt, s, count, seen, rest, at);
    assert a[..count] == a[..];
    r := Some(Parsed(a[..], at));
  }

  method AppendPath(p: Path, buf: Bytes) returns (out: Bytes)
    ensures out == buf + EncodePath(p)
  {
    var head := EncodeHead(ARRAY, |p|);
    out := buf + head;
    assert p[..0] == [];
    for i := 0 to |p|
      invariant out == buf + head + WriteMany(EncodeInt, p[..i])
    {
      assert p[..i + 1] == p[..i] + [p[i]];
      WriteManyLast(EncodeInt, p[..i], p[i]);
      Joins(buf + head, WriteMany(EncodeInt, p[..i]), EncodeInt(p[i]));
      out := out + EncodeInt(p[i]);
    }
    assert p[..|p|] == p;
    Joins(buf, head, WriteMany(EncodeInt, p));
  }

  // ---- the record --------------------------------------------------------

  class CheckersMove {
    var typeId: Short
    var path: Path
    var extra: seq<Extra>

    constructor ()
      ensures Value() == FRESH
    {
      typeId, path, extra := [], [], [];
    }

    function Value(): Move
      reads this
    {
      Move(typeId, path, extra)
    }

    method AppendCBOR(buf: Bytes) returns (out: Bytes)
      requires |Entries(Value())| < LIMIT
      ensures out == buf + Encode(Value())
    {
      var extras := CountExtra(extra, Binary);
      var n := 1 + extras;
      if typeId != [] { n := n + 1; }
      HeaderCount(Value());
      var head := EncodeHead(MAP, n);
      var squares := AppendPath(path, []);
      assert squares == EncodePath(path);
      out := AppendPairs(extra, [Slot(PATH, Some(squares)), Slot(TYPE, TypeName(typeId))], buf + head);
      Joins(buf, head, WriteMany(EncodeEntry, Entries(Value())));
    }

    /** Takes the value at the front of s under `key`, and tells its length. */
    method TakeValue(skip: Skipper, s: Bytes, key: Short) returns (size: Option<nat>)
      requires Lawful(skip) && SkipsPaths(skip)
      modifies this
      ensures Took(skip, Take, old(Value()), s, key, Value(), size)
      ensures size.Some? ==> size.value <= |s|
    {
      size := None;
      if |key| == 4 && key == PATH {
        PathValue(skip, s);
        var head :- HeadOf(s);
        if head.major != ARRAY || head.argument > |s| - head.size { return; }
        var ints :- ReadInts(s[head.size..], head.argument);
        path, size := ints.value, Some(head.size + ints.size);
      } else if |key| == 5 && key == TYPE {
        TextValue(skip, s);
        var x :- ReadText(s);
        typeId, size := x.value, Some(x.size);
      } else {
        size := skip(s);
        if size.Some? { extra := extra + [Extra(key, s[..size.value], Binary)]; }
      }
    }

    /** The pairs after the header; keys must keep increasing. */
    method TakePairs(skip: Skipper, s: Bytes, count: nat) returns (size: Option<nat>)
      requires Lawful(skip) && SkipsPaths(skip)
      modifies this
      ensures PairsDecode(skip, Take, old(Value()), s, count, Value(), size)
    {
      var rest: Bytes, left: nat, at: nat := s, count, 0;
      var prev: Option<Bytes> := None;
      ghost var m0 := Value();
      ghost var m := m0;
      Starts(skip, Take, m, s, count);
      while left > 0
        invariant left <= count && at <= |s| && rest == s[at..] && m == Value()
        invariant OnCourse(skip, Take, m0, s, count, m, rest, left, prev, at)
      {
        var key := ReadText(rest);
        if key == None {
          NoKey(skip, Take, m0, s, count, m, rest, left, prev, at);
          return None;
        }
        if prev.Some? && !KeyLess(prev.value, key.value.value) {
          OutOfOrder(skip, Take, m0, s, count, m, rest, left, prev, at);
          return None;
        }
        var value := rest[key.value.size..];
        var taken := TakeValue(skip, value, key.value.value);
        ghost var m' := Value();
        if taken == None {
          Refused(skip, Take, m0, s, count, m, rest, key.value, value, m', left, prev, at);
          return None;
        }
        var rest': Bytes, left': nat := value[taken.value..], left - 1;
        var prev': Option<Bytes>, at': nat := Some(key.value.value), at + key.value.size + taken.value;
        Taken(skip, Take, m0, s, count, m, rest, key.value, value, taken.value, m', left, prev, at, rest', left', prev', at');
        m := m';
        rest, left, prev, at := rest', left', prev', at';
      }
      size := Some(at);
      Ends(skip, Take, m0, s, count, m, rest, prev, at, size);
    }

    /** The position after the record, or no record. */
    method UnmarshalCBORAt(skip: Skipper, data: Bytes, pos: nat) returns (end: Option<nat>)
      requires Lawful(skip) && SkipsPaths(skip) && pos <= |data|
      modifies this
      ensures end.Some? ==> pos <= end.value
      ensures Decodes(skip, Take, Cleared(old(Value())), data[pos..], Value(), if end == None then None else Some(end.value - pos))
    {
      extra := ClearedExtra(extra, Binary);
      ghost var m := Value();
      assert m == Cleared(old(Value()));
      var s := data[pos..];
      var head := HeadOf(s);
      if head == None || head.value.major != MAP {
        NoHead(skip, Take, m, s, m);
        return None;
      }
      var rest, count := s[head.value.size..], head.value.argument;
      var n := TakePairs(skip, rest, count);
      ghost var size := if n == None then None else Some(head.value.size + n.value);
      DecodesAfterHead(skip, Take, m, s, head.value, rest, count, Value(), n, size);
      if n == None { return None; }
      end := Some(pos + head.value.size + n.value);
      assert size.value == end.value - pos;
    }
  }

  /** The header announces as many pairs as are written, whatever the extras. */
  lemma HeaderCount(m: Move)
    ensures |Entries(m)| == 1 + |Of(m.extra, Binary)| + (if m.typeId != [] then 1 else 0)
  {
    WeaveCount(Of(m.extra, Binary), Slots(m));
    var s := Slots(m);
    assert s[1..][1..] == [];
    assert Filled(s[1..]) == |Present(s[1])|;
  }
}
