/** CBOR maps with text keys, as sequences of entries: the printer and the parser undo each
    other. */
module CborMaps {
  import opened Wrappers
  import opened Lex
  import opened Cbor
  import opened Codec

  // ---- text strings ------------------------------------------------------

  function EncodeText(x: Short): Bytes {
    EncodeHead(TEXT, |x|) + x
  }

  function ReadText(s: Bytes): (r: Option<Parsed<Short>>)
    ensures r.Some? ==> 0 < r.value.size <= |s|
  {
    match HeadOf(s)
    case None => None
    case Some(h) =>
      if h.major != TEXT || h.argument > |s| - h.size then None
      else Some(Parsed(s[h.size..h.size + h.argument], h.size + h.argument))
  }

  lemma TextRoundTrip(x: Short, t: Bytes)
    ensures ReadText(EncodeText(x) + t) == Some(Parsed(x, |EncodeText(x)|))
  {
    HeadRoundTrip(TEXT, |x|, x + t);
    assert EncodeText(x) + t == EncodeHead(TEXT, |x|) + (x + t);
    var k := |EncodeHead(TEXT, |x|)|;
    assert (EncodeText(x) + t)[k..k + |x|] == x;
  }

  lemma TextIsCanonical(s: Bytes)
    requires ReadText(s).Some?
    ensures var r := ReadText(s).value; s[..r.size] == EncodeText(r.value)
  {
    HeadIsCanonical(s);
    var h := HeadOf(s).value;
    assert s[..h.size + h.argument] == s[..h.size] + s[h.size..h.size + h.argument];
  }

  /** A function that tells where the value at the front ends. */
  type Skipper = Bytes -> Option<nat>

  /** What the records need of it: an end depends on the value's own bytes, and text strings and
      null are values. */
  ghost predicate Lawful(skip: Skipper) {
    && (forall s: Bytes {:trigger skip(s)} :: skip(s).Some? ==> 0 < skip(s).value <= |s|)
    && (forall s: Bytes, t: Bytes {:trigger Follows(skip, s, t)} :: Follows(skip, s, t) ==> skip(t) == skip(s))
    && (forall s: Bytes {:trigger ReadText(s)} :: ReadText(s).Some? ==> skip(s) == Some(ReadText(s).value.size))
    && (forall s: Bytes {:trigger skip(s)} :: s != [] && s[0] == NULL[0] ==> skip(s) == Some(1))
  }

  /** t begins with the value that s begins with. */
  predicate Follows(skip: Skipper, s: Bytes, t: Bytes) {
    var n := skip(s); n.Some? && n.value <= |s| && n.value <= |t| && t[..n.value] == s[..n.value]
  }

  lemma TextIsItem(s: Bytes)
    requires ReadText(s).Some?
    ensures ItemSize(s) == Some(ReadText(s).value.size)
  {
  }

  /** The items of RFC 8949 are such values. */
  lemma ItemsAreLawful()
    ensures Lawful(ItemSize)
  {
    forall s: Bytes, t: Bytes | Follows(ItemSize, s, t) ensures ItemSize(t) == ItemSize(s) { ItemIsLocal(s, t); }
    forall s: Bytes | ReadText(s).Some? ensures ItemSize(s) == Some(ReadText(s).value.size) { TextIsItem(s); }
  }

  /** An item that is a text string, read whole. */
  function TextOf(v: Bytes): Option<Short> {
    match ReadText(v)
    case Some(r) => if r.size == |v| then Some(r.value) else None
    case None => None
  }

  lemma TextOfEncode(x: Short)
    ensures TextOf(EncodeText(x)) == Some(x)
  {
    TextRoundTrip(x, []);
    assert EncodeText(x) + [] == EncodeText(x);
  }

  lemma TextIsValue(skip: Skipper, x: Short)
    requires Lawful(skip)
    ensures skip(EncodeText(x)) == Some(|EncodeText(x)|)
  {
    TextRoundTrip(x, []);
    assert EncodeText(x) + [] == EncodeText(x);
  }

  lemma TextOfIsCanonical(v: Bytes)
    requires TextOf(v).Some?
    ensures v == EncodeText(TextOf(v).value)
  {
    TextIsCanonical(v);
    assert v[..|v|] == v;
  }

  // ---- key order ---------------------------------------------------------

  /** Section 4.2.3: the shorter key first, then byte by byte. */
  predicate KeyLess(a: Bytes, b: Bytes) {
    |a| < |b| || (|a| == |b| && Less(a, b))
  }

  lemma KeyOrder(a: Bytes, b: Bytes, c: Bytes)
    ensures !KeyLess(a, a)
    ensures KeyLess(a, b) && KeyLess(b, c) ==> KeyLess(a, c)
    ensures KeyLess(a, b) ==> !KeyLess(b, a)
    ensures KeyLess(a, b) || a == b || KeyLess(b, a)
  {
    Irreflexive(a);
    Trichotomy(a, b);
    if Less(a, b) { Asymmetric(a, b); }
    if Less(a, b) && Less(b, c) { Transitive(a, b, c); }
  }

  // ---- entries -----------------------------------------------------------

  /** A key and the bytes of its value. */
  datatype Entry = Entry(key: Short, value: Bytes)

  predicate Storable(skip: Skipper, e: Entry) {
    skip(e.value) == Some(|e.value|)
  }

  function EncodeEntry(e: Entry): Bytes {
    EncodeText(e.key) + e.value
  }

  /** A key and the value after it. */
  function ReadEntry(skip: Skipper, s: Bytes): (r: Option<Parsed<Entry>>)
    ensures r.Some? ==> 0 < r.value.size <= |s|
  {
    match ReadText(s)
    case None => None
    case Some(k) =>
      match skip(s[k.size..])
      case None => None
      case Some(n) =>
        if k.size + n > |s| then None else Some(Parsed(Entry(k.value, s[k.size..k.size + n]), k.size + n))
  }

  lemma ReadEntryParts(skip: Skipper, s: Bytes, k: Parsed<Short>, rest: Bytes, n: nat)
    requires ReadText(s) == Some(k) && rest == s[k.size..] && skip(rest) == Some(n) && n <= |rest|
    ensures ReadEntry(skip, s) == Some(Parsed(Entry(k.value, rest[..n]), k.size + n))
  {
    assert s[k.size..k.size + n] == rest[..n];
  }

  /** A value ends where it ends, whatever follows, and is itself a value when cut out. */
  lemma ValueAhead(skip: Skipper, v: Bytes, t: Bytes)
    requires Lawful(skip) && skip(v) == Some(|v|)
    ensures skip(v + t) == Some(|v|)
  {
    assert (v + t)[..|v|] == v == v[..|v|];
    assert Follows(skip, v, v + t);
  }

  lemma ValueCut(skip: Skipper, s: Bytes)
    requires Lawful(skip) && skip(s).Some?
    ensures skip(s).value <= |s| && skip(s[..skip(s).value]) == skip(s)
  {
    var v := s[..skip(s).value];
    assert v == v[..|v|];
    assert Follows(skip, s, v);
  }

  lemma ReadKeyAndValue(skip: Skipper, key: Bytes, e: Entry, t: Bytes, s: Bytes)
    requires s == key + e.value + t && ReadText(key + (e.value + t)) == Some(Parsed(e.key, |key|))
    requires skip(e.value + t) == Some(|e.value|) && (e.value + t)[..|e.value|] == e.value
    ensures ReadEntry(skip, s) == Some(Parsed(e, |key| + |e.value|))
  {
    Joins(key, e.value, t);
    ReadEntryParts(skip, s, Parsed(e.key, |key|), e.value + t, |e.value|);
  }

  lemma EntryRoundTrip(skip: Skipper, e: Entry, t: Bytes)
    requires skip(e.value + t) == Some(|e.value|)
    ensures ReadEntry(skip, EncodeEntry(e) + t) == Some(Parsed(e, |EncodeEntry(e)|))
  {
    TextRoundTrip(e.key, e.value + t);
    assert (e.value + t)[..|e.value|] == e.value;
    ReadKeyAndValue(skip, EncodeText(e.key), e, t, EncodeEntry(e) + t);
  }

  lemma EntryIsCanonical(skip: Skipper, s: Bytes)
    requires Lawful(skip) && ReadEntry(skip, s).Some?
    ensures var r := ReadEntry(skip, s).value; Storable(skip, r.value) && s[..r.size] == EncodeEntry(r.value)
  {
    var k := ReadText(s).value;
    var rest := s[k.size..];
    TextIsCanonical(s);
    ValueCut(skip, rest);
    ReadEntryParts(skip, s, k, rest, skip(rest).value);
    Splits(s, k.size, skip(rest).value);
  }

  function EntryReader(skip: Skipper): Reader<Entry> {
    (s: Bytes) => ReadEntry(skip, s)
  }

  function CanStore(skip: Skipper): Entry -> bool {
    (e: Entry) => Storable(skip, e)
  }

  lemma EntriesReadBack(skip: Skipper)
    requires Lawful(skip)
    ensures ReadsBack(EntryReader(skip), EncodeEntry, CanStore(skip))
  {
    forall e: Entry, t: Bytes | Storable(skip, e)
      ensures ReadEntry(skip, EncodeEntry(e) + t) == Some(Parsed(e, |EncodeEntry(e)|))
    {
      ValueAhead(skip, e.value, t);
      EntryRoundTrip(skip, e, t);
    }
  }

  lemma EntriesCanonical(skip: Skipper)
    requires Lawful(skip)
    ensures Codec.Canonical(EntryReader(skip), EncodeEntry)
  {
    forall s: Bytes | ReadEntry(skip, s).Some?
      ensures ReadEntry(skip, s).value.size <= |s| && s[..ReadEntry(skip, s).value.size] == EncodeEntry(ReadEntry(skip, s).value.value)
    {
      EntryIsCanonical(skip, s);
    }
  }

  // ---- maps --------------------------------------------------------------

  /** Keys strictly increasing, from after `prev` on. */
  predicate Ascending(es: seq<Entry>, prev: Option<Bytes>) {
    es == [] || ((prev.Some? ==> KeyLess(prev.value, es[0].key)) && Ascending(es[1..], Some(es[0].key)))
  }

  predicate AllStorable(skip: Skipper, es: seq<Entry>) {
    All(CanStore(skip), es)
  }

  function EncodeMap(es: seq<Entry>): Bytes
    requires |es| < LIMIT
  {
    EncodeHead(MAP, |es|) + WriteMany(EncodeEntry, es)
  }

  /** A map header, as many entries as it says, and keys that keep increasing. */
  function ReadMap(read: Reader<Entry>, s: Bytes): (r: Option<Parsed<seq<Entry>>>)
    ensures r.Some? ==> r.value.size <= |s| && HeadOf(s).Some?
  {
    match HeadOf(s)
    case None => None
    case Some(h) => if h.major == MAP then ReadBody(read, s[h.size..], h.argument, h.size) else None
  }

  function ReadBody(read: Reader<Entry>, body: Bytes, count: nat, offset: nat): (r: Option<Parsed<seq<Entry>>>)
    ensures r.Some? ==> r.value.size <= offset + |body|
  {
    match ReadMany(read, body, count)
    case None => None
    case Some(r) => if Ascending(r.value, None) then Some(Parsed(r.value, offset + r.size)) else None
  }

  lemma ReadAfterHead(read: Reader<Entry>, s: Bytes, h: Head, body: Bytes, r: Parsed<seq<Entry>>)
    requires HeadOf(s) == Some(h) && h.major == MAP && body == s[h.size..]
    requires ReadBody(read, body, h.argument, h.size) == Some(r)
    ensures ReadMap(read, s) == Some(r)
  {
  }

  lemma ReadParts(read: Reader<Entry>, head: Bytes, written: Bytes, t: Bytes, s: Bytes, es: seq<Entry>)
    requires s == head + written + t
    requires HeadOf(head + (written + t)) == Some(Head(MAP, |es|, |head|))
    requires ReadBody(read, written + t, |es|, |head|) == Some(Parsed(es, |head| + |written|))
    ensures ReadMap(read, s) == Some(Parsed(es, |head| + |written|))
  {
    Joins(head, written, t);
    ReadAfterHead(read, s, Head(MAP, |es|, |head|), written + t, Parsed(es, |head| + |written|));
  }

  lemma MapReadsBack(read: Reader<Entry>, good: Entry -> bool, es: seq<Entry>, t: Bytes)
    requires |es| < LIMIT && ReadsBack(read, EncodeEntry, good) && All(good, es) && Ascending(es, None)
    ensures ReadMap(read, EncodeMap(es) + t) == Some(Parsed(es, |EncodeMap(es)|))
  {
    var head, written := EncodeHead(MAP, |es|), WriteMany(EncodeEntry, es);
    ManyReadBack(read, EncodeEntry, good, es, t);
    HeadRoundTrip(MAP, |es|, written + t);
    ReadParts(read, head, written, t, EncodeMap(es) + t, es);
  }

  /** Reading what was written gives the entries back. */
  lemma MapRoundTrip(skip: Skipper, es: seq<Entry>, t: Bytes)
    requires Lawful(skip) && |es| < LIMIT && AllStorable(skip, es) && Ascending(es, None)
    ensures ReadMap(EntryReader(skip), EncodeMap(es) + t) == Some(Parsed(es, |EncodeMap(es)|))
  {
    EntriesReadBack(skip);
    MapReadsBack(EntryReader(skip), CanStore(skip), es, t);
  }

  /** Every value read is good. */
  ghost predicate ReadsGood<T>(read: Reader<T>, good: T -> bool) {
    forall s: Bytes :: read(s).Some? ==> good(read(s).value.value)
  }

  lemma {:induction false} ManyGood<T>(read: Reader<T>, good: T -> bool, s: Bytes, count: nat)
    requires ReadsGood(read, good) && ReadMany(read, s, count).Some?
    ensures All(good, ReadMany(read, s, count).value.value)
    decreases count
  {
    if count > 0 {
      ManyGood(read, good, s[read(s).value.size..], count - 1);
    }
  }

  lemma MapFromBytes(read: Reader<Entry>, good: Entry -> bool, s: Bytes)
    requires Codec.Canonical(read, EncodeEntry) && ReadsGood(read, good) && ReadMap(read, s).Some?
    ensures var r := ReadMap(read, s).value;
      |r.value| < LIMIT && All(good, r.value) && Ascending(r.value, None) && s[..r.size] == EncodeMap(r.value)
  {
    var h := HeadOf(s).value;
    var r := ReadMany(read, s[h.size..], h.argument).value;
    HeadIsCanonical(s);
    ManyCanonical(read, EncodeEntry, s[h.size..], h.argument);
    ManyGood(read, good, s[h.size..], h.argument);
    Splits(s, h.size, r.size);
  }

  /** Writing what was read gives the bytes back: every map has one encoding. */
  lemma MapIsCanonical(skip: Skipper, s: Bytes)
    requires Lawful(skip) && ReadMap(EntryReader(skip), s).Some?
    ensures var r := ReadMap(EntryReader(skip), s).value;
      |r.value| < LIMIT && AllStorable(skip, r.value) && Ascending(r.value, None) && s[..r.size] == EncodeMap(r.value)
  {
    EntriesCanonical(skip);
    assert ReadsGood(EntryReader(skip), CanStore(skip)) by {
      forall x: Bytes | ReadEntry(skip, x).Some? ensures Storable(skip, ReadEntry(skip, x).value.value) {
        EntryIsCanonical(skip, x);
      }
    }
    MapFromBytes(EntryReader(skip), CanStore(skip), s);
  }
}
