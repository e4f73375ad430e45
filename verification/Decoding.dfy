/** Decoding a record entry by entry: what the loop over a map's entries computes. */
module Decoding {
  import opened Wrappers
  import opened Lex
  import opened Cbor
  import opened Codec
  import opened CborMaps

  /** Takes one entry into a record, or refuses it. */
  type Taker<!T> = (T, Entry) -> Option<T>

  function TakeAll<T>(take: Taker<T>, t: T, es: seq<Entry>): Option<T>
    decreases |es|
  {
    if es == [] then Some(t)
    else
      match take(t, es[0])
      case None => None
      case Some(next) => TakeAll(take, next, es[1..])
  }

  /** What is still to come when `count` entries are left, the last key having been `prev`. */
  function Rest<T>(read: Reader<Entry>, take: Taker<T>, t: T, s: Bytes, count: nat, prev: Option<Bytes>): Option<Parsed<T>> {
    match ReadMany(read, s, count)
    case None => None
    case Some(r) =>
      if !Ascending(r.value, prev) then None
      else
        match TakeAll(take, t, r.value)
        case None => None
        case Some(x) => Some(Parsed(x, r.size))
  }

  function Shift<T>(r: Option<Parsed<T>>, offset: nat): Option<Parsed<T>> {
    match r
    case None => None
    case Some(p) => Some(Parsed(p.value, offset + p.size))
  }

  /** A record read into t. */
  function Decode<T>(read: Reader<Entry>, take: Taker<T>, t: T, s: Bytes): Option<Parsed<T>> {
    match HeadOf(s)
    case None => None
    case Some(h) => if h.major == MAP then Shift(Rest(read, take, t, s[h.size..], h.argument, None), h.size) else None
  }

  /** Decoding takes all the entries of the map. */
  lemma DecodeTakesMap<T>(read: Reader<Entry>, take: Taker<T>, t: T, s: Bytes)
    ensures Decode(read, take, t, s) ==
            match ReadMap(read, s)
            case None => None
            case Some(r) =>
              match TakeAll(take, t, r.value)
              case None => None
              case Some(x) => Some(Parsed(x, r.size))
  {
  }

  /** What a reader that changes t in place reports: no record, or t as it is now and the bytes
      read. */
  function Outcome<T>(t: T, size: Option<nat>): Option<Parsed<T>> {
    if size == None then None else Some(Parsed(t, size.value))
  }

  ghost predicate Decodes<T>(skip: Skipper, take: Taker<T>, t: T, s: Bytes, t': T, size: Option<nat>) {
    Decode(EntryReader(skip), take, t, s) == Outcome(t', size)
  }

  ghost predicate PairsDecode<T>(skip: Skipper, take: Taker<T>, t: T, s: Bytes, count: nat, t': T, size: Option<nat>) {
    Rest(EntryReader(skip), take, t, s, count, None) == Outcome(t', size)
  }

  lemma DecodesAfterHead<T>(skip: Skipper, take: Taker<T>, t: T, s: Bytes, h: Head, rest: Bytes, count: nat, t': T, size: Option<nat>, total: Option<nat>)
    requires HeadOf(s) == Some(h) && h.major == MAP && rest == s[h.size..] && count == h.argument
    requires PairsDecode(skip, take, t, rest, count, t', size)
    requires total == if size == None then None else Some(h.size + size.value)
    ensures Decodes(skip, take, t, s, t', total)
  {
  }

  lemma NoHead<T>(skip: Skipper, take: Taker<T>, t: T, s: Bytes, t': T)
    requires HeadOf(s) == None || HeadOf(s).value.major != MAP
    ensures Decodes(skip, take, t, s, t', None)
  {
  }

  /** One turn of the decoding loop, with s', count' and prev' what is left after it. */
  lemma TakeOne<T>(read: Reader<Entry>, take: Taker<T>, t: T, s: Bytes, e: Parsed<Entry>, s': Bytes, count: nat, count': nat,
                   prev: Option<Bytes>, prev': Option<Bytes>)
    requires count > 0 && read(s) == Some(e) && e.size <= |s|
    requires s' == s[e.size..] && count' == count - 1 && prev' == Some(e.value.key)
    ensures prev.Some? && !KeyLess(prev.value, e.value.key) ==> Rest(read, take, t, s, count, prev) == None
    ensures take(t, e.value) == None ==> Rest(read, take, t, s, count, prev) == None
    ensures (prev.Some? ==> KeyLess(prev.value, e.value.key)) && take(t, e.value).Some? ==>
            Rest(read, take, t, s, count, prev) == Shift(Rest(read, take, take(t, e.value).value, s', count', prev'), e.size)
  {
  }

  lemma NothingToTake<T>(read: Reader<Entry>, take: Taker<T>, t: T, s: Bytes, count: nat, prev: Option<Bytes>)
    requires count > 0 && read(s) == None
    ensures Rest(read, take, t, s, count, prev) == None
  {
  }

  /** A value is a text string exactly if one can be read there. */
  lemma TextValue(skip: Skipper, s: Bytes)
    requires Lawful(skip)
    ensures var x := ReadText(s);
      && (x.Some? ==> skip(s) == Some(x.value.size) && TextOf(s[..x.value.size]) == Some(x.value.value))
      && (x == None && skip(s).Some? ==> skip(s).value <= |s| && TextOf(s[..skip(s).value]) == None)
  {
    var x := ReadText(s);
    if x.Some? {
      TextIsCanonical(s);
      TextOfEncode(x.value.value);
    } else if skip(s).Some? {
      var v, t := s[..skip(s).value], s[skip(s).value..];
      assert s == v + t;
      if TextOf(v).Some? {
        TextOfIsCanonical(v);
        TextRoundTrip(TextOf(v).value, t);
      }
    }
  }

  /** A value is null exactly if its first byte says so. */
  lemma NullValue(skip: Skipper, s: Bytes)
    requires Lawful(skip)
    ensures s != [] && s[0] == NULL[0] ==> skip(s) == Some(1) && s[..1] == NULL
    ensures skip(s).Some? && (s == [] || s[0] != NULL[0]) ==> skip(s).value <= |s| && s[..skip(s).value] != NULL
  {
  }

  // ---- gathering ---------------------------------------------------------

  /** `gather` says of all the entries at once what taking them one by one comes to. */
  ghost predicate Gathers<T(!new)>(take: Taker<T>, gather: (T, seq<Entry>) -> Option<T>) {
    && (forall t :: gather(t, []) == Some(t))
    && (forall t, e: Entry, es: seq<Entry> {:trigger gather(t, [e] + es)} :: Ascending(es, Some(e.key)) ==>
          gather(t, [e] + es) == match take(t, e) case None => None case Some(next) => gather(next, es))
  }

  lemma {:induction false} TakingGathers<T(!new)>(take: Taker<T>, gather: (T, seq<Entry>) -> Option<T>, t: T, es: seq<Entry>, prev: Option<Bytes>)
    requires Gathers(take, gather) && Ascending(es, prev)
    ensures TakeAll(take, t, es) == gather(t, es)
    decreases |es|
  {
    if es != [] {
      assert es == [es[0]] + es[1..];
      if take(t, es[0]).Some? {
        TakingGathers(take, gather, take(t, es[0]).value, es[1..], Some(es[0].key));
      }
    }
  }

  // ---- turns of the loop -------------------------------------------------

  /** The value at the front of s, taken under `key`, turns t into t'; without a size, there is
      no value or it was refused. */
  ghost predicate Took<T>(skip: Skipper, take: Taker<T>, t: T, s: Bytes, key: Short, t': T, size: Option<nat>) {
    match size
    case Some(n) => skip(s) == Some(n) && n <= |s| && take(t, Entry(key, s[..n])) == Some(t')
    case None => skip(s) == None || (skip(s).value <= |s| && take(t, Entry(key, s[..skip(s).value])) == None)
  }

  /** Where the loop that reads `count0` pairs from s0 into t0 has got to: what it is to return
      is what is left to do, shifted by the `done` bytes behind it. */
  ghost predicate OnCourse<T>(skip: Skipper, take: Taker<T>, t0: T, s0: Bytes, count0: nat, t: T, s: Bytes, count: nat,
                              prev: Option<Bytes>, done: nat) {
    Rest(EntryReader(skip), take, t0, s0, count0, None) == Shift(Rest(EntryReader(skip), take, t, s, count, prev), done)
  }

  lemma Starts<T>(skip: Skipper, take: Taker<T>, t: T, s: Bytes, count: nat)
    ensures OnCourse(skip, take, t, s, count, t, s, count, None, 0)
  {
  }

  lemma Ends<T>(skip: Skipper, take: Taker<T>, t0: T, s0: Bytes, count0: nat, t: T, s: Bytes, prev: Option<Bytes>, done: nat, size: Option<nat>)
    requires OnCourse(skip, take, t0, s0, count0, t, s, 0, prev, done) && size == Some(done)
    ensures PairsDecode(skip, take, t0, s0, count0, t, size)
  {
  }

  lemma NoKey<T>(skip: Skipper, take: Taker<T>, t0: T, s0: Bytes, count0: nat, t: T, s: Bytes, count: nat, prev: Option<Bytes>, done: nat)
    requires OnCourse(skip, take, t0, s0, count0, t, s, count, prev, done) && count > 0 && ReadText(s) == None
    ensures PairsDecode(skip, take, t0, s0, count0, t, None)
  {
  }

  lemma OutOfOrder<T>(skip: Skipper, take: Taker<T>, t0: T, s0: Bytes, count0: nat, t: T, s: Bytes, count: nat, prev: Option<Bytes>, done: nat)
    requires OnCourse(skip, take, t0, s0, count0, t, s, count, prev, done) && count > 0
    requires ReadText(s).Some? && prev.Some? && !KeyLess(prev.value, ReadText(s).value.value)
    ensures PairsDecode(skip, take, t0, s0, count0, t, None)
  {
  }

  lemma Refused<T>(skip: Skipper, take: Taker<T>, t0: T, s0: Bytes, count0: nat, t: T, s: Bytes, k: Parsed<Short>, v: Bytes, t': T, count: nat,
                   prev: Option<Bytes>, done: nat)
    requires OnCourse(skip, take, t0, s0, count0, t, s, count, prev, done) && count > 0
    requires ReadText(s) == Some(k) && v == s[k.size..] && Took(skip, take, t, v, k.value, t', None)
    ensures PairsDecode(skip, take, t0, s0, count0, t', None)
  {
    if skip(v) == None {
      NothingToTake(EntryReader(skip), take, t, s, count, prev);
    } else {
      ReadEntryParts(skip, s, k, v, skip(v).value);
      var e := ReadEntry(skip, s).value;
      TakeOne(EntryReader(skip), take, t, s, e, s[e.size..], count, count - 1, prev, Some(k.value));
    }
  }

  lemma Taken<T>(skip: Skipper, take: Taker<T>, t0: T, s0: Bytes, count0: nat, t: T, s: Bytes, k: Parsed<Short>, v: Bytes, n: nat, t': T,
                 count: nat, prev: Option<Bytes>, done: nat, s': Bytes, count': nat, prev': Option<Bytes>, done': nat)
    requires OnCourse(skip, take, t0, s0, count0, t, s, count, prev, done) && count > 0
    requires ReadText(s) == Some(k) && (prev.Some? ==> KeyLess(prev.value, k.value))
    requires v == s[k.size..] && Took(skip, take, t, v, k.value, t', Some(n))
    requires s' == v[n..] && count' == count - 1 && prev' == Some(k.value) && done' == done + k.size + n
    ensures OnCourse(skip, take, t0, s0, count0, t', s', count', prev', done')
  {
    var size: nat := k.size + n;
    var e := Parsed(Entry(k.value, v[..n]), size);
    ReadEntryParts(skip, s, k, v, n);
    assert s' == s[size..];
    TakeOne(EntryReader(skip), take, t, s, e, s', count, count', prev, prev');
    ShiftTwice(Rest(EntryReader(skip), take, t', s', count', prev'), size, done, done');
  }

  lemma ShiftTwice<T>(r: Option<Parsed<T>>, a: nat, b: nat, sum: nat)
    requires sum == b + a
    ensures Shift(Shift(r, a), b) == Shift(r, sum)
  {
  }

  // ---- fields ------------------------------------------------------------

  /** A text field after decoding: what was found under its key, or what it was. */
  function TextField(was: Short, found: Option<Bytes>): Option<Short> {
    if found == None then Some(was) else TextOf(found.value)
  }

  lemma TextFieldBack(was: Short, x: Short)
    ensures TextField(was, Some(EncodeText(x))) == Some(x)
  {
    TextOfEncode(x);
  }

  lemma TextFieldWas(was: Short, found: Option<Bytes>)
    requires TextField(was, found).Some?
    ensures found.Some? ==> found == Some(EncodeText(TextField(was, found).value))
  {
    if found.Some? { TextOfIsCanonical(found.value); }
  }

  /** The type name, left out when empty. */
  function TypeName(typeId: Short): Option<Bytes> {
    if typeId == [] then None else Some(EncodeText(typeId))
  }

  lemma TypeNameWas(found: Option<Bytes>)
    requires TextField([], found).Some?
    ensures found != Some(EncodeText([])) <==> found == TypeName(TextField([], found).value)
  {
    TextFieldWas([], found);
    TextOfEncode([]);
  }
}
