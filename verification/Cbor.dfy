/** CBOR data items as RFC 8949 section 3 defines them, with definite lengths, lengths in
    their shortest form (section 4.2.1) and map keys ordered length first (section 4.2.3). */
module Cbor {
  import opened Wrappers
  import opened Lex
  import opened Codec

  /** Bytes whose number fits a head. */
  type Short = s: Bytes | |s| < LIMIT

  const UNSIGNED := 0
  const NEGATIVE := 1
  const TEXT := 3
  const ARRAY := 4
  const MAP := 5
  const SIMPLE := 7

  /** The single byte of null. */
  const NULL: Bytes := [0xf6]

  // ---- heads -------------------------------------------------------------

  /** Big-endian bytes. */
  function BigEndian(n: nat, width: nat): (s: Bytes)
    ensures |s| == width
  {
    if width == 0 then [] else BigEndian(n / 256, width - 1) + [n % 256]
  }

  function Number(s: Bytes): nat {
    if s == [] then 0 else Number(s[..|s| - 1]) * 256 + s[|s| - 1]
  }

  function Power(k: nat): nat {
    if k == 0 then 1 else 256 * Power(k - 1)
  }

  lemma {:induction false} NumberOfBigEndian(n: nat, width: nat)
    requires n < Power(width)
    ensures Number(BigEndian(n, width)) == n
  {
    if width > 0 {
      NumberOfBigEndian(n / 256, width - 1);
      var s := BigEndian(n, width);
      assert s[..|s| - 1] == BigEndian(n / 256, width - 1);
    }
  }

  lemma {:induction false} BigEndianOfNumber(s: Bytes)
    ensures BigEndian(Number(s), |s|) == s && Number(s) < Power(|s|)
  {
    if s != [] {
      BigEndianOfNumber(s[..|s| - 1]);
      assert s == s[..|s| - 1] + [s[|s| - 1]];
    }
  }

  lemma Powers()
    ensures Power(1) == 0x100 && Power(2) == 0x1_0000 && Power(4) == 0x1_0000_0000 && Power(8) == 0x1_0000_0000_0000_0000
  {
  }

  const LIMIT := 0x1_0000_0000_0000_0000

  /** Bytes that follow the initial byte. */
  function Width(info: int): nat {
    if info == 24 then 1 else if info == 25 then 2 else if info == 26 then 4 else if info == 27 then 8 else 0
  }

  /** The least argument that needs that form. */
  function Least(info: int): nat {
    if info == 24 then 24 else if info == 25 then 0x100 else if info == 26 then 0x1_0000 else if info == 27 then 0x1_0000_0000 else 0
  }

  function InfoFor(n: nat): (info: int)
    requires n < LIMIT
    ensures 0 <= info <= 27 && Least(info) <= n && (info < 24 ==> info == n)
  {
    if n < 24 then n else if n < 0x100 then 24 else if n < 0x1_0000 then 25 else if n < 0x1_0000_0000 then 26 else 27
  }

  function EncodeHead(major: int, n: nat): (s: Bytes)
    requires 0 <= major < 8 && n < LIMIT
    ensures |s| == 1 + Width(InfoFor(n))
  {
    [major * 32 + InfoFor(n)] + BigEndian(n, Width(InfoFor(n)))
  }

  datatype Head = Head(major: int, argument: nat, size: nat)

  /** The initial byte and its argument; indefinite lengths and longer forms than needed are
      not accepted. */
  function HeadOf(s: Bytes): (h: Option<Head>)
    ensures h.Some? ==> 0 < h.value.size <= |s| && h.value.major == s[0] / 32 && h.value.argument < LIMIT
  {
    if s == [] then None
    else
      var major, info := s[0] / 32, s[0] % 32;
      if info < 24 then Some(Head(major, info, 1))
      else if info > 27 || |s| < 1 + Width(info) then None
      else
        var n := Number(s[1..1 + Width(info)]);
        Powers();
        BigEndianOfNumber(s[1..1 + Width(info)]);
        if n < Least(info) then None else Some(Head(major, n, 1 + Width(info)))
  }

  lemma HeadRoundTrip(major: int, n: nat, t: Bytes)
    requires 0 <= major < 8 && n < LIMIT
    ensures HeadOf(EncodeHead(major, n) + t) == Some(Head(major, n, |EncodeHead(major, n)|))
  {
    var info := InfoFor(n);
    var s := EncodeHead(major, n) + t;
    assert s[0] == major * 32 + info;
    assert s[1..1 + Width(info)] == BigEndian(n, Width(info));
    if n >= 24 {
      Powers();
      NumberOfBigEndian(n, Width(info));
    }
  }

  lemma HeadIsCanonical(s: Bytes)
    requires HeadOf(s).Some?
    ensures var h := HeadOf(s).value; s[..h.size] == EncodeHead(h.major, h.argument)
  {
    var h, info := HeadOf(s).value, s[0] % 32;
    var rest := s[1..h.size];
    assert s[..h.size] == [s[0]] + rest;
    assert s[0] == h.major * 32 + info;
    if info >= 24 {
      Powers();
      BigEndianOfNumber(rest);
    } else {
      assert rest == [];
    }
    assert InfoFor(h.argument) == info && BigEndian(h.argument, Width(info)) == rest;
  }

  /** A head is read from its own bytes alone. */
  lemma HeadIsLocal(s: Bytes, t: Bytes)
    requires HeadOf(s).Some? && HeadOf(s).value.size <= |t| && t[..HeadOf(s).value.size] == s[..HeadOf(s).value.size]
    ensures HeadOf(t) == HeadOf(s)
  {
  }

  // ---- items -------------------------------------------------------------

  /** The length of a floating-point number or a simple value. */
  function SimpleSize(s: Bytes): (n: Option<nat>)
    requires s != []
    ensures n.Some? ==> 0 < n.value <= |s|
  {
    var info := s[0] % 32;
    if info < 24 then Some(1)
    else if info > 27 || |s| < 1 + Width(info) || (info == 24 && s[1] < 32) then None
    else Some(1 + Width(info))
  }

  /** The items that follow the head of an array, a map or a tag. */
  function Children(h: Head): nat {
    if h.major == ARRAY then h.argument else if h.major == MAP then 2 * h.argument else 1
  }

  /** The length of the data item at the front, if a well-formed one is there. */
  function ItemSize(s: Bytes): (n: Option<nat>)
    ensures n.Some? ==> 0 < n.value <= |s|
    decreases |s|, 0
  {
    if s == [] then None
    else if s[0] / 32 == SIMPLE then SimpleSize(s)
    else
      match HeadOf(s)
      case None => None
      case Some(h) =>
        if h.major < 2 then Some(h.size)
        else if h.major < 4 then
          if h.argument > |s| - h.size then None else Some(h.size + h.argument)
        else
          match ItemsSize(s[h.size..], Children(h))
          case None => None
          case Some(n) => Some(h.size + n)
  }

  /** The length of the first `count` items. */
  function ItemsSize(s: Bytes, count: nat): (n: Option<nat>)
    ensures n.Some? ==> n.value <= |s|
    decreases |s|, count + 1
  {
    if count == 0 then Some(0)
    else
      match ItemSize(s)
      case None => None
      case Some(k) =>
        match ItemsSize(s[k..], count - 1)
        case None => None
        case Some(n) => Some(k + n)
  }

  /** Agreement on a prefix, cut at `a`. */
  lemma Cut(s: Bytes, t: Bytes, n: nat, a: nat)
    requires a <= n <= |s| && n <= |t| && t[..n] == s[..n]
    ensures t[..a] == s[..a] && t[a..][..n - a] == s[a..][..n - a]
  {
    assert t[..a] == t[..n][..a] && s[..a] == s[..n][..a];
    assert t[a..][..n - a] == t[..n][a..] && s[a..][..n - a] == s[..n][a..];
  }

  /** Where an item ends depends on its own bytes alone. */
  lemma {:induction false} ItemIsLocal(s: Bytes, t: Bytes)
    requires ItemSize(s).Some? && ItemSize(s).value <= |t| && t[..ItemSize(s).value] == s[..ItemSize(s).value]
    ensures ItemSize(t) == ItemSize(s)
    decreases |s|, 0
  {
    var n := ItemSize(s).value;
    assert t[0] == t[..n][0] == s[..n][0] == s[0];
    if s[0] / 32 == SIMPLE {
      if s[0] % 32 == 24 { assert t[1] == t[..n][1] == s[..n][1] == s[1]; }
    } else {
      var h := HeadOf(s).value;
      Cut(s, t, n, h.size);
      HeadIsLocal(s, t);
      if h.major >= 4 { ItemsAreLocal(s[h.size..], t[h.size..], Children(h)); }
    }
  }

  lemma {:induction false} ItemsAreLocal(s: Bytes, t: Bytes, count: nat)
    requires ItemsSize(s, count).Some?
    requires ItemsSize(s, count).value <= |t| && t[..ItemsSize(s, count).value] == s[..ItemsSize(s, count).value]
    ensures ItemsSize(t, count) == ItemsSize(s, count)
    decreases |s|, count + 1
  {
    if count > 0 {
      var n, k := ItemsSize(s, count).value, ItemSize(s).value;
      Cut(s, t, n, k);
      ItemIsLocal(s, t);
      ItemsAreLocal(s[k..], t[k..], count - 1);
      ItemsStep(s, k, count);
      ItemsStep(t, k, count);
    }
  }

  lemma ItemsStep(s: Bytes, k: nat, count: nat)
    requires count > 0 && ItemSize(s) == Some(k)
    ensures ItemsSize(s, count) ==
            match ItemsSize(s[k..], count - 1)
            case None => None
            case Some(n) => Some(k + n)
  {
  }

  lemma ArrayIsItem(s: Bytes, h: Head, body: Bytes, n: nat)
    requires HeadOf(s) == Some(h) && h.major == ARRAY && body == s[h.size..] && ItemsSize(body, h.argument) == Some(n)
    ensures ItemSize(s) == Some(h.size + n)
  {
  }

  // ---- arrays ------------------------------------------------------------

  function EncodeArray<T>(write: Writer<T>, xs: seq<T>): Bytes
    requires |xs| < LIMIT
  {
    EncodeHead(ARRAY, |xs|) + WriteMany(write, xs)
  }

  /** An array header that announces no more elements than there are bytes left, and the
      elements. */
  function ReadArray<T>(read: Reader<T>, s: Bytes): (r: Option<Parsed<seq<T>>>)
    ensures r.Some? ==> 0 < r.value.size <= |s| && |r.value.value| < LIMIT
  {
    match HeadOf(s)
    case None => None
    case Some(h) =>
      if h.major != ARRAY || h.argument > |s| - h.size then None
      else
        match ReadMany(read, s[h.size..], h.argument)
        case None => None
        case Some(r) => Some(Parsed(r.value, h.size + r.size))
  }

  lemma ArrayAfterHead<T>(read: Reader<T>, head: Bytes, written: Bytes, t: Bytes, s: Bytes, xs: seq<T>)
    requires s == head + written + t && HeadOf(head + (written + t)) == Some(Head(ARRAY, |xs|, |head|)) && |xs| <= |written|
    requires ReadMany(read, written + t, |xs|) == Some(Parsed(xs, |written|))
    ensures ReadArray(read, s) == Some(Parsed(xs, |head| + |written|))
  {
    Joins(head, written, t);
  }

  lemma ArrayRoundTrip<T(!new)>(read: Reader<T>, write: Writer<T>, good: T -> bool, xs: seq<T>, t: Bytes)
    requires |xs| < LIMIT && ReadsBack(read, write, good) && All(good, xs) && |xs| <= |WriteMany(write, xs)|
    ensures ReadArray(read, EncodeArray(write, xs) + t) == Some(Parsed(xs, |EncodeArray(write, xs)|))
  {
    var head, written := EncodeHead(ARRAY, |xs|), WriteMany(write, xs);
    ManyReadBack(read, write, good, xs, t);
    HeadRoundTrip(ARRAY, |xs|, written + t);
    ArrayAfterHead(read, head, written, t, EncodeArray(write, xs) + t, xs);
  }

  lemma ArrayIsCanonical<T>(read: Reader<T>, write: Writer<T>, s: Bytes)
    requires Codec.Canonical(read, write) && ReadArray(read, s).Some?
    ensures s[..ReadArray(read, s).value.size] == EncodeArray(write, ReadArray(read, s).value.value)
  {
    var h := HeadOf(s).value;
    var r := ReadMany(read, s[h.size..], h.argument).value;
    HeadIsCanonical(s);
    ManyCanonical(read, write, s[h.size..], h.argument);
    Splits(s, h.size, r.size);
  }
}
