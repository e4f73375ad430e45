/** Data items byte by byte, from RFC 8949 section 3 in numerals: what the encoders write and
    what the skipper accepts, said without the constants of either. */
module Wire {
  import opened Wrappers
  import opened Lex
  import opened Cbor
  import opened Codec
  import opened CborMaps

  const WIDE := 0x1_0000_0000_0000_0000

  type Lead = n: int | n in {0x00, 0x20, 0x40, 0x60, 0x80, 0xa0, 0xc0}

  /** The first byte with the argument n in the fewest bytes that hold it, most significant
      byte first. */
  function Headed(lead: Lead, n: nat): Bytes
    requires n < WIDE
  {
    if n < 24 then [lead + n]
    else if n < 0x100 then [lead + 0x18, n]
    else if n < 0x1_0000 then [lead + 0x19, n / 0x100, n % 0x100]
    else if n < 0x1_0000_0000 then
      [lead + 0x1a, n / 0x100_0000, n / 0x1_0000 % 0x100, n / 0x100 % 0x100, n % 0x100]
    else
      [lead + 0x1b, n / 0x100_0000_0000_0000 % 0x100, n / 0x1_0000_0000_0000 % 0x100, n / 0x100_0000_0000 % 0x100, n / 0x1_0000_0000 % 0x100,
       n / 0x100_0000 % 0x100, n / 0x1_0000 % 0x100, n / 0x100 % 0x100, n % 0x100]
  }

  lemma DivTwice(n: nat, d: nat)
    requires d > 0
    ensures n / 256 / d == n / (256 * d)
  {
    var q, r := n / 256 / d, n / 256 % d;
    assert n / 256 == q * d + r;
    assert n == (q * d + r) * 256 + n % 256;
    assert n == q * (256 * d) + (r * 256 + n % 256);
    QuotientIs(n, 256 * d, q, r * 256 + n % 256);
  }

  lemma QuotientIs(n: nat, d: nat, q: nat, r: nat)
    requires d > 0 && n == q * d + r && r < d
    ensures n / d == q
  {
    var q', r' := n / d, n % d;
    assert n == q' * d + r';
    if q' < q { AtLeastOnce(q - q', d); Spread(q, q', d); }
    if q < q' { AtLeastOnce(q' - q, d); Spread(q', q, d); }
  }

  lemma Spread(a: int, b: int, d: int)
    ensures (a - b) * d == a * d - b * d
  {
  }

  lemma AtLeastOnce(a: int, d: nat)
    requires a >= 1
    ensures a * d >= d
  {
  }

  /** The byte at each place of a big-endian number. */
  lemma {:induction false} BigEndianAt(n: nat, width: nat, k: nat, p: nat)
    requires k < width && p == Power(width - 1 - k)
    ensures p > 0 && BigEndian(n, width)[k] == n / p % 256
  {
    PowerPositive(width - 1 - k);
    if k < width - 1 {
      BigEndianAt(n / 256, width - 1, k, Power(width - 2 - k));
      DivTwice(n, Power(width - 2 - k));
    }
  }

  lemma {:induction false} PowerPositive(k: nat)
    ensures Power(k) > 0
  {
    if k > 0 { PowerPositive(k - 1); }
  }

  lemma WideOnWire(n: nat)
    requires n < WIDE
    ensures BigEndian(n, 8) ==
            [n / 0x100_0000_0000_0000 % 0x100, n / 0x1_0000_0000_0000 % 0x100, n / 0x100_0000_0000 % 0x100, n / 0x1_0000_0000 % 0x100,
             n / 0x100_0000 % 0x100, n / 0x1_0000 % 0x100, n / 0x100 % 0x100, n % 0x100]
  {
    var s := BigEndian(n, 8);
    PlaceAt(s, n, 8, 0, 0x100_0000_0000_0000);
    PlaceAt(s, n, 8, 1, 0x1_0000_0000_0000);
    PlaceAt(s, n, 8, 2, 0x100_0000_0000);
    PlaceAt(s, n, 8, 3, 0x1_0000_0000);
    PlaceAt(s, n, 8, 4, 0x100_0000);
    PlaceAt(s, n, 8, 5, 0x1_0000);
    PlaceAt(s, n, 8, 6, 0x100);
    PlaceAt(s, n, 8, 7, 1);
    EightBytes(s, s[0], s[1], s[2], s[3], s[4], s[5], s[6], s[7]);
  }

  lemma EightBytes(s: Bytes, b0: byte, b1: byte, b2: byte, b3: byte, b4: byte, b5: byte, b6: byte, b7: byte)
    requires |s| == 8 && s[0] == b0 && s[1] == b1 && s[2] == b2 && s[3] == b3 && s[4] == b4 && s[5] == b5 && s[6] == b6 && s[7] == b7
    ensures s == [b0, b1, b2, b3, b4, b5, b6, b7]
  {
  }

  /** The same, with the power of 256 in numerals. */
  lemma PlaceAt(s: Bytes, n: nat, width: nat, k: nat, p: nat)
    requires s == BigEndian(n, width) && k < width <= 8 && p == [1, 0x100, 0x1_0000, 0x100_0000, 0x1_0000_0000,
      0x100_0000_0000, 0x1_0000_0000_0000, 0x100_0000_0000_0000][width - 1 - k]
    ensures |s| == width && s[k] == n / p % 0x100
  {
    PowersInNumerals();
    BigEndianAt(n, width, k, p);
  }

  lemma FourOnWire(n: nat)
    requires n < 0x1_0000_0000
    ensures BigEndian(n, 4) == [n / 0x100_0000, n / 0x1_0000 % 0x100, n / 0x100 % 0x100, n % 0x100]
  {
    var s := BigEndian(n, 4);
    PlaceAt(s, n, 4, 0, 0x100_0000);
    PlaceAt(s, n, 4, 1, 0x1_0000);
    PlaceAt(s, n, 4, 2, 0x100);
    PlaceAt(s, n, 4, 3, 1);
  }

  lemma OneOnWire(n: nat)
    requires n < 0x100
    ensures BigEndian(n, 1) == [n]
  {
    assert BigEndian(n / 0x100, 0) == [];
  }

  lemma TwoOnWire(n: nat)
    requires n < 0x1_0000
    ensures BigEndian(n, 2) == [n / 0x100, n % 0x100]
  {
    OneOnWire(n / 0x100);
  }

  lemma PowersInNumerals()
    ensures Power(0) == 1 && Power(1) == 0x100 && Power(2) == 0x1_0000 && Power(3) == 0x100_0000 && Power(4) == 0x1_0000_0000
    ensures Power(5) == 0x100_0000_0000 && Power(6) == 0x1_0000_0000_0000 && Power(7) == 0x100_0000_0000_0000
  {
  }

  /** What an encoder writes for a head. */
  lemma HeadOnWire(major: int, lead: Lead, n: nat)
    requires lead == 32 * major && n < WIDE
    ensures EncodeHead(major, n) == Headed(lead, n)
  {
    if n >= 0x1_0000_0000 {
      WideOnWire(n);
    } else if n >= 0x1_0000 {
      FourOnWire(n);
    } else if n >= 0x100 {
      TwoOnWire(n);
    } else {
      OneOnWire(n);
    }
  }

  // ---- data items --------------------------------------------------------

  /** A data item.  A map holds keys and values in turn; a float has two, four or eight bytes. */
  datatype Item =
    | Unsigned(n: nat)
    | Negative(n: nat)
    | ByteString(bytes: Bytes)
    | TextString(bytes: Bytes)
    | Array(items: seq<Item>)
    | Map(items: seq<Item>)
    | Tag(n: nat, item: Item)
    | Simple(value: byte)
    | Float(bytes: Bytes)

  ghost predicate Good(i: Item) {
    match i
    case Unsigned(n) => n < WIDE
    case Negative(n) => n < WIDE
    case ByteString(b) => |b| < WIDE
    case TextString(b) => |b| < WIDE
    case Array(items) => |items| < WIDE && AllGood(items)
    case Map(items) => |items| % 2 == 0 && |items| / 2 < WIDE && AllGood(items)
    case Tag(n, item) => n < WIDE && Good(item)
    case Simple(v) => v < 24 || v >= 32
    case Float(b) => |b| in {2, 4, 8}
  }

  ghost predicate AllGood(items: seq<Item>) {
    items == [] || (Good(items[0]) && AllGood(items[1..]))
  }

  ghost function Spelled(i: Item): Bytes
    requires Good(i)
  {
    match i
    case Unsigned(n) => Headed(0x00, n)
    case Negative(n) => Headed(0x20, n)
    case ByteString(b) => Headed(0x40, |b|) + b
    case TextString(b) => Headed(0x60, |b|) + b
    case Array(items) => Headed(0x80, |items|) + SpelledAll(items)
    case Map(items) => Headed(0xa0, |items| / 2) + SpelledAll(items)
    case Tag(n, item) => Headed(0xc0, n) + Spelled(item)
    case Simple(v) => if v < 24 then [0xe0 + v] else [0xf8, v]
    case Float(b) => [if |b| == 2 then 0xf9 else if |b| == 4 then 0xfa else 0xfb] + b
  }

  ghost function SpelledAll(items: seq<Item>): Bytes
    requires AllGood(items)
  {
    if items == [] then [] else Spelled(items[0]) + SpelledAll(items[1..])
  }

  // ---- the skipper accepts the items, and nothing else -------------------

  lemma HeadSkips(s: Bytes, major: int, lead: Lead, n: nat, t: Bytes)
    requires lead == 32 * major && n < WIDE && s == Headed(lead, n) + t
    ensures HeadOf(s) == Some(Head(major, n, |Headed(lead, n)|)) && s != [] && s[0] / 32 == major && s[|Headed(lead, n)|..] == t
  {
    HeadOnWire(major, lead, n);
    HeadRoundTrip(major, n, t);
  }

  lemma StringIsSkipped(s: Bytes, major: int, lead: Lead, b: Bytes, t: Bytes)
    requires lead == 32 * major && major in {2, 3} && |b| < WIDE && s == Headed(lead, |b|) + b + t
    ensures ItemSize(s) == Some(|Headed(lead, |b|)| + |b|)
  {
    assert s == Headed(lead, |b|) + (b + t);
    HeadSkips(s, major, lead, |b|, b + t);
  }

  lemma NestIsSkipped(s: Bytes, major: int, lead: Lead, n: nat, body: Bytes, t: Bytes, count: nat)
    requires lead == 32 * major && major in {4, 5, 6} && n < WIDE && s == Headed(lead, n) + body + t
    requires count == (if major == 4 then n else if major == 5 then 2 * n else 1) && ItemsSize(body + t, count) == Some(|body|)
    ensures ItemSize(s) == Some(|Headed(lead, n)| + |body|)
  {
    assert s == Headed(lead, n) + (body + t);
    HeadSkips(s, major, lead, n, body + t);
  }

  /** An item that was written is found to end where it ends, whatever follows. */
  lemma {:induction false} ItemIsSkipped(i: Item, t: Bytes)
    requires Good(i)
    ensures ItemSize(Spelled(i) + t) == Some(|Spelled(i)|)
    decreases i, 0
  {
    var s := Spelled(i) + t;
    match i
    case Unsigned(n) => HeadSkips(s, 0, 0x00, n, t);
    case Negative(n) => HeadSkips(s, 1, 0x20, n, t);
    case ByteString(b) => StringIsSkipped(s, 2, 0x40, b, t);
    case TextString(b) => StringIsSkipped(s, 3, 0x60, b, t);
    case Array(items) =>
      ItemsAreSkipped(items, t);
      NestIsSkipped(s, 4, 0x80, |items|, SpelledAll(items), t, |items|);
    case Map(items) =>
      ItemsAreSkipped(items, t);
      NestIsSkipped(s, 5, 0xa0, |items| / 2, SpelledAll(items), t, |items|);
    case Tag(n, item) =>
      ItemIsSkipped(item, t);
      OneItem(Spelled(item) + t);
      NestIsSkipped(s, 6, 0xc0, n, Spelled(item), t, 1);
    case Simple(v) =>
    case Float(b) =>
  }

  lemma OneItem(s: Bytes)
    requires ItemSize(s).Some?
    ensures ItemsSize(s, 1) == ItemSize(s)
  {
    assert ItemsSize(s[ItemSize(s).value..], 0) == Some(0);
  }

  lemma {:induction false} ItemsAreSkipped(items: seq<Item>, t: Bytes)
    requires AllGood(items)
    ensures ItemsSize(SpelledAll(items) + t, |items|) == Some(|SpelledAll(items)|)
    decreases items, 1
  {
    if items != [] {
      var first, rest := Spelled(items[0]), SpelledAll(items[1..]);
      assert SpelledAll(items) + t == first + (rest + t);
      ItemIsSkipped(items[0], rest + t);
      ItemsAreSkipped(items[1..], t);
      assert (first + (rest + t))[|first|..] == rest + t;
      ItemsStep(first + (rest + t), |first|, |items|);
    }
  }

  lemma HeadWasWritten(s: Bytes, lead: Lead)
    requires HeadOf(s).Some? && lead == 32 * HeadOf(s).value.major
    ensures var h := HeadOf(s).value; h.size <= |s| && s[..h.size] == Headed(lead, h.argument)
  {
    HeadIsCanonical(s);
    HeadOnWire(HeadOf(s).value.major, lead, HeadOf(s).value.argument);
  }

  lemma SimpleIsItem(s: Bytes) returns (i: Item)
    requires s != [] && s[0] / 32 == 7 && ItemSize(s).Some?
    ensures Good(i) && Spelled(i) == s[..ItemSize(s).value]
  {
    var info := s[0] % 32;
    if info < 24 {
      i := Simple(info);
    } else if info == 24 {
      i := Simple(s[1]);
    } else {
      i := Float(s[1..ItemSize(s).value]);
    }
    assert s[..ItemSize(s).value] == [s[0]] + s[1..ItemSize(s).value];
  }

  lemma LeadOf(major: int) returns (lead: Lead)
    requires 0 <= major < 7
    ensures lead == 32 * major
  {
    lead := 32 * major;
  }

  /** Whatever the skipper takes for a value is an item as the standard writes it. */
  lemma {:induction false} SkippedIsItem(s: Bytes) returns (i: Item)
    requires ItemSize(s).Some?
    ensures Good(i) && Spelled(i) == s[..ItemSize(s).value]
    decreases |s|, 0
  {
    if s[0] / 32 == 7 {
      i := SimpleIsItem(s);
      return;
    }
    var h := HeadOf(s).value;
    var lead := LeadOf(h.major);
    HeadWasWritten(s, lead);
    if h.major < 2 {
      i := if h.major == 0 then Unsigned(h.argument) else Negative(h.argument);
    } else if h.major < 4 {
      Splits(s, h.size, h.argument);
      var b := s[h.size..][..h.argument];
      i := if h.major == 2 then ByteString(b) else TextString(b);
    } else {
      var items := SkippedAreItems(s[h.size..], Children(h));
      i := Nested(s, h, lead, items);
    }
  }

  lemma Nested(s: Bytes, h: Head, lead: Lead, items: seq<Item>) returns (i: Item)
    requires HeadOf(s) == Some(h) && 4 <= h.major < 7 && lead == 32 * h.major && s[..h.size] == Headed(lead, h.argument)
    requires ItemsSize(s[h.size..], Children(h)).Some? && |items| == Children(h) && AllGood(items)
    requires SpelledAll(items) == s[h.size..][..ItemsSize(s[h.size..], Children(h)).value]
    ensures ItemSize(s).Some? && Good(i) && Spelled(i) == s[..ItemSize(s).value]
  {
    Splits(s, h.size, ItemsSize(s[h.size..], Children(h)).value);
    if h.major == 4 {
      i := Array(items);
    } else if h.major == 5 {
      i := Map(items);
    } else {
      i := Tag(h.argument, items[0]);
      assert items[1..] == [];
    }
  }

  lemma {:induction false} SkippedAreItems(s: Bytes, count: nat) returns (items: seq<Item>)
    requires ItemsSize(s, count).Some?
    ensures |items| == count && AllGood(items) && SpelledAll(items) == s[..ItemsSize(s, count).value]
    decreases |s|, count + 1
  {
    if count == 0 {
      items := [];
    } else {
      var k := ItemSize(s).value;
      var first := SkippedIsItem(s);
      var rest := SkippedAreItems(s[k..], count - 1);
      items := [first] + rest;
      assert items[1..] == rest;
      Splits(s, k, ItemsSize(s[k..], count - 1).value);
    }
  }

  /** What the skipper takes off the front is an item of the standard, and every item is taken. */
  lemma SkipsExactlyItems(s: Bytes, n: nat)
    ensures ItemSize(s) == Some(n) <==> n <= |s| && exists i :: Good(i) && Spelled(i) == s[..n]
  {
    if ItemSize(s) == Some(n) { var i := SkippedIsItem(s); }
    if n <= |s| {
      if i :| Good(i) && Spelled(i) == s[..n] {
        ItemIsSkipped(i, s[n..]);
        assert s == s[..n] + s[n..];
      }
    }
  }

  // ---- text strings and entries ------------------------------------------

  function Text(x: Short): Bytes {
    Headed(0x60, |x|) + x
  }

  lemma TextOnWire(x: Short)
    ensures EncodeText(x) == Text(x)
  {
    HeadOnWire(3, 0x60, |x|);
  }

  /** A text string is read exactly where one stands. */
  lemma TextIsReadIff(s: Bytes, x: Short)
    ensures (ReadText(s).Some? && ReadText(s).value.value == x) <==> Text(x) <= s
    ensures Text(x) <= s ==> ReadText(s) == Some(Parsed(x, |Text(x)|))
  {
    TextOnWire(x);
    if ReadText(s).Some? && ReadText(s).value.value == x {
      TextIsCanonical(s);
    }
    if Text(x) <= s {
      TextRoundTrip(x, s[|Text(x)|..]);
      assert s == Text(x) + s[|Text(x)|..];
    }
  }

  /** Entries one after the other, each with its key as a text string. */
  function Others(es: seq<Entry>): Bytes {
    if es == [] then [] else Text(es[0].key) + es[0].value + Others(es[1..])
  }

  lemma {:induction false} EntriesOnWire(es: seq<Entry>)
    ensures WriteMany(EncodeEntry, es) == Others(es)
  {
    if es != [] {
      TextOnWire(es[0].key);
      EntriesOnWire(es[1..]);
    }
  }

  /** A map is its header and its entries. */
  lemma MapOnWire(es: seq<Entry>)
    requires |es| < WIDE
    ensures EncodeMap(es) == Headed(0xa0, |es|) + Others(es)
  {
    HeadOnWire(5, 0xa0, |es|);
    EntriesOnWire(es);
  }

  /** Null is one byte, and no text. */
  lemma NullOnWire()
    ensures NULL == [0xf6] && TextOf([0xf6]) == None
  {
  }
}
