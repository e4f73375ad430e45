/** Records byte by byte: members under their names, and the extras between them. */
module RecordBytes {
  import opened Wrappers
  import opened Lex
  import opened Cbor
  import opened Codec
  import opened CborMaps
  import opened Records
  import opened Decoding
  import opened Weaving
  import opened Wire
  import TextForms

  // ---- pieces ------------------------------------------------------------

  /** The bytes of a name; the names here are plain ASCII. */
  function Ascii(s: string): (b: Bytes)
    ensures |b| == |s|
  {
    seq(|s|, i requires 0 <= i < |s| => s[i] as int % 256)
  }

  /** A member under a name whose length fits the first byte. */
  function Named(key: string, value: Bytes): Bytes
    requires |key| < 24
  {
    [0x60 + |key|] + Ascii(key) + value
  }

  function IfAny(key: string, x: Option<Short>): Bytes
    requires |key| < 24
  {
    if x == None then [] else Named(key, Text(x.value))
  }

  function IfNotEmpty(key: string, x: Short): Bytes
    requires |key| < 24
  {
    if x == [] then [] else Named(key, Text(x))
  }

  function Chain(parts: seq<Bytes>): Bytes {
    if parts == [] then [] else parts[0] + Chain(parts[1..])
  }

  function Flat(parts: seq<seq<Entry>>): seq<Entry> {
    if parts == [] then [] else parts[0] + Flat(parts[1..])
  }

  // ---- woven members -----------------------------------------------------

  function Member(slot: Slot): Bytes {
    if slot.value == None then [] else Text(slot.key) + slot.value.value
  }

  function Members(slots: seq<Slot>): (r: seq<Bytes>)
    ensures |r| == |slots|
  {
    if slots == [] then [] else [Member(slots[0])] + Members(slots[1..])
  }

  /** Extras and members in turn. */
  function InTurn(e: seq<seq<Entry>>, members: seq<Bytes>): Bytes
    requires |e| == |members| + 1
    decreases |members|
  {
    Others(e[0]) + if members == [] then [] else members[0] + InTurn(e[1..], members[1..])
  }

  lemma OthersJoin(a: seq<Entry>, b: seq<Entry>)
    ensures Others(a + b) == Others(a) + Others(b)
  {
    EntriesOnWire(a);
    EntriesOnWire(b);
    EntriesOnWire(a + b);
    WriteManyConcat(EncodeEntry, a, b);
  }

  lemma PresentOnWire(slot: Slot)
    ensures Others(Present(slot)) == Member(slot)
  {
    if slot.value.Some? {
      assert Others(Present(slot)) == Text(slot.key) + slot.value.value + Others([]);
    }
  }

  lemma {:induction false} SlotsOnWire(es: seq<Entry>, slots: seq<Slot>) returns (e: seq<seq<Entry>>)
    ensures |e| == |slots| + 1 && Flat(e) == es && Others(Weave(es, slots)) == InTurn(e, Members(slots))
    decreases |slots|
  {
    if slots == [] {
      e := [es];
      assert Flat(e) == es + Flat([]);
    } else {
      var before, rest := Before(es, slots[0].key), From(es, slots[0].key);
      BeforeFrom(es, slots[0].key);
      var later := SlotsOnWire(rest, slots[1..]);
      e := [before] + later;
      assert e[1..] == later && Members(slots)[1..] == Members(slots[1..]);
      OthersJoin(before + Present(slots[0]), Weave(rest, slots[1..]));
      OthersJoin(before, Present(slots[0]));
      PresentOnWire(slots[0]);
      Joins(Others(before), Member(slots[0]), Others(Weave(rest, slots[1..])));
    }
  }

  lemma FlatOfNothing(e: seq<seq<Entry>>)
    requires Flat(e) == []
    ensures forall i :: 0 <= i < |e| ==> e[i] == []
    decreases |e|
  {
    if e != [] {
      FlatOfNothing(e[1..]);
      assert forall i :: 1 <= i < |e| ==> e[i] == e[1..][i - 1];
    }
  }

  /** With no extras the members follow one another. */
  lemma {:induction false} InTurnAlone(e: seq<seq<Entry>>, members: seq<Bytes>)
    requires |e| == |members| + 1 && forall i :: 0 <= i < |e| ==> e[i] == []
    ensures InTurn(e, members) == Chain(members)
    decreases |members|
  {
    if members != [] { InTurnAlone(e[1..], members[1..]); }
  }

  lemma NamedText(key: string, k: Short, x: Short)
    requires |key| < 24 && k == Ascii(key)
    ensures Member(Slot(k, Some(EncodeText(x)))) == Named(key, Text(x))
  {
    TextOnWire(x);
  }

  lemma TypeMember(key: string, k: Short, x: Short)
    requires |key| < 24 && k == Ascii(key)
    ensures Member(Slot(k, TypeName(x))) == IfNotEmpty(key, x)
  {
    NamedText(key, k, x);
  }

  lemma {:induction false} MembersAt(slots: seq<Slot>, i: nat)
    requires i < |slots|
    ensures Members(slots)[i] == Member(slots[i])
  {
    if i > 0 { MembersAt(slots[1..], i - 1); }
  }

  // ---- the order of keys -------------------------------------------------

  /** The shorter key first, and of two keys of one length the one with the lesser byte where they
      first differ. */
  lemma KeyLessMeans(a: Bytes, b: Bytes)
    ensures KeyLess(a, b) <==>
            |a| < |b| || (|a| == |b| && exists k :: 0 <= k < |a| && a[..k] == b[..k] && a[k] < b[k])
  {
    TextForms.LessMeans(a, b);
  }

  lemma {:induction false} InOrder(es: seq<Entry>, prev: Option<Bytes>, i: nat, j: nat)
    requires Ascending(es, prev) && i < j < |es|
    ensures KeyLess(es[i].key, es[j].key)
  {
    if i == 0 {
      assert es[j] in es[1..] by { assert es[j] == es[1..][j - 1]; }
      AllAfter(es[1..], es[0].key, es[j]);
    } else {
      InOrder(es[1..], Some(es[0].key), i - 1, j - 1);
    }
  }

  // ---- members that were read --------------------------------------------

  /** A value stands under a name. */
  predicate Stands(es: seq<Entry>, key: string, v: Bytes) {
    exists i :: 0 <= i < |es| && es[i].key == Ascii(key) && es[i].value == v
  }

  predicate Absent(es: seq<Entry>, key: string) {
    forall i :: 0 <= i < |es| ==> es[i].key != Ascii(key)
  }

  lemma FoundStands(es: seq<Entry>, key: string, k: Short)
    requires Ascending(es, None) && k == Ascii(key)
    ensures Lookup(es, k) == None ==> Absent(es, key)
    ensures Lookup(es, k).Some? ==> Stands(es, key, Lookup(es, k).value)
  {
    if Lookup(es, k) == None {
      forall i | 0 <= i < |es| ensures es[i].key != Ascii(key) {
        assert es[i] == Entry(es[i].key, es[i].value) && es[i] in es;
        LookupIsMember(es, None, es[i].key, es[i].value);
      }
    } else {
      LookupIsMember(es, None, k, Lookup(es, k).value);
      var i :| 0 <= i < |es| && es[i] == Entry(k, Lookup(es, k).value);
      assert es[i].key == Ascii(key) && es[i].value == Lookup(es, k).value;
    }
  }

  /** A required text: what stands under its name, or what the record began with. */
  ghost predicate ReadFrom(es: seq<Entry>, key: string, was: Short, x: Short) {
    Stands(es, key, Text(x)) || (Absent(es, key) && x == was)
  }

  lemma TextWasRead(es: seq<Entry>, key: string, k: Short, was: Short, x: Short)
    requires Ascending(es, None) && k == Ascii(key) && TextField(was, Lookup(es, k)) == Some(x)
    ensures ReadFrom(es, key, was, x)
  {
    FoundStands(es, key, k);
    TextFieldWas(was, Lookup(es, k));
    TextOnWire(x);
  }

  /** The bytes a record was read from are a map with exactly the entries. */
  lemma MapWasRead(skip: Skipper, s: Bytes) returns (es: seq<Entry>)
    requires Lawful(skip) && ReadMap(EntryReader(skip), s).Some?
    ensures ReadMap(EntryReader(skip), s).value.value == es && Ascending(es, None) && |es| < WIDE
    ensures var size := ReadMap(EntryReader(skip), s).value.size; size <= |s| && s[..size] == Headed(0xa0, |es|) + Others(es)
  {
    MapIsCanonical(skip, s);
    es := ReadMap(EntryReader(skip), s).value.value;
    MapOnWire(es);
  }
}
