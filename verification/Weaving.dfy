/** What weaving keeps: sorted extras and known fields in key order make a sorted map, and
    taking a sorted map apart and weaving it again changes nothing exactly when the known
    fields hold what the map held. */
module Weaving {
  import opened Wrappers
  import opened Lex
  import opened Cbor
  import opened CborMaps
  import opened Records

  // ---- sorted entries ----------------------------------------------------

  lemma {:induction false} AllAfter(es: seq<Entry>, p: Bytes, e: Entry)
    requires Ascending(es, Some(p)) && e in es
    ensures KeyLess(p, e.key)
    decreases |es|
  {
    if e != es[0] {
      assert e in es[1..];
      AllAfter(es[1..], es[0].key, e);
      KeyOrder(p, es[0].key, e.key);
    }
  }

  lemma AscendingFrom(es: seq<Entry>, prev: Option<Bytes>, p: Option<Bytes>)
    requires Ascending(es, prev) && (p.Some? ==> prev.Some? && (p == prev || KeyLess(p.value, prev.value)))
    ensures Ascending(es, p)
  {
    if es != [] && p.Some? { KeyOrder(p.value, prev.value, es[0].key); }
  }

  function Last(es: seq<Entry>, prev: Option<Bytes>): Option<Bytes> {
    if es == [] then prev else Some(es[|es| - 1].key)
  }

  lemma {:induction false} AscendingConcat(a: seq<Entry>, b: seq<Entry>, prev: Option<Bytes>)
    requires Ascending(a, prev) && Ascending(b, Last(a, prev))
    ensures Ascending(a + b, prev)
    decreases |a|
  {
    if a == [] {
      assert a + b == b;
    } else {
      AscendingConcat(a[1..], b, Some(a[0].key));
      assert (a + b)[1..] == a[1..] + b;
    }
  }

  /** Two sorted sequences with the same entries are the same. */
  lemma {:induction false} SortedSame(a: seq<Entry>, b: seq<Entry>, prev: Option<Bytes>)
    requires Ascending(a, prev) && Ascending(b, prev) && forall e :: e in a <==> e in b
    ensures a == b
    decreases |a|
  {
    assert b != [] ==> b[0] in a;
    if a != [] {
      assert a[0] in b;
      SameFirst(a, b, prev);
      forall e ensures e in a[1..] <==> e in b[1..] {
        RestIn(a, prev, e);
        RestIn(b, prev, e);
      }
      SortedSame(a[1..], b[1..], Some(a[0].key));
      assert a == [a[0]] + a[1..] && b == [b[0]] + b[1..];
    }
  }

  lemma RestIn(es: seq<Entry>, prev: Option<Bytes>, e: Entry)
    requires es != [] && Ascending(es, prev)
    ensures e in es[1..] <==> e in es && e != es[0]
  {
    if e in es[1..] {
      AllAfter(es[1..], es[0].key, e);
      KeyOrder(es[0].key, e.key, e.key);
    }
  }

  lemma SameFirst(a: seq<Entry>, b: seq<Entry>, prev: Option<Bytes>)
    requires a != [] && b != [] && Ascending(a, prev) && Ascending(b, prev) && a[0] in b && b[0] in a
    ensures a[0] == b[0]
  {
    if a[0] != b[0] {
      assert a[0] in b[1..] && b[0] in a[1..];
      KeyOrder(a[0].key, b[0].key, a[0].key);
      AllAfter(a[1..], a[0].key, b[0]);
      AllAfter(b[1..], b[0].key, a[0]);
    }
  }

  // ---- looking up --------------------------------------------------------

  function Lookup(es: seq<Entry>, k: Bytes): Option<Bytes> {
    if es == [] then None else if es[0].key == k then Some(es[0].value) else Lookup(es[1..], k)
  }

  /** A sorted map holds one value for a key. */
  lemma {:induction false} LookupIsMember(es: seq<Entry>, prev: Option<Bytes>, k: Short, v: Bytes)
    requires Ascending(es, prev)
    ensures Lookup(es, k) == Some(v) <==> Entry(k, v) in es
    decreases |es|
  {
    if es != [] {
      LookupIsMember(es[1..], Some(es[0].key), k, v);
      RestIn(es, prev, Entry(k, v));
      if es[0].key == k && Entry(k, v) in es[1..] {
        AllAfter(es[1..], es[0].key, Entry(k, v));
        KeyOrder(k, k, k);
      }
    }
  }

  /** The entries whose keys are not among `known`. */
  function Unknown(es: seq<Entry>, known: set<Bytes>): seq<Entry> {
    if es == [] then []
    else if es[0].key in known then Unknown(es[1..], known)
    else [es[0]] + Unknown(es[1..], known)
  }

  lemma {:induction false} UnknownConcat(a: seq<Entry>, b: seq<Entry>, known: set<Bytes>)
    ensures Unknown(a + b, known) == Unknown(a, known) + Unknown(b, known)
  {
    if a == [] {
      assert a + b == b;
    } else {
      UnknownConcat(a[1..], b, known);
      assert (a + b)[1..] == a[1..] + b;
    }
  }

  lemma {:induction false} UnknownMember(es: seq<Entry>, known: set<Bytes>, e: Entry)
    ensures e in Unknown(es, known) <==> e in es && e.key !in known
  {
    if es != [] { UnknownMember(es[1..], known, e); }
  }

  lemma {:induction false} UnknownAscending(es: seq<Entry>, known: set<Bytes>, prev: Option<Bytes>)
    requires Ascending(es, prev)
    ensures Ascending(Unknown(es, known), prev)
    decreases |es|
  {
    if es != [] {
      UnknownAscending(es[1..], known, Some(es[0].key));
      if es[0].key in known {
        AscendingFrom(Unknown(es[1..], known), Some(es[0].key), prev);
      } else {
        assert Unknown(es, known)[1..] == Unknown(es[1..], known);
      }
    }
  }

  predicate NoneKnown(es: seq<Entry>, known: set<Bytes>) {
    forall e :: e in es ==> e.key !in known
  }

  lemma {:induction false} AllUnknown(es: seq<Entry>, known: set<Bytes>)
    requires NoneKnown(es, known)
    ensures Unknown(es, known) == es
  {
    if es != [] {
      assert NoneKnown(es[1..], known);
      AllUnknown(es[1..], known);
      assert es == [es[0]] + es[1..];
    }
  }

  // ---- slots -------------------------------------------------------------

  /** Slot keys strictly increasing, from after `prev` on, and none empty. */
  predicate SlotsAscending(slots: seq<Slot>, prev: Option<Bytes>) {
    slots == [] ||
    (slots[0].key != [] && (prev.Some? ==> KeyLess(prev.value, slots[0].key)) && SlotsAscending(slots[1..], Some(slots[0].key)))
  }

  function Keys(slots: seq<Slot>): set<Bytes> {
    set s | s in slots :: s.key
  }

  lemma {:induction false} InWeave(es: seq<Entry>, slots: seq<Slot>, e: Entry)
    ensures e in Weave(es, slots) <==> e in es || Slot(e.key, Some(e.value)) in slots
    decreases |slots|
  {
    if slots != [] {
      var k := slots[0].key;
      BeforeFrom(es, k);
      InWeave(From(es, k), slots[1..], e);
      assert slots == [slots[0]] + slots[1..];
      assert e in es <==> e in Before(es, k) || e in From(es, k);
      assert e in Present(slots[0]) <==> Slot(e.key, Some(e.value)) == slots[0];
    }
  }

  lemma {:induction false} UnknownOfWeave(es: seq<Entry>, slots: seq<Slot>, known: set<Bytes>)
    requires NoneKnown(es, known) && Keys(slots) <= known
    ensures Unknown(Weave(es, slots), known) == es
    decreases |slots|
  {
    if slots == [] {
      AllUnknown(es, known);
    } else {
      var k := slots[0].key;
      var a, b, c := Before(es, k), Present(slots[0]), Weave(From(es, k), slots[1..]);
      FromNoneKnown(es, k, known, known);
      BeforeFrom(es, k);
      assert k in Keys(slots) && Keys(slots[1..]) <= Keys(slots);
      UnknownOfWeave(From(es, k), slots[1..], known);
      AllUnknown(a, known);
      UnknownConcat(a + b, c, known);
      UnknownConcat(a, b, known);
      assert Unknown(b, known) == [];
    }
  }

  /** Cutting a sorted sequence at a key it does not hold. */
  lemma {:induction false} CutAscending(es: seq<Entry>, prev: Option<Bytes>, k: Bytes)
    requires Ascending(es, prev) && k != [] && (prev.Some? ==> KeyLess(prev.value, k))
    requires forall e :: e in es ==> e.key != k
    ensures Ascending(Before(es, k), prev) && Ascending(From(es, k), Some(k))
    ensures Last(Before(es, k), prev).Some? ==> KeyLess(Last(Before(es, k), prev).value, k)
    decreases |es|
  {
    if es != [] {
      KeyOrder(es[0].key, k, k);
      KeyOrder(k, es[0].key, k);
      if KeyLess(es[0].key, k) {
        CutAscending(es[1..], Some(es[0].key), k);
        assert Before(es, k)[1..] == Before(es[1..], k);
      }
    }
  }

  lemma ThreeAscending(a: seq<Entry>, b: seq<Entry>, c: seq<Entry>, prev: Option<Bytes>)
    requires Ascending(a, prev) && Ascending(b, Last(a, prev)) && Ascending(c, Last(b, Last(a, prev)))
    ensures Ascending(a + b + c, prev)
  {
    AscendingConcat(b, c, Last(a, prev));
    AscendingConcat(a, b + c, prev);
    assert a + b + c == a + (b + c);
  }

  lemma FromNoneKnown(es: seq<Entry>, k: Bytes, known: set<Bytes>, fewer: set<Bytes>)
    requires NoneKnown(es, known) && fewer <= known
    ensures NoneKnown(Before(es, k), fewer) && NoneKnown(From(es, k), fewer)
  {
  }

  /** Sorted extras and slots in order make a sorted map. */
  lemma {:induction false} WeaveAscending(es: seq<Entry>, slots: seq<Slot>, prev: Option<Bytes>)
    requires Ascending(es, prev) && SlotsAscending(slots, prev) && NoneKnown(es, Keys(slots))
    ensures Ascending(Weave(es, slots), prev)
    decreases |slots|
  {
    if slots != [] {
      var k := slots[0].key;
      var a, b, c := Before(es, k), Present(slots[0]), Weave(From(es, k), slots[1..]);
      assert k in Keys(slots) && Keys(slots[1..]) <= Keys(slots);
      FromNoneKnown(es, k, Keys(slots), Keys(slots[1..]));
      CutAscending(es, prev, k);
      WeaveAscending(From(es, k), slots[1..], Some(k));
      if b == [] { AscendingFrom(c, Some(k), Last(a, prev)); }
      ThreeAscending(a, b, c, prev);
    }
  }

  /** A woven map holds under a known key what the slot holds. */
  lemma LookupOfWeave(es: seq<Entry>, slots: seq<Slot>, s: Slot)
    requires Ascending(es, None) && SlotsAscending(slots, None) && NoneKnown(es, Keys(slots)) && s in slots
    requires forall r :: r in slots && r.key == s.key ==> r == s
    ensures Lookup(Weave(es, slots), s.key) == s.value
  {
    var w := Weave(es, slots);
    WeaveAscending(es, slots, None);
    assert s.key in Keys(slots);
    var found := Lookup(w, s.key);
    if found.Some? {
      LookupIsMember(w, None, s.key, found.value);
      InWeave(es, slots, Entry(s.key, found.value));
    }
    if s.value.Some? {
      InWeave(es, slots, Entry(s.key, s.value.value));
      LookupIsMember(w, None, s.key, s.value.value);
    }
  }

  lemma {:induction false} SlotsAfter(slots: seq<Slot>, p: Bytes, s: Slot)
    requires SlotsAscending(slots, Some(p)) && s in slots
    ensures KeyLess(p, s.key)
    decreases |slots|
  {
    if s != slots[0] {
      assert s in slots[1..];
      SlotsAfter(slots[1..], slots[0].key, s);
      KeyOrder(p, slots[0].key, s.key);
    }
  }

  lemma {:induction false} SlotKeysDiffer(slots: seq<Slot>, prev: Option<Bytes>, r: Slot, s: Slot)
    requires SlotsAscending(slots, prev) && r in slots && s in slots && r.key == s.key
    ensures r == s
    decreases |slots|
  {
    KeyOrder(r.key, r.key, r.key);
    if r in slots[1..] && s in slots[1..] {
      SlotKeysDiffer(slots[1..], Some(slots[0].key), r, s);
    } else if r in slots[1..] {
      SlotsAfter(slots[1..], slots[0].key, r);
    } else if s in slots[1..] {
      SlotsAfter(slots[1..], slots[0].key, s);
    }
  }

  /** A map taken apart and woven again is the same map exactly if every known field is still
      what it was. */
  lemma WeaveAgain(es: seq<Entry>, slots: seq<Slot>)
    requires Ascending(es, None) && SlotsAscending(slots, None)
    ensures Weave(Unknown(es, Keys(slots)), slots) == es <==> forall s :: s in slots ==> Lookup(es, s.key) == s.value
  {
    var rest := Unknown(es, Keys(slots));
    var w := Weave(rest, slots);
    UnknownAscending(es, Keys(slots), None);
    assert NoneKnown(rest, Keys(slots)) by {
      forall e | e in rest ensures e.key !in Keys(slots) { UnknownMember(es, Keys(slots), e); }
    }
    WeaveAscending(rest, slots, None);
    forall s | s in slots ensures Lookup(w, s.key) == s.value {
      forall r | r in slots && r.key == s.key ensures r == s { SlotKeysDiffer(slots, None, r, s); }
      LookupOfWeave(rest, slots, s);
    }
    if forall s :: s in slots ==> Lookup(es, s.key) == s.value {
      forall e ensures e in w <==> e in es { SameMembers(es, slots, e); }
      SortedSame(w, es, None);
    }
  }

  lemma SameMembers(es: seq<Entry>, slots: seq<Slot>, e: Entry)
    requires Ascending(es, None) && forall s :: s in slots ==> Lookup(es, s.key) == s.value
    ensures e in Weave(Unknown(es, Keys(slots)), slots) <==> e in es
  {
    InWeave(Unknown(es, Keys(slots)), slots, e);
    UnknownMember(es, Keys(slots), e);
    LookupIsMember(es, None, e.key, e.value);
    if e in es && e.key in Keys(slots) {
      var s :| s in slots && s.key == e.key;
      assert s == Slot(e.key, Some(e.value));
    }
  }

  // ---- one entry in front ------------------------------------------------

  lemma FirstLookup(e: Entry, es: seq<Entry>, k: Bytes)
    ensures Lookup([e] + es, k) == if e.key == k then Some(e.value) else Lookup(es, k)
  {
  }

  lemma AbsentAfter(e: Entry, es: seq<Entry>)
    requires Ascending(es, Some(e.key))
    ensures Lookup(es, e.key) == None
  {
    var found := Lookup(es, e.key);
    if found.Some? {
      LookupIsMember(es, Some(e.key), e.key, found.value);
      AllAfter(es, e.key, Entry(e.key, found.value));
      KeyOrder(e.key, e.key, e.key);
    }
  }

  /** An entry in front answers for its own key, and for no other. */
  lemma FirstLookups(e: Entry, es: seq<Entry>, known: set<Bytes>)
    requires Ascending(es, Some(e.key))
    ensures Lookup(es, e.key) == None
    ensures forall k {:trigger Lookup([e] + es, k)} :: k in known ==>
              Lookup([e] + es, k) == if e.key == k then Some(e.value) else Lookup(es, k)
    ensures Unknown([e] + es, known) == if e.key in known then Unknown(es, known) else [e] + Unknown(es, known)
  {
    AbsentAfter(e, es);
    forall k | k in known ensures Lookup([e] + es, k) == if e.key == k then Some(e.value) else Lookup(es, k) {
      FirstLookup(e, es, k);
    }
    assert ([e] + es)[1..] == es;
  }

  lemma AsExtrasFirst(extra: seq<Extra>, e: Entry, es: seq<Entry>)
    ensures extra + AsExtras([e] + es) == (extra + [Extra(e.key, e.value, Binary)]) + AsExtras(es)
  {
  }

  // ---- encoded -----------------------------------------------------------

  ghost predicate SlotsStorable(skip: Skipper, slots: seq<Slot>) {
    forall s :: s in slots && s.value.Some? ==> skip(s.value.value) == Some(|s.value.value|)
  }

  lemma WeaveStorable(skip: Skipper, es: seq<Entry>, slots: seq<Slot>)
    requires AllStorable(skip, es) && SlotsStorable(skip, slots)
    ensures AllStorable(skip, Weave(es, slots))
  {
    var w := Weave(es, slots);
    forall i | 0 <= i < |w| ensures Storable(skip, w[i]) {
      InWeave(es, slots, w[i]);
      if w[i] in es {
        var j :| 0 <= j < |es| && es[j] == w[i];
        assert CanStore(skip)(es[j]);
      } else {
        assert Slot(w[i].key, Some(w[i].value)) in slots;
      }
    }
  }

  lemma UnknownStorable(skip: Skipper, es: seq<Entry>, known: set<Bytes>)
    requires AllStorable(skip, es)
    ensures AllStorable(skip, Unknown(es, known)) && NoneKnown(Unknown(es, known), known)
  {
  }

  /** Whatever extras a record held, once its binary ones are cleared and the unknown entries of
      a sorted map added, its binary extras are those entries: sorted, and apart from the
      known keys. */
  lemma DecodedExtras(skip: Skipper, was: seq<Extra>, es: seq<Entry>, known: set<Bytes>)
    requires Ascending(es, None) && AllStorable(skip, es)
    ensures var kept := Of(Without(was, Binary) + AsExtras(Unknown(es, known)), Binary);
      kept == Unknown(es, known) && Ascending(kept, None) && AllStorable(skip, kept) && NoneKnown(kept, known)
  {
    OfConcat(Without(was, Binary), AsExtras(Unknown(es, known)), Binary);
    WithoutLeaves(was, Binary, Binary);
    OfAsExtras(Unknown(es, known));
    assert [] + Unknown(es, known) == Unknown(es, known);
    UnknownAscending(es, known, None);
    UnknownStorable(skip, es, known);
  }

  /** Sorted extras and slots in order, woven: a sorted map that holds each under its key. */
  lemma Woven(es: seq<Entry>, slots: seq<Slot>)
    requires Ascending(es, None) && NoneKnown(es, Keys(slots)) && SlotsAscending(slots, None)
    ensures Ascending(Weave(es, slots), None) && Unknown(Weave(es, slots), Keys(slots)) == es
    ensures forall s :: s in slots ==> Lookup(Weave(es, slots), s.key) == s.value
  {
    WeaveAscending(es, slots, None);
    UnknownOfWeave(es, slots, Keys(slots));
    forall s | s in slots ensures Lookup(Weave(es, slots), s.key) == s.value {
      forall r | r in slots && r.key == s.key ensures r == s { SlotKeysDiffer(slots, None, r, s); }
      LookupOfWeave(es, slots, s);
    }
  }

  /** A map taken apart and woven again is encoded in the same bytes exactly if every known
      field is still what it was. */
  lemma EncodedAgain(skip: Skipper, es: seq<Entry>, slots: seq<Slot>)
    requires Lawful(skip) && |es| < LIMIT && Ascending(es, None) && AllStorable(skip, es)
    requires SlotsAscending(slots, None) && SlotsStorable(skip, slots) && |Weave(Unknown(es, Keys(slots)), slots)| < LIMIT
    ensures EncodeMap(Weave(Unknown(es, Keys(slots)), slots)) == EncodeMap(es) <==>
            forall s :: s in slots ==> Lookup(es, s.key) == s.value
  {
    var rest := Unknown(es, Keys(slots));
    var w := Weave(rest, slots);
    WeaveAgain(es, slots);
    if EncodeMap(w) == EncodeMap(es) {
      UnknownStorable(skip, es, Keys(slots));
      UnknownAscending(es, Keys(slots), None);
      WeaveStorable(skip, rest, slots);
      WeaveAscending(rest, slots, None);
      MapRoundTrip(skip, es, []);
      MapRoundTrip(skip, w, []);
    }
  }
}
