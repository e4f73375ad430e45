/** Records that keep the fields they do not know.  Unknown fields sit in a list of extras,
    in the order they were read, and are woven back between the known ones when the record is
    written. */
module Records {
  import opened Wrappers
  import opened Lex
  import opened Cbor
  import opened Codec
  import opened CborMaps

  datatype Encoding = Json | Binary

  datatype Extra = Extra(key: Short, value: Bytes, encoding: Encoding)

  // ---- the list of extras ------------------------------------------------

  /** The entries of one encoding, in order. */
  function Of(extras: seq<Extra>, encoding: Encoding): seq<Entry> {
    if extras == [] then []
    else if extras[0].encoding == encoding then [Entry(extras[0].key, extras[0].value)] + Of(extras[1..], encoding)
    else Of(extras[1..], encoding)
  }

  function Without(extras: seq<Extra>, encoding: Encoding): seq<Extra> {
    if extras == [] then []
    else if extras[0].encoding != encoding then [extras[0]] + Without(extras[1..], encoding)
    else Without(extras[1..], encoding)
  }

  function AsExtras(es: seq<Entry>): seq<Extra> {
    if es == [] then [] else [Extra(es[0].key, es[0].value, Binary)] + AsExtras(es[1..])
  }

  lemma {:induction false} OfConcat(a: seq<Extra>, b: seq<Extra>, encoding: Encoding)
    ensures Of(a + b, encoding) == Of(a, encoding) + Of(b, encoding)
  {
    if a == [] {
      assert a + b == b;
    } else {
      OfConcat(a[1..], b, encoding);
      assert (a + b)[1..] == a[1..] + b;
    }
  }

  lemma {:induction false} WithoutConcat(a: seq<Extra>, b: seq<Extra>, encoding: Encoding)
    ensures Without(a + b, encoding) == Without(a, encoding) + Without(b, encoding)
  {
    if a == [] {
      assert a + b == b;
    } else {
      WithoutConcat(a[1..], b, encoding);
      assert (a + b)[1..] == a[1..] + b;
    }
  }

  /** Clearing one encoding leaves nothing of it and everything of the other. */
  lemma {:induction false} WithoutLeaves(extras: seq<Extra>, encoding: Encoding, other: Encoding)
    ensures Of(Without(extras, encoding), other) == if other == encoding then [] else Of(extras, other)
  {
    if extras != [] {
      WithoutLeaves(extras[1..], encoding, other);
      if extras[0].encoding != encoding {
        assert Without(extras, encoding)[1..] == Without(extras[1..], encoding);
      }
    }
  }

  lemma {:induction false} OfAsExtras(es: seq<Entry>)
    ensures Of(AsExtras(es), Binary) == es && Of(AsExtras(es), Json) == []
  {
    if es != [] {
      OfAsExtras(es[1..]);
      assert AsExtras(es)[1..] == AsExtras(es[1..]);
    }
  }

  method CountExtra(extras: seq<Extra>, encoding: Encoding) returns (n: nat)
    ensures n == |Of(extras, encoding)|
  {
    n := 0;
    var i := 0;
    while i < |extras|
      invariant 0 <= i <= |extras|
      invariant n + |Of(extras[i..], encoding)| == |Of(extras, encoding)|
    {
      if extras[i].encoding == encoding { n := n + 1; }
      assert extras[i..][1..] == extras[i + 1..];
      i := i + 1;
    }
  }

  /** Compacts the first `len` places; the rest of the array, and what the compaction does not
      overwrite, stay. */
  method ClearExtra(a: array<Extra>, len: nat, encoding: Encoding) returns (n: nat)
    requires len <= a.Length
    modifies a
    ensures n <= len && a[..n] == Without(old(a[..len]), encoding)
    ensures a[n..] == old(a[n..])
  {
    ghost var was := a[..];
    n := 0;
    var i := 0;
    while i < len
      invariant 0 <= n <= i <= len
      invariant a[n..] == was[n..]
      invariant a[..n] == Without(was[..i], encoding)
    {
      assert a[i] == a[n..][i - n] == was[i];
      assert was[..i + 1] == was[..i] + [was[i]];
      WithoutConcat(was[..i], [was[i]], encoding);
      if a[i].encoding != encoding {
        a[n] := a[i];
        n := n + 1;
      }
      i := i + 1;
    }
    assert old(a[..len]) == was[..len];
  }

  /** The extras left when one encoding is dropped, compacted in a record's own array. */
  method ClearedExtra(extras: seq<Extra>, encoding: Encoding) returns (kept: seq<Extra>)
    ensures kept == Without(extras, encoding)
  {
    var a := new Extra[|extras|](i requires 0 <= i < |extras| => extras[i]);
    assert a[..|extras|] == extras;
    var n := ClearExtra(a, |extras|, encoding);
    return a[..n];
  }

  // ---- weaving -----------------------------------------------------------

  /** The entries at the front that sort before `next`; all of them when there is no next. */
  function Before(es: seq<Entry>, next: Bytes): seq<Entry> {
    if es == [] || (next != [] && !KeyLess(es[0].key, next)) then [] else [es[0]] + Before(es[1..], next)
  }

  function From(es: seq<Entry>, next: Bytes): seq<Entry> {
    if es == [] || (next != [] && !KeyLess(es[0].key, next)) then es else From(es[1..], next)
  }

  lemma {:induction false} BeforeFrom(es: seq<Entry>, next: Bytes)
    ensures Before(es, next) + From(es, next) == es
  {
    if es != [] && (next == [] || KeyLess(es[0].key, next)) {
      BeforeFrom(es[1..], next);
      assert es == [es[0]] + es[1..];
    }
  }

  lemma Regroup(a: Bytes, b: Bytes, c: Bytes, d: Bytes)
    ensures a + b + c + d == a + (b + (c + d))
  {
  }

  lemma OfFirst(extras: seq<Extra>, i: nat)
    requires i < |extras|
    ensures Of(extras[i..], Binary) ==
            (if extras[i].encoding == Binary then [Entry(extras[i].key, extras[i].value)] else []) + Of(extras[i + 1..], Binary)
  {
  }

  /** Writes the extras that sort before `next`, from number `idx` on. */
  method AppendExtrasBefore(extras: seq<Extra>, idx: nat, next: Bytes, buf: Bytes) returns (i: nat, out: Bytes)
    requires idx <= |extras|
    ensures idx <= i <= |extras|
    ensures out == buf + WriteMany(EncodeEntry, Before(Of(extras[idx..], Binary), next))
    ensures Of(extras[i..], Binary) == From(Of(extras[idx..], Binary), next)
  {
    i, out := idx, buf;
    ghost var all, done, written: Bytes := Of(extras[idx..], Binary), [], [];
    while i < |extras|
      invariant idx <= i <= |extras|
      invariant out == buf + written && written == WriteMany(EncodeEntry, done)
      invariant Before(all, next) == done + Before(Of(extras[i..], Binary), next)
      invariant From(all, next) == From(Of(extras[i..], Binary), next)
    {
      OfFirst(extras, i);
      if extras[i].encoding != Binary {
        i := i + 1;
        continue;
      }
      if next != [] && !KeyLess(extras[i].key, next) { break; }
      ghost var e := Entry(extras[i].key, extras[i].value);
      BeforeFirst(e, Of(extras[i + 1..], Binary), next);
      WriteManyLast(EncodeEntry, done, e);
      var key := EncodeText(extras[i].key);
      Regroup(buf, written, key, extras[i].value);
      out := out + key;
      out := out + extras[i].value;
      done, written := done + [e], written + EncodeEntry(e);
      i := i + 1;
    }
    assert Before(Of(extras[i..], Binary), next) == [] && From(all, next) == Of(extras[i..], Binary);
    assert Before(all, next) == done;
  }

  lemma BeforeFirst(e: Entry, es: seq<Entry>, next: Bytes)
    requires next == [] || KeyLess(e.key, next)
    ensures Before([e] + es, next) == [e] + Before(es, next) && From([e] + es, next) == From(es, next)
  {
  }

  /** A known field and its value, if it is written. */
  datatype Slot = Slot(key: Short, value: Option<Bytes>)

  function Present(slot: Slot): seq<Entry> {
    if slot.value == None then [] else [Entry(slot.key, slot.value.value)]
  }

  function Weave(es: seq<Entry>, slots: seq<Slot>): seq<Entry>
    decreases |slots|
  {
    if slots == [] then es
    else Before(es, slots[0].key) + Present(slots[0]) + Weave(From(es, slots[0].key), slots[1..])
  }

  function Filled(slots: seq<Slot>): nat {
    if slots == [] then 0 else |Present(slots[0])| + Filled(slots[1..])
  }

  /** The header's count is right, whatever the extras. */
  lemma {:induction false} WeaveCount(es: seq<Entry>, slots: seq<Slot>)
    ensures |Weave(es, slots)| == |es| + Filled(slots)
    decreases |slots|
  {
    if slots != [] {
      BeforeFrom(es, slots[0].key);
      WeaveCount(From(es, slots[0].key), slots[1..]);
    }
  }
}
