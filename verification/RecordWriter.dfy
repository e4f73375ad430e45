/** Writing a record: known fields in key order, each preceded by the extras that sort before
    it, and the remaining extras at the end. */
module RecordWriter {
  import opened Lex
  import opened Codec
  import opened CborMaps
  import opened Records

  /** Of the entries `all`, those not yet written are the extras from `idx` on woven into the
      slots from `k` on. */
  ghost predicate Written(extras: seq<Extra>, idx: nat, slots: seq<Slot>, k: nat, all: seq<Entry>, base: Bytes, buf: Bytes) {
    && idx <= |extras| && k <= |slots|
    && Left(Weave(Of(extras[idx..], Binary), slots[k..]), all, base, buf)
  }

  /** Everything but `left` has been written. */
  ghost predicate Left(left: seq<Entry>, all: seq<Entry>, base: Bytes, buf: Bytes) {
    |left| <= |all| && all[|all| - |left|..] == left && buf == base + WriteMany(EncodeEntry, all[..|all| - |left|])
  }

  /** Writing the front part of what is left. */
  lemma FrontWritten(part: seq<Entry>, rest: seq<Entry>, left: seq<Entry>, all: seq<Entry>, base: Bytes, buf: Bytes)
    requires left == part + rest && Left(left, all, base, buf)
    ensures Left(rest, all, base, buf + WriteMany(EncodeEntry, part))
  {
    var n := |all| - |left|;
    var done := all[..n];
    assert all == done + left;
    assert all[|all| - |rest|..] == rest;
    assert all[..|all| - |rest|] == done + part;
    WriteManyConcat(EncodeEntry, done, part);
    Joins(base, WriteMany(EncodeEntry, done), WriteMany(EncodeEntry, part));
  }

  lemma WeaveNext(es: seq<Entry>, slots: seq<Slot>, k: nat)
    requires k < |slots|
    ensures Weave(es, slots[k..]) == Before(es, slots[k].key) + (Present(slots[k]) + Weave(From(es, slots[k].key), slots[k + 1..]))
  {
  }

  lemma {:induction false} AllBefore(es: seq<Entry>)
    ensures Before(es, []) == es
  {
    if es != [] {
      AllBefore(es[1..]);
      assert es == [es[0]] + es[1..];
    }
  }

  method AppendField(slot: Slot, buf: Bytes) returns (out: Bytes)
    ensures out == buf + WriteMany(EncodeEntry, Present(slot))
  {
    out := buf;
    if slot.value.Some? {
      WriteManyFirst(EncodeEntry, Present(slot)[0], []);
      Joins(buf, EncodeText(slot.key), slot.value.value);
      out := out + EncodeText(slot.key);
      out := out + slot.value.value;
    }
  }

  /** Writes field k and the extras that sort before it. */
  method AppendSlot(extras: seq<Extra>, idx: nat, slots: seq<Slot>, k: nat, buf: Bytes, ghost all: seq<Entry>, ghost base: Bytes)
    returns (i: nat, out: Bytes)
    requires k < |slots| && Written(extras, idx, slots, k, all, base, buf)
    ensures Written(extras, i, slots, k + 1, all, base, out)
  {
    var slot := slots[k];
    ghost var es := Of(extras[idx..], Binary);
    ghost var rest := Weave(From(es, slot.key), slots[k + 1..]);
    WeaveNext(es, slots, k);
    FrontWritten(Before(es, slot.key), Present(slot) + rest, Weave(es, slots[k..]), all, base, buf);
    i, out := AppendExtrasBefore(extras, idx, slot.key, buf);
    FrontWritten(Present(slot), rest, Present(slot) + rest, all, base, out);
    out := AppendField(slot, out);
  }

  method AppendAmongExtras(extras: seq<Extra>, slots: seq<Slot>, buf: Bytes) returns (out: Bytes)
    ensures out == buf + WriteMany(EncodeEntry, Weave(Of(extras, Binary), slots))
  {
    out := buf;
    ghost var all := Weave(Of(extras, Binary), slots);
    var ei: nat := 0;
    assert extras[0..] == extras && slots[0..] == slots;
    for k := 0 to |slots|
      invariant Written(extras, ei, slots, k, all, buf, out)
    {
      ei, out := AppendSlot(extras, ei, slots, k, out, all, buf);
    }
    ghost var es := Of(extras[ei..], Binary);
    AllBefore(es);
    FrontWritten(es, [], es, all, buf, out);
    ei, out := AppendExtrasBefore(extras, ei, [], out);
    assert all[..|all|] == all;
  }

  method AppendAlone(slots: seq<Slot>, buf: Bytes) returns (out: Bytes)
    ensures out == buf + WriteMany(EncodeEntry, Weave([], slots))
  {
    out := buf;
    ghost var all := Weave([], slots);
    assert slots[0..] == slots;
    for k := 0 to |slots|
      invariant Left(Weave([], slots[k..]), all, buf, out)
    {
      WeaveNext([], slots, k);
      FrontWritten(Present(slots[k]), Weave([], slots[k + 1..]), Weave([], slots[k..]), all, buf, out);
      out := AppendField(slots[k], out);
    }
    assert all[..|all|] == all;
  }

  /** Writes the pairs of a record.  The source spells the turns of these loops out, one field
      after the other. */
  method AppendPairs(extras: seq<Extra>, slots: seq<Slot>, buf: Bytes) returns (out: Bytes)
    ensures out == buf + WriteMany(EncodeEntry, Weave(Of(extras, Binary), slots))
  {
    if |extras| > 0 {
      out := AppendAmongExtras(extras, slots, buf);
    } else {
      out := AppendAlone(slots, buf);
    }
  }
}
