/** The keys a finished game's reveal record publishes: one for each player and key
    identifier, gathered from the game's rows. */
module RevealRecord {
  import opened Wrappers
  import opened Commentary

  datatype Id = Id(player: string, keyId: string)

  datatype RevealedKey = RevealedKey(id: Id, key: Bytes, published: bool, mismatch: bool)

  predicate Keyed(n: Note) {
    n.contentKey.Some? && |n.contentKey.value| == KEY_SIZE
  }

  /** Rows without a key identifier are passed over. */
  predicate Usable(n: Note) {
    Keyed(n) && n.keyId.Some?
  }

  predicate Under(n: Note, id: Id) {
    Usable(n) && Id(n.player, n.keyId.value) == id
  }

  // ---- what the rows hold under an identifier ----------------------------

  /** The key of the first row. */
  function FirstKey(rows: seq<Note>, id: Id): Option<Bytes> {
    if rows == [] then None
    else
      var earlier := FirstKey(rows[..|rows| - 1], id);
      if earlier.Some? then earlier
      else if Under(rows[|rows| - 1], id) then rows[|rows| - 1].contentKey
      else None
  }

  predicate Published(rows: seq<Note>, id: Id) {
    exists i :: 0 <= i < |rows| && Under(rows[i], id) && rows[i].agentPublished
  }

  predicate Mismatched(rows: seq<Note>, id: Id) {
    exists i :: 0 <= i < |rows| && Under(rows[i], id) && rows[i].keyMismatch
  }

  /** The identifiers in the order in which the rows first use them. */
  function Ids(rows: seq<Note>): (ids: seq<Id>)
    ensures forall id :: id in ids <==> FirstKey(rows, id).Some?
    ensures forall i, j :: 0 <= i < j < |ids| ==> ids[i] != ids[j]
  {
    if rows == [] then []
    else
      var n, ids := rows[|rows| - 1], Ids(rows[..|rows| - 1]);
      if Usable(n) && Id(n.player, n.keyId.value) !in ids then ids + [Id(n.player, n.keyId.value)] else ids
  }

  function KeyFor(rows: seq<Note>, id: Id): RevealedKey
    requires FirstKey(rows, id).Some?
  {
    RevealedKey(id, FirstKey(rows, id).value, Published(rows, id), Mismatched(rows, id))
  }

  // ---- gathering ---------------------------------------------------------

  lemma FlagsGrow(rows: seq<Note>, n: Note, id: Id)
    ensures Published(rows + [n], id) <==> Published(rows, id) || (Under(n, id) && n.agentPublished)
    ensures Mismatched(rows + [n], id) <==> Mismatched(rows, id) || (Under(n, id) && n.keyMismatch)
  {
    var all := rows + [n];
    assert all[|rows|] == n && forall i :: 0 <= i < |rows| ==> all[i] == rows[i];
  }

  /** No row under the identifier yet. */
  lemma {:induction false} NotYet(rows: seq<Note>, id: Id)
    requires FirstKey(rows, id) == None
    ensures forall i :: 0 <= i < |rows| ==> !Under(rows[i], id)
  {
    if rows != [] { NotYet(rows[..|rows| - 1], id); }
  }

  /** `agg` holds, for each identifier met, what the rows so far say of it. */
  ghost predicate Gathered(rows: seq<Note>, agg: map<Id, RevealedKey>, order: seq<Id>) {
    && order == Ids(rows)
    && (forall id :: id in agg <==> FirstKey(rows, id).Some?)
    && (forall id :: id in agg ==> agg[id] == KeyFor(rows, id))
  }

  lemma GatherOne(rows: seq<Note>, agg: map<Id, RevealedKey>, order: seq<Id>, n: Note, agg': map<Id, RevealedKey>, order': seq<Id>)
    requires Gathered(rows, agg, order)
    requires if !Usable(n) then agg' == agg && order' == order
             else
               var id := Id(n.player, n.keyId.value);
               var was := if id in agg then agg[id] else RevealedKey(id, n.contentKey.value, false, false);
               && agg' == agg[id := was.(published := was.published || n.agentPublished, mismatch := was.mismatch || n.keyMismatch)]
               && order' == if id in agg then order else order + [id]
    ensures Gathered(rows + [n], agg', order')
  {
    var all := rows + [n];
    assert all[..|all| - 1] == rows && all[|all| - 1] == n;
    forall id | FirstKey(all, id).Some? ensures id in agg' && agg'[id] == KeyFor(all, id) {
      FlagsGrow(rows, n, id);
      if FirstKey(rows, id) == None { NotYet(rows, id); }
    }
  }

  method RevealedKeys(rows: seq<Note>) returns (keys: seq<RevealedKey>)
    ensures |keys| == |Ids(rows)| && forall i :: 0 <= i < |keys| ==> keys[i] == KeyFor(rows, Ids(rows)[i])
  {
    var agg: map<Id, RevealedKey> := map[];
    var order: seq<Id> := [];
    for i := 0 to |rows|
      invariant Gathered(rows[..i], agg, order)
    {
      var n := rows[i];
      assert rows[..i + 1] == rows[..i] + [n];
      ghost var agg0, order0 := agg, order;
      if Usable(n) {
        var id := Id(n.player, n.keyId.value);
        if id !in agg {
          agg := agg[id := RevealedKey(id, n.contentKey.value, false, false)];
          order := order + [id];
        }
        agg := agg[id := agg[id].(published := agg[id].published || n.agentPublished, mismatch := agg[id].mismatch || n.keyMismatch)];
      }
      GatherOne(rows[..i], agg0, order0, n, agg, order);
    }
    assert rows[..|rows|] == rows;
    keys := [];
    for i := 0 to |order|
      invariant |keys| == i && forall k :: 0 <= k < i ==> keys[k] == KeyFor(rows, order[k])
    {
      keys := keys + [agg[order[i]]];
    }
  }

  // ---- what the record discloses -----------------------------------------

  /** The key a row holds is in the record, under the row's own player and identifier. */
  predicate Disclosed(rows: seq<Note>, n: Note) {
    n.keyId.Some? && FirstKey(rows, Id(n.player, n.keyId.value)) == n.contentKey
  }

  predicate Uniform(rows: seq<Note>) {
    forall i, j :: 0 <= i < j < |rows| && Keyed(rows[i]) && Keyed(rows[j]) && rows[i].keyId.Some? && rows[j].keyId.Some? ==>
      Id(rows[i].player, rows[i].keyId.value) == Id(rows[j].player, rows[j].keyId.value) ==> rows[i].contentKey == rows[j].contentKey
  }

  lemma {:induction false} FirstKeyFrom(rows: seq<Note>, id: Id) returns (k: nat)
    requires FirstKey(rows, id).Some?
    ensures k < |rows| && Under(rows[k], id) && FirstKey(rows, id) == rows[k].contentKey
    ensures forall i :: 0 <= i < k ==> !Under(rows[i], id)
  {
    var init := rows[..|rows| - 1];
    if FirstKey(init, id).Some? {
      k := FirstKeyFrom(init, id);
    } else {
      k := |rows| - 1;
      NotYet(init, id);
      assert forall i :: 0 <= i < k ==> init[i] == rows[i];
    }
  }

  lemma {:induction false} HasFirstKey(rows: seq<Note>, id: Id, i: nat)
    requires i < |rows| && Under(rows[i], id)
    ensures FirstKey(rows, id).Some?
  {
    if FirstKey(rows, id) == None { NotYet(rows, id); }
  }

  /** The record discloses every content key the server holds for the game exactly if every
      keyed row names an identifier and no player used one identifier for two keys: of two
      keys under one identifier only the earlier row's is published. */
  lemma DisclosesAllIff(rows: seq<Note>)
    ensures (forall i :: 0 <= i < |rows| && Keyed(rows[i]) ==> Disclosed(rows, rows[i])) <==>
            (forall i :: 0 <= i < |rows| && Keyed(rows[i]) ==> rows[i].keyId.Some?) && Uniform(rows)
  {
    if (forall i :: 0 <= i < |rows| && Keyed(rows[i]) ==> rows[i].keyId.Some?) && Uniform(rows) {
      forall i | 0 <= i < |rows| && Keyed(rows[i]) ensures Disclosed(rows, rows[i]) {
        var id := Id(rows[i].player, rows[i].keyId.value);
        HasFirstKey(rows, id, i);
        var k := FirstKeyFrom(rows, id);
      }
    }
  }

  // ---- in the columns of the rows ----------------------------------------

  /** The row holds a 32-byte key for the player and key identifier. */
  predicate HoldsFor(n: Note, player: string, keyId: string) {
    n.player == player && n.keyId == Some(keyId) && n.contentKey != None && |n.contentKey.value| == 32
  }

  /** The record has one key for each player and key identifier that some row holds a key for, and
      no other: that of the first such row, marked published or mismatched if any such row is. */
  lemma RecordInColumns(rows: seq<Note>, id: Id)
    ensures id in Ids(rows) <==> exists i :: 0 <= i < |rows| && HoldsFor(rows[i], id.player, id.keyId)
    ensures id in Ids(rows) ==>
              var k := KeyFor(rows, id);
              && k.id == id
              && (exists i :: 0 <= i < |rows| && HoldsFor(rows[i], id.player, id.keyId) && rows[i].contentKey == Some(k.key) &&
                    forall j :: 0 <= j < i ==> !HoldsFor(rows[j], id.player, id.keyId))
              && (k.published <==> exists i :: 0 <= i < |rows| && HoldsFor(rows[i], id.player, id.keyId) && rows[i].agentPublished)
              && (k.mismatch <==> exists i :: 0 <= i < |rows| && HoldsFor(rows[i], id.player, id.keyId) && rows[i].keyMismatch)
  {
    assert forall n: Note :: Under(n, id) <==> HoldsFor(n, id.player, id.keyId);
    if FirstKey(rows, id).Some? {
      var i := FirstKeyFrom(rows, id);
      assert HoldsFor(rows[i], id.player, id.keyId);
    } else {
      NotYet(rows, id);
    }
  }

  /** A key is left out of the record exactly if its row names no key identifier, or an earlier row
      of its player names the same one for another key. */
  lemma LeftOutIff(rows: seq<Note>, i: nat)
    requires i < |rows| && rows[i].contentKey != None && |rows[i].contentKey.value| == 32
    ensures !Disclosed(rows, rows[i]) <==>
            rows[i].keyId == None ||
            exists j :: 0 <= j < i && HoldsFor(rows[j], rows[i].player, rows[i].keyId.value) && rows[j].contentKey != rows[i].contentKey &&
              forall h :: 0 <= h < j ==> !HoldsFor(rows[h], rows[i].player, rows[i].keyId.value)
  {
    if rows[i].keyId.Some? {
      var id := Id(rows[i].player, rows[i].keyId.value);
      assert forall n: Note :: Under(n, id) <==> HoldsFor(n, id.player, id.keyId);
      HasFirstKey(rows, id, i);
      var k := FirstKeyFrom(rows, id);
      assert HoldsFor(rows[k], id.player, id.keyId) && HoldsFor(rows[i], id.player, id.keyId);
      if j :| 0 <= j < i && HoldsFor(rows[j], id.player, id.keyId) && rows[j].contentKey != rows[i].contentKey &&
              forall h :: 0 <= h < j ==> !HoldsFor(rows[h], id.player, id.keyId) {
        assert Under(rows[j], id) && j == k;
      }
    }
  }
}
