/** Cursor paging over a table of record addresses that changes between pages.  The cursor is
    the last address of a page; empty, it starts the listing or ends it. */
module Listing {
  import opened Lex
  import Tid

  predicate Below(cursor: string, uri: string) {
    cursor == "" || StringLess(uri, cursor)
  }

  /** Newest first: addresses of one service sort as their identifiers. */
  ghost predicate Descending(s: seq<string>) {
    forall i, j :: 0 <= i < j < |s| ==> StringLess(s[j], s[i])
  }

  /** The rows a page query may return: matching rows below the cursor, newest first, and
      nothing newer than the last row is left out while there was room. */
  ghost predicate IsPage(table: set<string>, cursor: string, limit: nat, page: seq<string>) {
    && |page| <= limit
    && Descending(page)
    && (forall uri :: uri in page ==> uri in table && Below(cursor, uri))
    && (forall uri :: uri in table && Below(cursor, uri) ==>
          uri in page || (|page| == limit && (page != [] ==> StringLess(uri, page[|page| - 1]))))
  }

  lemma LessThanBelow(a: string, b: string, cursor: string)
    requires StringLess(a, b) && Below(cursor, b)
    ensures Below(cursor, a)
  {
    if cursor != "" { Transitive(Codes(a), Codes(b), Codes(cursor)); }
  }

  // ---- the query has an answer -------------------------------------------

  lemma {:induction false} GreatestExists(s: set<string>, x: string) returns (m: string)
    requires x in s
    ensures m in s && forall y :: y in s ==> y == m || StringLess(y, m)
    decreases s
  {
    if y :| y in s && StringLess(x, y) {
      StringTrichotomy(x, y);
      m := GreatestExists(s - {x}, y);
      if y != m { Transitive(Codes(x), Codes(y), Codes(m)); }
      forall z | z in s ensures z == m || StringLess(z, m) {
        if z != x { assert z in s - {x}; }
      }
    } else {
      m := x;
      forall y | y in s ensures y == m || StringLess(y, m) { StringTrichotomy(x, y); }
    }
  }

  lemma OneMoreRow(table: set<string>, cursor: string, limit: nat, m: string, rest: seq<string>)
    requires limit > 0 && m in table && m != "" && Below(cursor, m)
    requires forall uri :: uri in table && Below(cursor, uri) ==> uri == m || StringLess(uri, m)
    requires IsPage(table, m, limit - 1, rest)
    ensures IsPage(table, cursor, limit, [m] + rest)
  {
    var page := [m] + rest;
    assert forall k :: 0 <= k < |rest| ==> rest[k] in rest;
    forall i, j | 0 <= i < j < |page| ensures StringLess(page[j], page[i]) {
      assert page[j] == rest[j - 1];
      if i > 0 { assert page[i] == rest[i - 1]; }
    }
    forall uri | uri in page ensures uri in table && Below(cursor, uri) {
      if uri != m { LessThanBelow(uri, m, cursor); }
    }
    forall uri | uri in table && Below(cursor, uri)
      ensures uri in page || (|page| == limit && StringLess(uri, page[|page| - 1]))
    {
      if uri == m { assert page[0] == uri; }
    }
  }

  /** The query has an answer for every table, cursor and limit. */
  lemma {:induction false} PageExists(table: set<string>, cursor: string, limit: nat) returns (page: seq<string>)
    ensures IsPage(table, cursor, limit, page)
    decreases limit
  {
    if x :| limit > 0 && x in table && Below(cursor, x) {
      var eligible := set uri | uri in table && Below(cursor, uri);
      var m := GreatestExists(eligible, x);
      forall uri | uri in table && Below(cursor, uri) ensures uri == m || StringLess(uri, m) { assert uri in eligible; }
      if m == "" {
        page := [m];
      } else {
        var rest := PageExists(table, m, limit - 1);
        page := [m] + rest;
        OneMoreRow(table, cursor, limit, m, rest);
      }
    } else {
      page := [];
    }
  }

  // ---- walking through the pages -----------------------------------------

  function Flatten(pages: seq<seq<string>>): seq<string> {
    if pages == [] then [] else pages[0] + Flatten(pages[1..])
  }

  function NextCursor(page: seq<string>, limit: nat): string {
    if |page| == limit && page != [] then page[|page| - 1] else ""
  }

  /** Following cursors to the end, page k being read from the table as it then is. */
  ghost predicate Walk(tables: seq<set<string>>, pages: seq<seq<string>>, cursor: string, limit: nat) {
    && |tables| == |pages| > 0
    && IsPage(tables[0], cursor, limit, pages[0])
    && var next := NextCursor(pages[0], limit);
       if next == "" then |pages| == 1 else Walk(tables[1..], pages[1..], next, limit)
  }

  /** Rows of a full page are its last one or newer. */
  lemma LastIsOldest(page: seq<string>, uri: string)
    requires page != [] && Descending(page) && uri in page
    ensures !StringLess(uri, page[|page| - 1])
  {
    StringTrichotomy(uri, page[|page| - 1]);
    StringTrichotomy(page[|page| - 1], uri);
  }

  lemma DescendingAppends(page: seq<string>, rest: seq<string>)
    requires page != [] && Descending(page) && Descending(rest)
    requires forall uri :: uri in rest ==> StringLess(uri, page[|page| - 1])
    ensures Descending(page + rest)
  {
    var all, n := page + rest, |page|;
    forall i, j | 0 <= i < j < |all| ensures StringLess(all[j], all[i]) {
      if i < n <= j {
        assert all[j] in rest;
        if i < n - 1 { Transitive(Codes(all[j]), Codes(page[n - 1]), Codes(page[i])); }
      }
    }
  }

  /** Whatever is inserted or withdrawn between pages, the rows come newest first, none
      twice, and every row that stays in the table throughout is visited. */
  lemma {:induction false} WalkVisitsOnce(tables: seq<set<string>>, pages: seq<seq<string>>, cursor: string, limit: nat)
    requires limit >= 1 && Walk(tables, pages, cursor, limit)
    ensures Descending(Flatten(pages))
    ensures forall uri :: uri in Flatten(pages) ==> Below(cursor, uri)
    ensures forall uri :: (forall t :: t in tables ==> uri in t) && Below(cursor, uri) ==> uri in Flatten(pages)
    decreases |pages|
  {
    var page, rest, next := pages[0], Flatten(pages[1..]), NextCursor(pages[0], limit);
    var all := Flatten(pages);
    assert all == page + rest;
    assert forall uri :: (forall t :: t in tables ==> uri in t) ==> uri in tables[0];
    if next != "" {
      WalkVisitsOnce(tables[1..], pages[1..], next, limit);
      assert forall t :: t in tables[1..] ==> t in tables;
      DescendingAppends(page, rest);
      forall uri | uri in all ensures Below(cursor, uri) {
        if uri in rest { assert next in page; LessThanBelow(uri, next, cursor); }
      }
    } else {
      assert rest == [];
    }
  }

  /** With nothing withdrawn and only newer rows inserted, the walk ends within as many
      pages as the older rows need. */
  lemma {:induction false} WalkIsShort(tables: seq<set<string>>, pages: seq<seq<string>>, cursor: string, limit: nat, older: set<string>)
    requires limit >= 1 && Walk(tables, pages, cursor, limit)
    requires forall t, uri :: t in tables && Below(cursor, uri) ==> (uri in t <==> uri in older)
    requires forall uri :: uri in older ==> Below(cursor, uri)
    ensures (|pages| - 1) * limit <= |older|
    decreases |pages|
  {
    var page, next := pages[0], NextCursor(pages[0], limit);
    if next != "" {
      var below := FullPage(tables[0], page, cursor, limit, older);
      forall t, uri | t in tables[1..] && Below(next, uri) ensures uri in t <==> uri in below {
        assert t in tables && next in page;
        LessThanBelow(uri, next, cursor);
      }
      WalkIsShort(tables[1..], pages[1..], next, limit, below);
      OneMorePage(|pages| - 1, limit);
    }
  }

  lemma OneMorePage(n: int, limit: nat)
    ensures n * limit == (n - 1) * limit + limit
  {
  }

  /** A full page takes its rows out of those still to come. */
  lemma FullPage(table: set<string>, page: seq<string>, cursor: string, limit: nat, older: set<string>) returns (below: set<string>)
    requires limit >= 1 && |page| == limit && IsPage(table, cursor, limit, page)
    requires forall uri :: Below(cursor, uri) ==> (uri in table <==> uri in older)
    requires forall uri :: uri in older ==> Below(cursor, uri)
    ensures forall uri :: uri in below <==> uri in older && StringLess(uri, page[|page| - 1])
    ensures |below| == |older| - limit
  {
    var shown := set uri | uri in page;
    DescendingSize(page);
    forall uri | uri in page ensures !StringLess(uri, page[|page| - 1]) { LastIsOldest(page, uri); }
    assert shown <= older;
    below := older - shown;
    assert older == below + shown;
  }

  lemma {:induction false} DescendingSize(s: seq<string>)
    requires Descending(s)
    ensures |set x | x in s| == |s|
  {
    if s != [] {
      var n := |s| - 1;
      DescendingSize(s[..n]);
      assert (set x | x in s) == (set x | x in s[..n]) + {s[n]} by {
        assert s == s[..n] + [s[n]];
      }
      forall k | 0 <= k < n ensures s[k] != s[n] { StringTrichotomy(s[n], s[k]); }
      assert s[n] !in (set x | x in s[..n]);
    }
  }

  /** Rows that are games of one service. */
  ghost predicate AreGames(serviceDid: string, uris: seq<string>, ids: seq<nat>) {
    |ids| == |uris| && forall k :: 0 <= k < |ids| ==> ids[k] < Tid.Power32(Tid.TID_LENGTH) && uris[k] == Tid.GameUri(serviceDid, ids[k])
  }

  lemma NewestFirst(serviceDid: string, uris: seq<string>, ids: seq<nat>)
    requires AreGames(serviceDid, uris, ids) && Descending(uris)
    ensures forall i, j :: 0 <= i < j < |ids| ==> ids[i] > ids[j]
  {
    forall i, j | 0 <= i < j < |ids| ensures ids[i] > ids[j] {
      Tid.UriOrder(serviceDid, ids[j], ids[i]);
    }
  }

  lemma ListedById(serviceDid: string, uris: seq<string>, ids: seq<nat>, id: nat, uri: string)
    requires AreGames(serviceDid, uris, ids) && id < Tid.Power32(Tid.TID_LENGTH) && uri == Tid.GameUri(serviceDid, id)
    requires uri in uris
    ensures id in ids
  {
    var k :| 0 <= k < |uris| && uris[k] == uri;
    SameUri(serviceDid, ids[k], id);
  }

  ghost predicate Stays(serviceDid: string, tables: seq<set<string>>, id: nat) {
    id < Tid.Power32(Tid.TID_LENGTH) && forall t :: t in tables ==> Tid.GameUri(serviceDid, id) in t
  }

  lemma StayingIsListed(serviceDid: string, tables: seq<set<string>>, pages: seq<seq<string>>, limit: nat, ids: seq<nat>, id: nat)
    requires limit >= 1 && Walk(tables, pages, "", limit) && AreGames(serviceDid, Flatten(pages), ids) && Stays(serviceDid, tables, id)
    ensures id in ids
  {
    var uri := Tid.GameUri(serviceDid, id);
    WalkVisitsOnce(tables, pages, "", limit);
    ListedById(serviceDid, Flatten(pages), ids, id, uri);
  }

  /** The games of a service come by descending identifier, and none that stays is missed. */
  lemma GamesComeNewestFirst(serviceDid: string, tables: seq<set<string>>, pages: seq<seq<string>>, limit: nat, ids: seq<nat>)
    requires limit >= 1 && Walk(tables, pages, "", limit) && AreGames(serviceDid, Flatten(pages), ids)
    ensures forall i, j :: 0 <= i < j < |ids| ==> ids[i] > ids[j]
    ensures forall id: nat :: Stays(serviceDid, tables, id) ==> id in ids
  {
    WalkVisitsOnce(tables, pages, "", limit);
    NewestFirst(serviceDid, Flatten(pages), ids);
    forall id: nat | Stays(serviceDid, tables, id) ensures id in ids {
      StayingIsListed(serviceDid, tables, pages, limit, ids, id);
    }
  }

  lemma SameUri(serviceDid: string, a: nat, b: nat)
    requires a < Tid.Power32(Tid.TID_LENGTH) && b < Tid.Power32(Tid.TID_LENGTH)
    requires Tid.GameUri(serviceDid, a) == Tid.GameUri(serviceDid, b)
    ensures a == b
  {
    StringTrichotomy(Tid.GameUri(serviceDid, a), Tid.GameUri(serviceDid, b));
    Tid.UriOrder(serviceDid, a, b);
    Tid.UriOrder(serviceDid, b, a);
  }
}
