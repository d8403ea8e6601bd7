/**
 * The `clipboard_items` table behind `ClipboardItemDao`: rows keyed by
 * their primary key `id`, with the queries its SQL annotations declare.
 */
module ItemDao {
  import opened Wrappers
  import opened Model

  type Rows = map<string, ClipboardItemEntity>

  /** The primary-key invariant: each row is stored under its own id. */
  ghost predicate KeyedById(rows: Rows) {
    forall id :: id in rows ==> rows[id].id == id
  }

  /** `DELETE FROM clipboard_items WHERE timestamp < :timestamp`. */
  function SweepOlderThan(rows: Rows, threshold: int): (r: Rows)
    ensures forall id :: id in r <==> id in rows && rows[id].timestamp >= threshold
    ensures forall id :: id in r ==> r[id] == rows[id]
  {
    map id | id in rows && rows[id].timestamp >= threshold :: rows[id]
  }

  /** Newest first: timestamps never increase along the listing. */
  ghost predicate NewestFirst(s: seq<ClipboardItemEntity>) {
    forall i, j :: 0 <= i < j < |s| ==> s[i].timestamp >= s[j].timestamp
  }

  /** `SELECT * ... ORDER BY timestamp DESC`: every row exactly once, newest first. */
  ghost predicate IsListing(rows: Rows, s: seq<ClipboardItemEntity>) {
    NewestFirst(s) && multiset(s) == multiset(rows.Values)
  }

  /** Places `e` before the first entry that is not newer than it. */
  function InsertByTime(s: seq<ClipboardItemEntity>, e: ClipboardItemEntity): (r: seq<ClipboardItemEntity>)
    ensures multiset(r) == multiset(s) + multiset{e}
    ensures r[0] == e || (|s| > 0 && r[0] == s[0])
    ensures NewestFirst(s) ==> NewestFirst(r)
  {
    if s == [] || e.timestamp >= s[0].timestamp then
      assert NewestFirst(s) ==> NewestFirst([e] + s) by {
        if NewestFirst(s) { PrependNewest(e, s); }
      }
      [e] + s
    else
      var rest := InsertByTime(s[1..], e);
      assert s == [s[0]] + s[1..];
      assert NewestFirst(s) ==> NewestFirst([s[0]] + rest) by {
        if NewestFirst(s) {
          assert NewestFirst(s[1..]);
          PrependNewest(s[0], rest);
        }
      }
      [s[0]] + rest
  }

  /** An entry at least as new as the head of a newest-first listing may go in front. */
  lemma PrependNewest(x: ClipboardItemEntity, t: seq<ClipboardItemEntity>)
    requires NewestFirst(t) && (t == [] || x.timestamp >= t[0].timestamp)
    ensures NewestFirst([x] + t)
  {
    var r := [x] + t;
    forall i, j | 0 <= i < j < |r| ensures r[i].timestamp >= r[j].timestamp {
      if i == 0 && j > 1 { assert t[0].timestamp >= t[j - 1].timestamp; }
    }
  }

  /**
   * `LIMIT :limit OFFSET :offset` over a listing, with SQLite's reading of
   * negative values: a negative limit is no limit, a negative offset is 0.
   */
  function Window(s: seq<ClipboardItemEntity>, limit: int, offset: int): (r: seq<ClipboardItemEntity>)
    ensures var start := if offset < 0 then 0 else if offset > |s| then |s| else offset;
            && |r| == (if limit < 0 || start + limit > |s| then |s| - start else limit)
            && forall i :: 0 <= i < |r| ==> r[i] == s[start + i]
  {
    var start := if offset < 0 then 0 else if offset > |s| then |s| else offset;
    var end := if limit < 0 || start + limit > |s| then |s| else start + limit;
    s[start..end]
  }

  /** Sweeping twice is sweeping once with the later threshold; in particular a sweep is idempotent. */
  lemma SweepComposes(rows: Rows, t1: int, t2: int)
    ensures SweepOlderThan(SweepOlderThan(rows, t1), t2) == SweepOlderThan(rows, if t1 <= t2 then t2 else t1)
  {
  }

  /** Consecutive pages tile the listing: a page of `a` entries followed by the next `b` is the page of `a + b`. */
  lemma WindowsTile(s: seq<ClipboardItemEntity>, a: nat, b: nat, offset: nat)
    ensures Window(s, a, offset) + Window(s, b, offset + a) == Window(s, a + b, offset)
  {
  }

  /** No item of the list carries `id`. */
  predicate Untouched(items: seq<ClipboardItemEntity>, id: string) {
    forall i :: 0 <= i < |items| ==> items[i].id != id
  }

  /** `items[i]` is the last item of the list with its id. */
  predicate LastOfId(items: seq<ClipboardItemEntity>, i: int)
    requires 0 <= i < |items|
  {
    forall j :: i < j < |items| ==> items[j].id != items[i].id
  }

  /**
   * Inserts of a list, one by one, each replacing any row with the same id:
   * the ids untouched by the list keep their rows (and, by
   * `UpsertAllLastWins`, each id of the list holds the last item carrying it).
   */
  function UpsertAll(rows: Rows, items: seq<ClipboardItemEntity>): (r: Rows)
    ensures KeyedById(rows) ==> KeyedById(r)
    ensures forall id :: id in r <==> id in rows || exists i :: 0 <= i < |items| && items[i].id == id
    ensures |items| > 0 ==> r[items[|items| - 1].id] == items[|items| - 1]
    ensures forall id :: id in rows && Untouched(items, id) ==> r[id] == rows[id]
  {
    if items == [] then rows
    else
      var init := items[..|items| - 1];
      var last := items[|items| - 1];
      var prev := UpsertAll(rows, init);
      assert forall id :: Untouched(items, id) ==> Untouched(init, id);
      prev[last.id := last]
  }

  /** Among items sharing an id, the last one inserted is the one the table keeps. */
  lemma {:induction false} UpsertAllLastWins(rows: Rows, items: seq<ClipboardItemEntity>, i: int)
    requires 0 <= i < |items| && LastOfId(items, i)
    ensures items[i].id in UpsertAll(rows, items)
    ensures UpsertAll(rows, items)[items[i].id] == items[i]
  {
    if i < |items| - 1 {
      var init := items[..|items| - 1];
      assert init[i] == items[i];
      assert LastOfId(init, i) by {
        forall j | i < j < |init|
          ensures init[j].id != init[i].id
        {
          assert init[j] == items[j];
        }
      }
      UpsertAllLastWins(rows, init, i);
      assert items[|items| - 1].id != items[i].id;
    }
  }

  /** Taking one row out of a keyed table takes exactly that value out of its values. */
  lemma ValuesWithout(rows: Rows, id: string)
    requires KeyedById(rows) && id in rows
    ensures multiset(rows.Values) == multiset((rows - {id}).Values) + multiset{rows[id]}
  {
    var rest := rows - {id};
    assert rows.Values == rest.Values + {rows[id]} by {
      forall v | v in rows.Values ensures v in rest.Values + {rows[id]} {
        var k :| k in rows && rows[k] == v;
        if k != id { assert rest[k] == v; }
      }
    }
    assert rows[id] !in rest.Values;
  }

  /** A listing holds as many entries as the table has rows, and every row occurs in it. */
  lemma {:induction false} ListingCoversTable(rows: Rows, s: seq<ClipboardItemEntity>)
    requires KeyedById(rows) && IsListing(rows, s)
    ensures |s| == |rows|
    ensures forall id :: id in rows ==> rows[id] in s
    ensures forall i :: 0 <= i < |s| ==> s[i].id in rows && rows[s[i].id] == s[i]
  {
    assert |multiset(s)| == |s|;
    ValuesCount(rows);
    forall id | id in rows ensures rows[id] in s {
      assert rows[id] in multiset(rows.Values);
    }
    forall i | 0 <= i < |s| ensures s[i].id in rows && rows[s[i].id] == s[i] {
      assert s[i] in multiset(s);
    }
  }

  /** In a keyed table there are as many distinct values as rows. */
  lemma {:induction false} ValuesCount(rows: Rows)
    requires KeyedById(rows)
    ensures |rows.Values| == |rows|
    decreases |rows|
  {
    if rows != map[] {
      var id :| id in rows;
      var rest := rows - {id};
      ValuesWithout(rows, id);
      ValuesCount(rest);
      assert rows.Values == rest.Values + {rows[id]} by {
        forall v | v in rows.Values ensures v in rest.Values + {rows[id]} {
          var k :| k in rows && rows[k] == v;
          if k != id { assert rest[k] == v; }
        }
      }
    }
  }

  /** The DAO: a mutable table of rows keyed by id. */
  class ClipboardItemDao {
    var rows: Rows

    ghost predicate Valid()
      reads this
    {
      KeyedById(rows)
    }

    constructor()
      ensures Valid() && rows == map[]
    {
      rows := map[];
    }

    /** `getAllItems`: the table ordered by timestamp, newest first. */
    method GetAllItems() returns (items: seq<ClipboardItemEntity>)
      requires Valid()
      ensures IsListing(rows, items)
    {
      items := [];
      var rest := rows;
      while rest != map[]
        invariant KeyedById(rest)
        invariant NewestFirst(items)
        invariant multiset(items) + multiset(rest.Values) == multiset(rows.Values)
        decreases |rest|
      {
        var id :| id in rest;
        ValuesWithout(rest, id);
        items := InsertByTime(items, rest[id]);
        rest := rest - {id};
      }
    }

    /** `getItemById`. */
    function GetItemById(id: string): (r: Option<ClipboardItemEntity>)
      requires Valid()
      reads this
      ensures r.Some? <==> id in rows
      ensures r.Some? ==> r.value.id == id && r.value == rows[id]
    {
      if id in rows then Some(rows[id]) else None
    }

    /** `insertItem` with `OnConflictStrategy.REPLACE`. */
    method InsertItem(item: ClipboardItemEntity)
      requires Valid()
      modifies this
      ensures Valid() && rows == old(rows)[item.id := item]
    {
      rows := rows[item.id := item];
    }

    /** `insertItems`: each item in order, later ones replacing earlier ones with the same id. */
    method InsertItems(items: seq<ClipboardItemEntity>)
      requires Valid()
      modifies this
      ensures Valid() && rows == UpsertAll(old(rows), items)
    {
      var i := 0;
      while i < |items|
        invariant 0 <= i <= |items|
        invariant KeyedById(rows)
        invariant rows == UpsertAll(old(rows), items[..i])
      {
        assert items[..i + 1][..i] == items[..i];
        rows := rows[items[i].id := items[i]];
        i := i + 1;
      }
      assert items[..|items|] == items;
    }

    /** `updateItem` (`@Update`): rewrites the row with the same id, if there is one. */
    method UpdateItem(item: ClipboardItemEntity)
      requires Valid()
      modifies this
      ensures Valid()
      ensures rows == if item.id in old(rows) then old(rows)[item.id := item] else old(rows)
    {
      if item.id in rows {
        rows := rows[item.id := item];
      }
    }

    /** `deleteItem` (`@Delete`): removes the row with the entity's primary key. */
    method DeleteItem(item: ClipboardItemEntity)
      requires Valid()
      modifies this
      ensures Valid() && rows == old(rows) - {item.id}
    {
      rows := rows - {item.id};
    }

    /** `deleteItemById`. */
    method DeleteItemById(id: string)
      requires Valid()
      modifies this
      ensures Valid() && rows == old(rows) - {id}
    {
      rows := rows - {id};
    }

    /** `deleteAllItems`. */
    method DeleteAllItems()
      modifies this
      ensures Valid() && rows == map[]
    {
      rows := map[];
    }

    /** `deleteItemsOlderThan`: drops exactly the rows strictly older than the threshold. */
    method DeleteItemsOlderThan(timestamp: int64)
      requires Valid()
      modifies this
      ensures Valid() && rows == SweepOlderThan(old(rows), timestamp)
    {
      rows := SweepOlderThan(rows, timestamp);
    }

    /** `getItemCount`. */
    function GetItemCount(): (n: nat)
      reads this
      requires Valid()
      ensures n == |rows| && n == |rows.Values|
    {
      ValuesCount(rows);
      |rows|
    }

    /** `getItemsWithPagination`: the `[offset, offset + limit)` window of the newest-first listing. */
    method GetItemsWithPagination(limit: int32, offset: int32) returns (page: seq<ClipboardItemEntity>)
      requires Valid()
      ensures exists all :: IsListing(rows, all) && page == Window(all, limit, offset)
    {
      var all := GetAllItems();
      page := Window(all, limit, offset);
    }
  }
}
