/**
 * The mapping store of the replication plugin (src/class-database.php):
 * one network-wide table whose rows bind a site-local object id to a
 * canonical sync id. The table is modelled as the sequence of its rows in
 * insertion (auto-increment) order.
 */
module MappingStore {
  import opened Wrappers

  /** The two object types the plugin stores ('post' and 'term'). */
  datatype ObjectType = Post | Term

  /** The integer columns a caller can select with `get`. */
  datatype Column = Id | SyncId | ObjectId | SiteId

  datatype Row = Row(id: nat, syncId: nat, objectId: nat, objectType: ObjectType, siteId: nat)

  function ColumnOf(r: Row, c: Column): nat {
    match c
    case Id => r.id
    case SyncId => r.syncId
    case ObjectId => r.objectId
    case SiteId => r.siteId
  }

  /** The WHERE clauses the store issues. */
  datatype Filter =
    | ByObject(objectId: nat, objectType: ObjectType, siteId: nat)
    | BySync(objectType: ObjectType, syncId: nat, siteId: nat)

  predicate Matches(r: Row, f: Filter) {
    match f
    case ByObject(o, t, s) => r.objectId == o && r.objectType == t && r.siteId == s
    case BySync(t, y, s) => r.objectType == t && r.syncId == y && r.siteId == s
  }

  predicate NoMatch(rows: seq<Row>, f: Filter) {
    forall i | 0 <= i < |rows| :: !Matches(rows[i], f)
  }

  predicate IsFirstMatch(rows: seq<Row>, f: Filter, i: int) {
    0 <= i < |rows| && Matches(rows[i], f) && forall j | 0 <= j < i :: !Matches(rows[j], f)
  }

  /** Index of the first row matching `f`, or |rows| when none does. */
  function FirstMatch(rows: seq<Row>, f: Filter): (k: nat)
    ensures k <= |rows|
    ensures k == |rows| <==> NoMatch(rows, f)
    ensures k < |rows| ==> IsFirstMatch(rows, f, k)
  {
    if rows == [] then 0
    else if Matches(rows[0], f) then 0
    else
      var k' := FirstMatch(rows[1..], f);
      assert forall j | 1 <= j < |rows| :: rows[j] == rows[1..][j - 1];
      1 + k'
  }

  lemma FirstMatchUnique(rows: seq<Row>, f: Filter, i: int, k: int)
    requires IsFirstMatch(rows, f, i) && IsFirstMatch(rows, f, k)
    ensures i == k
  {
  }

  /** A site id of 0 stands for the blog that is current when the query runs. */
  function ScopedSite(siteId: nat, currentBlog: nat): nat {
    if siteId == 0 then currentBlog else siteId
  }

  /**
   * `get`: the selected column of the first row for (object, type, site),
   * and 0 when no row matches; site 0 means the current blog.
   */
  function Lookup(rows: seq<Row>, currentBlog: nat, objectId: nat, t: ObjectType, col: Column, siteId: nat): (v: nat)
    ensures NoMatch(rows, ByObject(objectId, t, ScopedSite(siteId, currentBlog))) ==> v == 0
    ensures forall i | IsFirstMatch(rows, ByObject(objectId, t, ScopedSite(siteId, currentBlog)), i) ::
              v == ColumnOf(rows[i], col)
  {
    var f := ByObject(objectId, t, ScopedSite(siteId, currentBlog));
    var k := FirstMatch(rows, f);
    if k == |rows| then 0
    else
      assert forall i | IsFirstMatch(rows, f, i) :: i == k by {
        forall i | IsFirstMatch(rows, f, i) ensures i == k { FirstMatchUnique(rows, f, i, k); }
      }
      ColumnOf(rows[k], col)
  }

  /**
   * `get_object_id`: the object id of the first row for (type, sync id) on
   * the current blog, and 0 when no row matches.
   */
  function ReverseLookup(rows: seq<Row>, currentBlog: nat, t: ObjectType, syncId: nat): (v: nat)
    ensures NoMatch(rows, BySync(t, syncId, currentBlog)) ==> v == 0
    ensures forall i | IsFirstMatch(rows, BySync(t, syncId, currentBlog), i) :: v == rows[i].objectId
  {
    var f := BySync(t, syncId, currentBlog);
    var k := FirstMatch(rows, f);
    if k == |rows| then 0
    else
      assert forall i | IsFirstMatch(rows, f, i) :: i == k by {
        forall i | IsFirstMatch(rows, f, i) ensures i == k { FirstMatchUnique(rows, f, i, k); }
      }
      rows[k].objectId
  }

  /** Auto-increment ids grow strictly along the table and stay below the counter. */
  predicate IdsAscending(rows: seq<Row>) {
    forall i, j | 0 <= i < j < |rows| :: rows[i].id < rows[j].id
  }

  predicate RowsValid(rows: seq<Row>, nextId: nat) {
    && nextId >= 1
    && IdsAscending(rows)
    && (forall x | x in rows :: 1 <= x.id < nextId)
  }

  /**
   * `get_last_sync_id`: 0 on an empty table, otherwise the sync id of the
   * row with the largest auto-increment id. This is the most recently
   * inserted row, not the row holding the largest sync id.
   */
  function LastSyncId(rows: seq<Row>): (v: nat)
    ensures rows == [] ==> v == 0
    ensures IdsAscending(rows) ==>
      forall i | 0 <= i < |rows| && (forall j | 0 <= j < |rows| :: rows[j].id <= rows[i].id) :: v == rows[i].syncId
  {
    if rows == [] then 0 else rows[|rows| - 1].syncId
  }

  /** The row `create` inserts: an empty sync id becomes `get_last_sync_id() + 1`. */
  function NewRow(rows: seq<Row>, nextId: nat, objectId: nat, t: ObjectType, syncId: nat, currentBlog: nat): (r: Row)
    ensures r.id == nextId && r.objectId == objectId && r.objectType == t && r.siteId == currentBlog
    ensures r.syncId >= 1
    ensures syncId != 0 ==> r.syncId == syncId
    ensures syncId == 0 ==> r.syncId == LastSyncId(rows) + 1
  {
    Row(nextId, if syncId == 0 then LastSyncId(rows) + 1 else syncId, objectId, t, currentBlog)
  }

  /** The rows left after a DELETE with the WHERE clause `f`, in their order. */
  function Without(rows: seq<Row>, f: Filter): (r: seq<Row>)
    ensures |r| <= |rows|
    ensures forall x :: x in r <==> x in rows && !Matches(x, f)
    ensures NoMatch(rows, f) <==> r == rows
  {
    if rows == [] then []
    else
      var rest := Without(rows[1..], f);
      assert forall x :: x in rows <==> x == rows[0] || x in rows[1..];
      assert NoMatch(rows, f) <==> !Matches(rows[0], f) && NoMatch(rows[1..], f) by {
        assert forall i | 1 <= i < |rows| :: rows[i] == rows[1..][i - 1];
      }
      if Matches(rows[0], f) then rest else [rows[0]] + rest
  }

  lemma {:induction false} WithoutAscending(rows: seq<Row>, f: Filter)
    requires IdsAscending(rows)
    ensures IdsAscending(Without(rows, f))
  {
    if rows != [] {
      WithoutAscending(rows[1..], f);
      var rest := Without(rows[1..], f);
      forall x | x in rest ensures rows[0].id < x.id {
        var i :| 0 <= i < |rows[1..]| && rows[1..][i] == x;
        assert rows[i + 1] == x;
      }
    }
  }

  // ---------------------------------------------------------------------
  // The table name
  // ---------------------------------------------------------------------

  function DigitChar(d: nat): char
    requires d < 10
  {
    "0123456789"[d]
  }

  /** Every character is a decimal digit. */
  predicate AllDigits(s: string) {
    forall i | 0 <= i < |s| :: '0' <= s[i] <= '9'
  }

  /** Decimal rendering of a site id, as PHP's string conversion does. */
  function Dec(n: nat): (s: string)
    ensures |s| >= 1
    ensures AllDigits(s)
    ensures n < 10 <==> |s| == 1
    decreases n
  {
    if n < 10 then [DigitChar(n)] else Dec(n / 10) + [DigitChar(n % 10)]
  }

  /** The value of a string of decimal digits, as PHP's integer conversion reads it. */
  function DecValue(s: string): nat
    decreases |s|
  {
    if s == [] then 0
    else
      var d := s[|s| - 1];
      DecValue(s[..|s| - 1]) * 10 + (if '0' <= d <= '9' then (d - '0') as nat else 0)
  }

  /** Reading back a rendered number gives the number. */
  lemma {:induction false} DecRoundTrip(n: nat)
    ensures DecValue(Dec(n)) == n
    decreases n
  {
    if n >= 10 {
      DecRoundTrip(n / 10);
      var s := Dec(n / 10) + [DigitChar(n % 10)];
      assert s[..|s| - 1] == Dec(n / 10);
    }
  }

  /**
   * `str_replace(needle, '', s)`: scans left to right and drops every
   * non-overlapping occurrence; an empty needle leaves `s` unchanged.
   */
  function StrRemove(s: string, needle: string): (r: string)
    ensures needle == [] || needle[0] !in s ==> r == s
    decreases |s|
  {
    if needle == [] || s == [] then s
    else if needle <= s then StrRemove(s[|needle|..], needle)
    else [s[0]] + StrRemove(s[1..], needle)
  }

  /** `get_table`: the prefix with every "_<current blog>" removed, then "syncs". */
  function TableName(prefix: string, currentBlog: nat): (r: string)
    ensures |r| >= 5 && r[|r| - 5..] == "syncs"
    ensures '_' !in prefix ==> r == prefix + "syncs"
  {
    StrRemove(prefix, "_" + Dec(currentBlog)) + "syncs"
  }

  /** The schema version `create_table` installs. */
  const TableVersion: int := 3

  /**
   * The `Database` object: the table rows, the auto-increment counter, the
   * ambient current blog (set by the host's blog switching) and the
   * network option `_syncs_table_version`.
   */
  class Database {
    var rows: seq<Row>
    var nextId: nat
    var currentBlog: nat
    var installedVersion: int

    ghost predicate Valid()
      reads this
    {
      RowsValid(rows, nextId)
    }

    /** Opens the stored table and runs the version bootstrap. */
    constructor (storedRows: seq<Row>, storedNextId: nat, blog: nat, storedVersion: int, optionsLoaded: bool)
      requires RowsValid(storedRows, storedNextId)
      ensures Valid() && currentBlog == blog
      ensures optionsLoaded && storedVersion != TableVersion ==>
                rows == [] && nextId == 1 && installedVersion == TableVersion
      ensures !(optionsLoaded && storedVersion != TableVersion) ==>
                rows == storedRows && nextId == storedNextId && installedVersion == storedVersion
    {
      rows, nextId, currentBlog, installedVersion := storedRows, storedNextId, blog, storedVersion;
      new;
      CreateTable(optionsLoaded);
    }

    /**
     * `create_table`: when the network options are loaded and the stored
     * version is not 3, the table is dropped and recreated (all rows lost,
     * auto-increment restarted) and the marker set to 3; otherwise nothing
     * changes. Afterwards the marker is 3, so a second call is a no-op.
     */
    method CreateTable(optionsLoaded: bool)
      requires Valid()
      modifies this`rows, this`nextId, this`installedVersion
      ensures Valid()
      ensures optionsLoaded ==> installedVersion == TableVersion
      ensures optionsLoaded && old(installedVersion) != TableVersion ==> rows == [] && nextId == 1
      ensures !(optionsLoaded && old(installedVersion) != TableVersion) ==>
                rows == old(rows) && nextId == old(nextId) && installedVersion == old(installedVersion)
    {
      if !optionsLoaded {
        return;
      }
      if installedVersion != TableVersion {
        rows, nextId := [], 1;
        installedVersion := TableVersion;
      }
    }

    /**
     * `delete`: removes every row for (object, type, current blog), keeps
     * all other rows in order, and reports whether a row was removed.
     */
    method Delete(objectId: nat, t: ObjectType) returns (deleted: bool)
      requires Valid()
      modifies this`rows
      ensures Valid()
      ensures rows == Without(old(rows), ByObject(objectId, t, currentBlog))
      ensures deleted <==> !NoMatch(old(rows), ByObject(objectId, t, currentBlog))
    {
      var f := ByObject(objectId, t, currentBlog);
      deleted := !NoMatch(rows, f);
      WithoutAscending(rows, f);
      rows := Without(rows, f);
    }

    /**
     * `create`: when the insert succeeds, appends exactly one row tagged
     * with the current blog and returns the insert count 1 (not the sync
     * id); when it fails nothing changes and the result is `false`.
     */
    method Create(objectId: nat, t: ObjectType, syncId: nat, insertOk: bool) returns (inserted: Option<nat>)
      requires Valid()
      modifies this`rows, this`nextId
      ensures Valid()
      ensures insertOk ==>
                && rows == old(rows) + [NewRow(old(rows), old(nextId), objectId, t, syncId, currentBlog)]
                && nextId == old(nextId) + 1 && inserted == Some(1)
      ensures !insertOk ==> rows == old(rows) && nextId == old(nextId) && inserted == None
    {
      if !insertOk {
        return None;
      }
      var row := NewRow(rows, nextId, objectId, t, syncId, currentBlog);
      rows := rows + [row];
      nextId := nextId + 1;
      inserted := Some(1);
    }

    function Get(objectId: nat, t: ObjectType, key: Column, siteId: nat): nat
      reads this
    {
      Lookup(rows, currentBlog, objectId, t, key, siteId)
    }

    function GetObjectId(t: ObjectType, syncId: nat): nat
      reads this
    {
      ReverseLookup(rows, currentBlog, t, syncId)
    }

    function GetLastSyncId(): nat
      reads this
    {
      LastSyncId(rows)
    }

    function GetTable(prefix: string): string
      reads this
    {
      TableName(prefix, currentBlog)
    }
  }

  // ---------------------------------------------------------------------
  // Properties of the store
  // ---------------------------------------------------------------------

  lemma AppendedIsFirstMatch(rows: seq<Row>, r: Row, f: Filter)
    requires NoMatch(rows, f) && Matches(r, f)
    ensures IsFirstMatch(rows + [r], f, |rows|)
  {
    forall j | 0 <= j < |rows| ensures !Matches((rows + [r])[j], f) {
      assert (rows + [r])[j] == rows[j];
    }
  }

  /**
   * `get` right after `create` on an object that had no row on the current
   * blog returns the sync id `create` stored.
   */
  lemma CreateThenGet(rows: seq<Row>, nextId: nat, blog: nat, objectId: nat, t: ObjectType, syncId: nat)
    requires NoMatch(rows, ByObject(objectId, t, blog))
    ensures var r := NewRow(rows, nextId, objectId, t, syncId, blog);
            Lookup(rows + [r], blog, objectId, t, SyncId, 0) == r.syncId
  {
    var r := NewRow(rows, nextId, objectId, t, syncId, blog);
    AppendedIsFirstMatch(rows, r, ByObject(objectId, t, blog));
  }

  /**
   * `get_object_id` for the stored sync id right after `create` returns the
   * object, provided no earlier row on the current blog used that sync id.
   */
  lemma CreateThenGetObjectId(rows: seq<Row>, nextId: nat, blog: nat, objectId: nat, t: ObjectType, syncId: nat)
    requires NoMatch(rows, BySync(t, NewRow(rows, nextId, objectId, t, syncId, blog).syncId, blog))
    ensures var r := NewRow(rows, nextId, objectId, t, syncId, blog);
            ReverseLookup(rows + [r], blog, t, r.syncId) == objectId
  {
    var r := NewRow(rows, nextId, objectId, t, syncId, blog);
    AppendedIsFirstMatch(rows, r, BySync(t, r.syncId, blog));
  }

  /**
   * On an empty table the insert count that `create` returns (1) coincides
   * with the sync id it assigns, which is what the store's tests rely on:
   * `get` and `get_last_sync_id` give 1 and `get_object_id(type, 1)` gives
   * the object back.
   */
  lemma CreateOnEmptyTable(nextId: nat, blog: nat, objectId: nat, t: ObjectType)
    ensures var rows := [NewRow([], nextId, objectId, t, 0, blog)];
            && rows[0].syncId == 1
            && Lookup(rows, blog, objectId, t, SyncId, 0) == 1
            && ReverseLookup(rows, blog, t, 1) == objectId
            && LastSyncId(rows) == 1
  {
    var r := NewRow([], nextId, objectId, t, 0, blog);
    assert [] + [r] == [r];
    CreateThenGet([], nextId, blog, objectId, t, 0);
    CreateThenGetObjectId([], nextId, blog, objectId, t, 0);
  }

  /**
   * After `delete` of an object on the current blog, `get_object_id` for a
   * sync id that only that object carried there misses.
   */
  lemma DeleteThenGetObjectIdMisses(rows: seq<Row>, blog: nat, objectId: nat, t: ObjectType, syncId: nat)
    requires forall x | x in rows && Matches(x, BySync(t, syncId, blog)) :: x.objectId == objectId
    ensures ReverseLookup(Without(rows, ByObject(objectId, t, blog)), blog, t, syncId) == 0
  {
    var rest := Without(rows, ByObject(objectId, t, blog));
    forall i | 0 <= i < |rest| ensures !Matches(rest[i], BySync(t, syncId, blog)) {
      assert rest[i] in rest;
    }
  }

  /**
   * Because `get_last_sync_id` reads the most recent row rather than the
   * largest sync id, `create` can hand out a sync id that another object
   * already carries: after rows with sync ids 2 then 1, a fresh object gets 2.
   */
  lemma FreshSyncIdCanCollide(blog: nat)
    ensures var rows := [Row(1, 2, 10, Post, blog), Row(2, 1, 11, Post, blog)];
            && IdsAscending(rows)
            && NewRow(rows, 3, 12, Post, 0, blog).syncId == rows[0].syncId
  {
  }

  lemma {:induction false} StrRemoveSkipsPlainPrefix(a: string, rest: string, needle: string)
    requires '_' !in a && needle != [] && needle[0] == '_'
    ensures StrRemove(a + rest, needle) == a + StrRemove(rest, needle)
  {
    if a != [] {
      assert a[0] in a;
      assert (a + rest)[0] == a[0] != needle[0];
      assert !(needle <= a + rest);
      assert (a + rest)[1..] == a[1..] + rest;
      StrRemoveSkipsPlainPrefix(a[1..], rest, needle);
      calc {
        StrRemove(a + rest, needle);
        [a[0]] + StrRemove(a[1..] + rest, needle);
        [a[0]] + (a[1..] + StrRemove(rest, needle));
        { assert [a[0]] + a[1..] == a; }
        a + StrRemove(rest, needle);
      }
    } else {
      assert a + rest == rest;
    }
  }

  /**
   * Every site of the network resolves the same table: for a base prefix
   * without underscores (such as "wp"), the main site's prefix "wp_" and a
   * site's prefix "wp_<id>_" both give "wp_syncs" while that site is current.
   */
  lemma {:induction false} SharedTableName(base: string, mainBlog: nat, blog: nat)
    requires '_' !in base
    ensures TableName(base + "_", mainBlog) == base + "_syncs"
    ensures TableName(base + "_" + Dec(blog) + "_", blog) == base + "_syncs"
  {
    var needle := "_" + Dec(mainBlog);
    StrRemoveSkipsPlainPrefix(base, "_", needle);
    assert StrRemove("_", needle) == "_";
    assert base + "_" + "syncs" == base + "_syncs";
    var n := "_" + Dec(blog);
    assert base + "_" + Dec(blog) + "_" == base + (n + "_");
    StrRemoveSkipsPlainPrefix(base, n + "_", n);
    assert (n + "_")[|n|..] == "_";
    assert StrRemove(n + "_", n) == StrRemove("_", n);
    assert StrRemove("_", n) == "_";
    assert base + "_" + "syncs" == base + "_syncs";
  }
}
