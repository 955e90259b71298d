/**
 * Value-level specification of the replication engine (src/class-syncs.php).
 *
 * WordPress is modelled as one object store per site (posts and terms, each
 * with its own auto-increment counter), the shared mapping table, the
 * ambient current blog and the stack that `switch_to_blog` pushes and
 * `restore_current_blog` pops. Calls whose outcome the plugin cannot see
 * in advance (deletes and inserts that may fail, the large-network test,
 * the site list) are inputs.
 */
module Replication {
  import opened Wrappers
  import opened MappingStore

  /** One meta row's value: a scalar (stored as a string) or a serialized array. */
  datatype MetaValue = Str(s: string) | Arr(items: seq<MetaValue>)

  /** An object's metadata as `get_metadata` returns it: key to the values of its meta rows. */
  type Meta = map<string, seq<MetaValue>>

  /** The core fields of a post (`get_post(..., ARRAY_A)`) or a term (`get_term_by(..., ARRAY_A)`). */
  datatype Data =
    | PostData(parent: nat, fields: map<string, string>)
    | TermData(name: string, taxonomy: string, parent: nat, description: string, slug: string)

  datatype Obj = Obj(data: Data, meta: Meta)

  /** One object table of a site: objects by id and its auto-increment counter. */
  datatype Table = Table(objects: map<nat, Obj>, next: nat)

  datatype Site = Site(posts: Table, terms: Table)

  const EmptyTable: Table := Table(map[], 1)
  const EmptySite: Site := Site(EmptyTable, EmptyTable)

  predicate TableValid(t: Table, kind: ObjectType) {
    && t.next >= 1
    && forall id | id in t.objects ::
         1 <= id < t.next && (t.objects[id].data.PostData? <==> kind == Post)
  }

  predicate SiteValid(s: Site) {
    TableValid(s.posts, Post) && TableValid(s.terms, Term)
  }

  function SiteAt(sites: map<nat, Site>, s: nat): Site {
    if s in sites then sites[s] else EmptySite
  }

  function TableOf(site: Site, kind: ObjectType): Table {
    match kind
    case Post => site.posts
    case Term => site.terms
  }

  function WithTable(site: Site, kind: ObjectType, table: Table): Site {
    match kind
    case Post => site.(posts := table)
    case Term => site.(terms := table)
  }

  /** The objects of type `kind` stored on site `s`. */
  function Objects(sites: map<nat, Site>, s: nat, kind: ObjectType): map<nat, Obj> {
    TableOf(SiteAt(sites, s), kind).objects
  }

  /**
   * Everything `sync` reads or writes: the mapping table and its counter,
   * the current blog, the switched-blog stack and the sites' stores.
   */
  datatype World = World(rows: seq<Row>, nextRow: nat, blog: nat, stack: seq<nat>, sites: map<nat, Site>)

  predicate WorldValid(w: World) {
    RowsValid(w.rows, w.nextRow) && forall s | s in w.sites :: SiteValid(w.sites[s])
  }

  // ---------------------------------------------------------------------
  // Blog context
  // ---------------------------------------------------------------------

  /** `ms_is_switched()` */
  predicate IsSwitched(w: World) {
    w.stack != []
  }

  /** `switch_to_blog(s)`: remembers the current blog and makes `s` current. */
  function SwitchTo(w: World, s: nat): World {
    w.(stack := w.stack + [w.blog], blog := s)
  }

  /** `restore_current_blog()`: pops the last remembered blog; no-op when nothing is switched. */
  function RestoreCurrent(w: World): World {
    if w.stack == [] then w
    else w.(blog := w.stack[|w.stack| - 1], stack := w.stack[..|w.stack| - 1])
  }

  // ---------------------------------------------------------------------
  // Objects: snapshot, delete, create
  // ---------------------------------------------------------------------

  /** The array `Syncs::get` builds; `data` is None where WordPress returns null or false. */
  datatype Snapshot = Snapshot(kind: ObjectType, data: Option<Data>, meta: Meta)

  /**
   * `Syncs::get`: the object's fields and metadata on the current blog. A
   * term is found only in the taxonomy the last term callback recorded.
   */
  function TakeSnapshot(w: World, objectId: nat, kind: ObjectType, taxonomy: string): (r: Snapshot)
    ensures r.kind == kind
    ensures objectId !in Objects(w.sites, w.blog, kind) ==> r.data.None? && r.meta == map[]
    ensures objectId in Objects(w.sites, w.blog, kind) ==>
              && r.meta == Objects(w.sites, w.blog, kind)[objectId].meta
              && (r.data.Some? <==>
                    || kind == Post
                    || (Objects(w.sites, w.blog, kind)[objectId].data.TermData? &&
                        Objects(w.sites, w.blog, kind)[objectId].data.taxonomy == taxonomy))
    ensures r.data.Some? ==>
              && objectId in Objects(w.sites, w.blog, kind)
              && r.data.value == Objects(w.sites, w.blog, kind)[objectId].data
              && (kind == Term ==> r.data.value.TermData? && r.data.value.taxonomy == taxonomy)
  {
    var objs := Objects(w.sites, w.blog, kind);
    if objectId !in objs then Snapshot(kind, None, map[])
    else
      var o := objs[objectId];
      var found := kind == Post || (o.data.TermData? && o.data.taxonomy == taxonomy);
      Snapshot(kind, if found then Some(o.data) else None, o.meta)
  }

  /** A successful `wp_delete_post` / `wp_delete_term` on the current blog. */
  function RemoveObject(w: World, kind: ObjectType, id: nat): World {
    var site := SiteAt(w.sites, w.blog);
    var table := TableOf(site, kind);
    w.(sites := w.sites[w.blog := WithTable(site, kind, table.(objects := table.objects - {id}))])
  }

  predicate NamedTerm(o: Obj, name: string, taxonomy: string) {
    o.data.TermData? && o.data.name == name && o.data.taxonomy == taxonomy
  }

  /** `get_term_by('name', ...)`: the lowest-numbered term with that name in that taxonomy. */
  function FindTermNamed(objs: map<nat, Obj>, name: string, taxonomy: string, bound: nat): (r: Option<nat>)
    ensures r.Some? ==> r.value < bound && r.value in objs && NamedTerm(objs[r.value], name, taxonomy)
    ensures r.Some? ==> forall id | id in objs && id < r.value :: !NamedTerm(objs[id], name, taxonomy)
    ensures r.None? ==> forall id | id in objs && id < bound :: !NamedTerm(objs[id], name, taxonomy)
    decreases bound
  {
    if bound == 0 then None
    else
      var r := FindTermNamed(objs, name, taxonomy, bound - 1);
      if r.Some? then r
      else if bound - 1 in objs && NamedTerm(objs[bound - 1], name, taxonomy) then Some(bound - 1)
      else None
  }

  /** The forced delete of a same-named term on the current blog before a term is inserted. */
  function RemoveNamedTerm(w: World, name: string, taxonomy: string): World {
    var terms := TableOf(SiteAt(w.sites, w.blog), Term);
    match FindTermNamed(terms.objects, name, taxonomy, terms.next)
    case None => w
    case Some(id) => RemoveObject(w, Term, id)
  }

  /**
   * Parent-id translation: a positive parent is looked up on the origin
   * site (its sync id), then that sync id on the current blog (its local
   * id); either lookup giving 0 makes the parent 0. The second component is
   * what the `$sync_id` parameter holds afterwards: the parent lookup
   * overwrites it, so it stays the caller's sync id only when the parent is 0.
   */
  function ResolveParent(rows: seq<Row>, blog: nat, kind: ObjectType, parent: nat, origin: nat, callerSync: nat): (r: (nat, nat))
    ensures parent == 0 ==> r == (0, callerSync)
    ensures parent > 0 && NoMatch(rows, ByObject(parent, kind, ScopedSite(origin, blog))) ==> r == (0, 0)
    ensures parent > 0 ==>
      forall i | IsFirstMatch(rows, ByObject(parent, kind, ScopedSite(origin, blog)), i) :: r.1 == rows[i].syncId
    ensures r.0 != 0 ==> Linked(rows, kind, ScopedSite(origin, blog), parent, blog, r.0)
    ensures parent > 0 ==>
      forall i, j | && IsFirstMatch(rows, ByObject(parent, kind, ScopedSite(origin, blog)), i)
                    && rows[i].syncId != 0
                    && IsFirstMatch(rows, BySync(kind, rows[i].syncId, blog), j) :: r.0 == rows[j].objectId
    ensures parent > 0 ==>
      forall i | && IsFirstMatch(rows, ByObject(parent, kind, ScopedSite(origin, blog)), i)
                 && (rows[i].syncId == 0 || NoMatch(rows, BySync(kind, rows[i].syncId, blog))) :: r.0 == 0
  {
    if parent == 0 then (0, callerSync)
    else
      var s := Lookup(rows, blog, parent, kind, SyncId, origin);
      if s == 0 then (0, 0)
      else
        var local := ReverseLookup(rows, blog, kind, s);
        assert local != 0 ==> Linked(rows, kind, ScopedSite(origin, blog), parent, blog, local) by {
          if local != 0 {
            var k := FirstMatch(rows, ByObject(parent, kind, ScopedSite(origin, blog)));
            var j := FirstMatch(rows, BySync(kind, s, blog));
            assert rows[k] in rows && rows[j] in rows;
          }
        }
        (local, s)
  }

  /**
   * Object `originId` on `originSite` and object `targetId` on `targetSite`
   * are bound to the same non-zero sync id by the mapping table.
   */
  ghost predicate Linked(rows: seq<Row>, kind: ObjectType, originSite: nat, originId: nat, targetSite: nat, targetId: nat) {
    exists x, y | x in rows && y in rows ::
      && Matches(x, ByObject(originId, kind, originSite))
      && Matches(y, ByObject(targetId, kind, targetSite))
      && x.syncId == y.syncId && x.syncId != 0
  }

  /** Single-row meta values are stored as their one value, others as one array value. */
  function Collapse(values: seq<MetaValue>): MetaValue {
    if |values| == 1 then values[0] else Arr(values)
  }

  /** Each key of the snapshot's metadata written once with its collapsed value. */
  function Collapsed(meta: Meta): Meta {
    map k | k in meta :: [Collapse(meta[k])]
  }

  /**
   * The metadata a replica ends with: the collapsed snapshot metadata, then
   * `sync_id` stamped (overwriting a copied one).
   */
  function ReplicaMeta(meta: Meta, stamp: nat): Meta {
    Collapsed(meta)["sync_id" := [Str(Dec(stamp))]]
  }

  /** Inserts a new object with the next id of its table on the current blog. */
  function InsertObject(w: World, kind: ObjectType, data: Data, meta: Meta): (World, Option<nat>) {
    var site := SiteAt(w.sites, w.blog);
    var table := TableOf(site, kind);
    var obj := Obj(data, meta);
    (w.(sites := w.sites[w.blog := WithTable(site, kind, Table(table.objects[table.next := obj], table.next + 1))]),
     Some(table.next))
  }

  datatype Action = Create | Delete

  /** What one `sync` call replicates. */
  datatype Job = Job(origin: nat, kind: ObjectType, syncId: nat, action: Action, snapshot: Snapshot)

  /** The outcomes of the calls that may fail on one site. */
  datatype SiteOutcome = SiteOutcome(deleteOk: bool, insertOk: bool, rowOk: bool)

  /**
   * `Syncs::create` on the current blog. Fails (None) when the snapshot has
   * no data or the insert fails; a term insert first force-deletes a term
   * of the same name, even when the insert then fails.
   */
  function CreateObject(w: World, job: Job, o: SiteOutcome): (r: (World, Option<nat>))
    ensures r.0.rows == w.rows && r.0.nextRow == w.nextRow && r.0.blog == w.blog && r.0.stack == w.stack
    ensures forall t | t != w.blog :: SiteAt(r.0.sites, t) == SiteAt(w.sites, t)
    ensures r.1.Some? <==> job.snapshot.data.Some? && o.insertOk
    ensures r.1.Some? && (job.snapshot.data.value.PostData? <==> job.kind == Post) ==>
              && r.1.value == TableOf(SiteAt(w.sites, w.blog), job.kind).next
              && r.1.value in Objects(r.0.sites, w.blog, job.kind)
  {
    match job.snapshot.data
    case None => (w, None)
    case Some(PostData(parent, fields)) =>
      var p := ResolveParent(w.rows, w.blog, Post, parent, job.origin, job.syncId);
      if !o.insertOk then (w, None)
      else InsertObject(w, Post, PostData(p.0, fields), ReplicaMeta(job.snapshot.meta, p.1))
    case Some(TermData(name, taxonomy, parent, description, slug)) =>
      var w1 := RemoveNamedTerm(w, name, taxonomy);
      assert TableOf(SiteAt(w1.sites, w.blog), Term).next == TableOf(SiteAt(w.sites, w.blog), Term).next;
      var p := ResolveParent(w1.rows, w1.blog, Term, parent, job.origin, job.syncId);
      if !o.insertOk then (w1, None)
      else InsertObject(w1, Term, TermData(name, taxonomy, p.0, description, slug), ReplicaMeta(job.snapshot.meta, p.1))
  }

  /** `Database::create` on the current blog, as seen by the world. */
  function AddRow(w: World, objectId: nat, kind: ObjectType, syncId: nat, ok: bool): World {
    if !ok then w
    else w.(rows := w.rows + [NewRow(w.rows, w.nextRow, objectId, kind, syncId, w.blog)], nextRow := w.nextRow + 1)
  }

  /**
   * The delete half of one site's step: the remote id mapped to the sync
   * id; if there is one, delete the object and, on success, its rows. The
   * flag is `$deleted`: true with no remote id, false when the delete failed.
   */
  function RemoveRemote(w: World, job: Job, o: SiteOutcome): (r: (World, bool))
    ensures r.0.blog == w.blog && r.0.stack == w.stack && r.0.nextRow == w.nextRow
    ensures !r.1 ==> r.0 == w
    ensures o.deleteOk ==> r.1
    ensures forall x | x in r.0.rows :: x in w.rows
    ensures forall x | x in w.rows && x.siteId != w.blog :: x in r.0.rows
    ensures forall t | t != w.blog :: SiteAt(r.0.sites, t) == SiteAt(w.sites, t)
    ensures var k := ReverseLookup(w.rows, w.blog, job.kind, job.syncId);
            o.deleteOk && k != 0 ==>
              Objects(r.0.sites, w.blog, job.kind) == Objects(w.sites, w.blog, job.kind) - {k}
  {
    var remote := ReverseLookup(w.rows, w.blog, job.kind, job.syncId);
    if remote == 0 then (w, true)
    else if !o.deleteOk then (w, false)
    else
      var f := ByObject(remote, job.kind, w.blog);
      assert !NoMatch(w.rows, f) by {
        var k := FirstMatch(w.rows, BySync(job.kind, job.syncId, w.blog));
        assert Matches(w.rows[k], f);
      }
      (RemoveObject(w, job.kind, remote).(rows := Without(w.rows, f)), !NoMatch(w.rows, f))
  }

  /**
   * One iteration of the fan-out loop. The origin site is skipped without
   * switching. The two `continue` paths (failed delete, failed create) leave
   * the blog switched; only the path that reaches the end restores it.
   */
  function SiteStep(w: World, job: Job, s: nat, o: SiteOutcome): (r: World)
    ensures s == job.origin ==> r == w
    ensures r.nextRow >= w.nextRow
    ensures forall t | t != s :: SiteAt(r.sites, t) == SiteAt(w.sites, t)
    ensures forall x: Row | x.siteId != s :: x in r.rows <==> x in w.rows
  {
    if s == job.origin then w
    else
      var d := RemoveRemote(SwitchTo(w, s), job, o);
      if !d.1 then d.0
      else if job.action == Delete then RestoreCurrent(d.0)
      else
        var c := CreateObject(d.0, job, o);
        if c.1.None? then c.0
        else RestoreCurrent(AddRow(c.0, c.1.value, job.kind, job.syncId, o.rowOk))
  }

  /** The fan-out loop over the given sites, in order. */
  function FoldSites(w: World, job: Job, sites: seq<nat>, outcome: nat -> SiteOutcome): (r: World)
    ensures forall t | t == job.origin || t !in sites :: SiteAt(r.sites, t) == SiteAt(w.sites, t)
    ensures forall x: Row | x.siteId == job.origin || x.siteId !in sites :: x in r.rows <==> x in w.rows
    decreases |sites|
  {
    if sites == [] then w
    else
      var last := sites[|sites| - 1];
      assert forall t | t !in sites :: t !in sites[..|sites| - 1] && t != last;
      SiteStep(FoldSites(w, job, sites[..|sites| - 1], outcome), job, last, outcome(last))
  }

  /** `get_sites(['limit' => 1000])` returns at most this many sites. */
  const SiteLimit: nat := 1000

  function VisitedSites(network: seq<nat>): seq<nat> {
    if |network| <= SiteLimit then network else network[..SiteLimit]
  }

  /** The host's answers during one `sync` call. */
  datatype Env = Env(originInsertOk: bool, largeNetwork: bool, network: seq<nat>, outcome: nat -> SiteOutcome)

  /**
   * The first step of `sync`: the object's sync id on the current blog, or
   * else a new row. The value used afterwards is what `Database::create`
   * returns, the insert count 1, not the sync id the new row stores.
   */
  function ResolveSyncId(w: World, objectId: nat, kind: ObjectType, insertOk: bool): (r: (World, nat))
    ensures r.0.sites == w.sites && r.0.blog == w.blog && r.0.stack == w.stack
    ensures r.1 == 0 <==> Lookup(w.rows, w.blog, objectId, kind, SyncId, 0) == 0 && !insertOk
    ensures r.0.rows == w.rows || r.0.rows == w.rows + [NewRow(w.rows, w.nextRow, objectId, kind, 0, w.blog)]
    ensures r.0.rows != w.rows ==> r.1 == 1
  {
    var existing := Lookup(w.rows, w.blog, objectId, kind, SyncId, 0);
    if existing != 0 then (w, existing)
    else if !insertOk then (w, 0)
    else (AddRow(w, objectId, kind, 0, true), 1)
  }

  /**
   * The sync-id resolution as the plugin evidently means it: a fresh object
   * fans out under the sync id its new row stores, so the id used is always
   * one the origin's own row carries.
   */
  function ResolveSyncIdIntended(w: World, objectId: nat, kind: ObjectType, insertOk: bool): (r: (World, nat))
    ensures r.0 == ResolveSyncId(w, objectId, kind, insertOk).0
    ensures r.1 == 0 <==> ResolveSyncId(w, objectId, kind, insertOk).1 == 0
    ensures r.1 != 0 ==> exists x | x in r.0.rows :: Matches(x, ByObject(objectId, kind, w.blog)) && x.syncId == r.1
  {
    var existing := Lookup(w.rows, w.blog, objectId, kind, SyncId, 0);
    if existing != 0 then
      var k := FirstMatch(w.rows, ByObject(objectId, kind, w.blog));
      assert w.rows[k] in w.rows;
      (w, existing)
    else if !insertOk then (w, 0)
    else
      var x := NewRow(w.rows, w.nextRow, objectId, kind, 0, w.blog);
      assert x in (w.rows + [x]);
      (AddRow(w, objectId, kind, 0, true), x.syncId)
  }

  /**
   * The rest of `sync` once the sync id is resolved to `res`: the two bails,
   * the origin row's removal for a delete, the snapshot and the fan-out.
   */
  function Propagate(res: (World, nat), origin: nat, taxonomy: string, objectId: nat, kind: ObjectType, action: Action, env: Env): (r: (World, bool))
    ensures r.1 <==> res.1 != 0 && !env.largeNetwork
    ensures forall t | t == origin || t !in VisitedSites(env.network) :: SiteAt(r.0.sites, t) == SiteAt(res.0.sites, t)
  {
    if res.1 == 0 || env.largeNetwork then (res.0, false)
    else
      var w1 := res.0;
      var w2 := if action == Delete then w1.(rows := Without(w1.rows, ByObject(objectId, kind, w1.blog))) else w1;
      var job := Job(origin, kind, res.1, action, TakeSnapshot(w2, objectId, kind, taxonomy));
      (FoldSites(w2, job, VisitedSites(env.network), env.outcome), true)
  }

  /** `Syncs::sync`: the world afterwards and the returned flag. */
  function SyncSpec(w: World, origin: nat, taxonomy: string, objectId: nat, kind: ObjectType, action: Action, env: Env): (r: (World, bool))
    ensures r.1 <==> ResolveSyncId(w, objectId, kind, env.originInsertOk).1 != 0 && !env.largeNetwork
    ensures forall t | t == origin || t !in VisitedSites(env.network) :: SiteAt(r.0.sites, t) == SiteAt(w.sites, t)
  {
    Propagate(ResolveSyncId(w, objectId, kind, env.originInsertOk), origin, taxonomy, objectId, kind, action, env)
  }

  /** `sync` with the intended sync-id resolution; everything else as written. */
  function SyncIntended(w: World, origin: nat, taxonomy: string, objectId: nat, kind: ObjectType, action: Action, env: Env): (r: (World, bool))
    ensures r.1 <==> ResolveSyncIdIntended(w, objectId, kind, env.originInsertOk).1 != 0 && !env.largeNetwork
    ensures forall t | t == origin || t !in VisitedSites(env.network) :: SiteAt(r.0.sites, t) == SiteAt(w.sites, t)
  {
    Propagate(ResolveSyncIdIntended(w, objectId, kind, env.originInsertOk), origin, taxonomy, objectId, kind, action, env)
  }
}
