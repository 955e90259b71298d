/**
 * What the sync id `sync` fans out under does to repeated syncs
 * (src/class-syncs.php:478-484). `Database::create` returns the insert
 * count 1, and `sync` uses that as the sync id, while the origin's new row
 * stores `get_last_sync_id() + 1`. The first half of this module shows three
 * consequences on small networks; the second half proves that the
 * evidently intended resolution (`ResolveSyncIdIntended`, which fans out
 * under the sync id the origin row stores) makes a repeated sync replace
 * the copy and a later delete remove it.
 */
module SyncIdFinding {
  import opened Wrappers
  import opened MappingStore
  import opened Replication
  import opened ReplicationProofs

  // ---------------------------------------------------------------------
  // Small networks: sites 1 and 2, synced from site 1
  // ---------------------------------------------------------------------

  /** Every call on every site succeeds. */
  const AllSucceed: nat -> SiteOutcome := (_: nat) => SiteOutcome(true, true, true)

  /** A network of sites 1 and 2, not large, where every call succeeds. */
  const TwoSites: Env := Env(true, false, [1, 2], AllSucceed)

  /** A post with no fields and no meta. */
  const Plain: Obj := Obj(PostData(0, map[]), map[])

  /** What `Syncs::get` reads for either of the plain posts below. */
  const PlainSnapshot: Snapshot := Snapshot(Post, Some(PostData(0, map[])), map[])

  /** The copy of a plain post made under sync id `stamp`. */
  function PlainCopy(stamp: nat): Obj {
    Obj(PostData(0, map[]), ReplicaMeta(map[], stamp))
  }

  /** Site 1 stores posts 10 and 50; post 50 is already mapped, under sync id 7. */
  const Seeded: World := World([Row(1, 7, 50, Post, 1)], 2, 1, [], map[1 := Site(Table(map[10 := Plain, 50 := Plain], 51), EmptyTable)])

  /** `Seeded` once post 10 has its origin row, with sync id 8. */
  const SeededMapped: World := Seeded.(rows := [Row(1, 7, 50, Post, 1), Row(2, 8, 10, Post, 1)], nextRow := 3)

  /** `Seeded` after the first sync of post 10: site 2 holds copy 1, mapped under sync id 1. */
  const SeededSynced: World :=
    SeededMapped.(rows := SeededMapped.rows + [Row(3, 1, 1, Post, 2)], nextRow := 4,
                  sites := SeededMapped.sites[2 := Site(Table(map[1 := PlainCopy(1)], 2), EmptyTable)])

  /** Site 1 stores posts 10 and 11, and nothing is mapped yet. */
  const Unmapped: World := World([], 1, 1, [], map[1 := Site(Table(map[10 := Plain, 11 := Plain], 12), EmptyTable)])

  /** `Unmapped` once post 10 has its origin row, with sync id 1. */
  const UnmappedMapped: World := Unmapped.(rows := [Row(1, 1, 10, Post, 1)], nextRow := 2)

  /** `Unmapped` after the first sync of post 10: site 2 holds copy 1, mapped under sync id 1. */
  const UnmappedSynced: World :=
    UnmappedMapped.(rows := UnmappedMapped.rows + [Row(2, 1, 1, Post, 2)], nextRow := 3,
                    sites := UnmappedMapped.sites[2 := Site(Table(map[1 := PlainCopy(1)], 2), EmptyTable)])

  /** Visiting site 2, which has no store yet and maps nothing to the job's sync id, copies the post there as post 1. */
  lemma VisitFresh(w: World, job: Job)
    requires w.blog == 1 && w.stack == [] && 2 !in w.sites && job.origin == 1 && job.action == Create && job.kind == Post
    requires job.snapshot.data == Some(PostData(0, map[]))
    requires job.syncId != 0 && NoMatch(w.rows, BySync(Post, job.syncId, 2))
    ensures SiteStep(w, job, 2, AllSucceed(2))
         == w.(rows := w.rows + [Row(w.nextRow, job.syncId, 1, Post, 2)], nextRow := w.nextRow + 1,
               sites := w.sites[2 := Site(Table(map[1 := Obj(PostData(0, map[]), ReplicaMeta(job.snapshot.meta, job.syncId))], 2), EmptyTable)])
  {
    var ws := SwitchTo(w, 2);
    assert ReverseLookup(ws.rows, 2, Post, job.syncId) == 0;
    var d := RemoveRemote(ws, job, AllSucceed(2));
    assert d == (ws, true);
    var c := CreateObject(d.0, job, AllSucceed(2));
    assert c.1 == Some(1);
    assert NewRow(c.0.rows, c.0.nextRow, 1, Post, job.syncId, 2) == Row(w.nextRow, job.syncId, 1, Post, 2);
  }

  /** The fan-out over sites 1 and 2 from site 1 is the visit of site 2. */
  lemma FoldTwo(w: World, job: Job)
    requires job.origin == 1
    ensures FoldSites(w, job, [1, 2], AllSucceed) == SiteStep(w, job, 2, AllSucceed(2))
    ensures VisitedSites(TwoSites.network) == [1, 2]
  {
    assert [1, 2][..1] == [1];
    assert [1][..0] == [];
  }

  /** On `TwoSites`, propagating a resolved sync id from site 1 is one visit of site 2. */
  lemma PropagateTwo(res: (World, nat), objectId: nat, kind: ObjectType, action: Action)
    requires res.1 != 0
    ensures var w2 := if action == Delete then res.0.(rows := Without(res.0.rows, ByObject(objectId, kind, res.0.blog))) else res.0;
            var job := Job(1, kind, res.1, action, TakeSnapshot(w2, objectId, kind, ""));
            Propagate(res, 1, "", objectId, kind, action, TwoSites) == (SiteStep(w2, job, 2, AllSucceed(2)), true)
  {
    var w2 := if action == Delete then res.0.(rows := Without(res.0.rows, ByObject(objectId, kind, res.0.blog))) else res.0;
    FoldTwo(w2, Job(1, kind, res.1, action, TakeSnapshot(w2, objectId, kind, "")));
  }

  /** Post 10 of `Seeded` has no row, so `sync` stores one with sync id 7 + 1 and goes on with 1. */
  lemma ResolveSeeded()
    ensures ResolveSyncId(Seeded, 10, Post, true) == (SeededMapped, 1)
    ensures TakeSnapshot(SeededMapped, 10, Post, "") == PlainSnapshot
  {
    assert Lookup(Seeded.rows, 1, 10, Post, SyncId, 0) == 0;
    assert NewRow(Seeded.rows, 2, 10, Post, 0, 1) == Row(2, 8, 10, Post, 1);
    assert Seeded.rows + [Row(2, 8, 10, Post, 1)] == SeededMapped.rows;
  }

  /** Visiting site 2 under sync id 1 copies post 10 of `SeededMapped` there. */
  lemma VisitSeeded()
    ensures SiteStep(SeededMapped, Job(1, Post, 1, Create, PlainSnapshot), 2, AllSucceed(2)) == SeededSynced
  {
    assert NoMatch(SeededMapped.rows, BySync(Post, 1, 2));
    VisitFresh(SeededMapped, Job(1, Post, 1, Create, PlainSnapshot));
  }

  /** The first sync of post 10 from `Seeded` ends in `SeededSynced`. */
  lemma FirstSyncOfSeeded()
    ensures SyncSpec(Seeded, 1, "", 10, Post, Create, TwoSites) == (SeededSynced, true)
  {
    ResolveSeeded();
    PropagateTwo((SeededMapped, 1), 10, Post, Create);
    VisitSeeded();
  }

  /** Once synced, post 10 resolves to the sync id 8 its origin row stores, which site 2 does not map. */
  lemma ResolveSeededSynced()
    ensures ResolveSyncId(SeededSynced, 10, Post, true) == (SeededSynced, 8)
    ensures TakeSnapshot(SeededSynced, 10, Post, "") == PlainSnapshot
    ensures ReverseLookup(SeededSynced.rows, 2, Post, 8) == 0
  {
    assert IsFirstMatch(SeededSynced.rows, ByObject(10, Post, 1), 1);
    assert NoMatch(SeededSynced.rows, BySync(Post, 8, 2));
  }

  /** After the first sync, site 2 holds copy 1 only. */
  lemma SeededSyncedCopies()
    ensures Objects(SeededSynced.sites, 2, Post).Keys == {1}
  {
    assert Objects(SeededSynced.sites, 2, Post) == map[1 := PlainCopy(1)];
  }

  /** Visiting site 2 again, under sync id 8, makes a second copy beside copy 1. */
  lemma VisitSeededAgain()
    ensures Objects(SiteStep(SeededSynced, Job(1, Post, 8, Create, PlainSnapshot), 2, AllSucceed(2)).sites, 2, Post).Keys == {1, 2}
  {
    ResolveSeededSynced();
    var job := Job(1, Post, 8, Create, PlainSnapshot);
    var ws := SwitchTo(SeededSynced, 2);
    var d := RemoveRemote(ws, job, AllSucceed(2));
    assert d == (ws, true);
    var c := CreateObject(d.0, job, AllSucceed(2));
    assert c.1 == Some(2);
    assert Objects(c.0.sites, 2, Post) == map[1 := PlainCopy(1), 2 := PlainCopy(8)];
  }

  /**
   * As written, syncing post 10 twice leaves site 2 with two copies: the
   * first sync copies it under sync id 1, the second resolves the sync id 8
   * its origin row stores, finds no copy under 8 on site 2 and makes another.
   */
  lemma ReSyncDuplicates()
    ensures var w1 := SyncSpec(Seeded, 1, "", 10, Post, Create, TwoSites).0;
            var w2 := SyncSpec(w1, 1, "", 10, Post, Create, TwoSites).0;
            && Objects(w1.sites, 2, Post).Keys == {1}
            && Objects(w2.sites, 2, Post).Keys == {1, 2}
  {
    FirstSyncOfSeeded();
    SeededSyncedCopies();
    ResolveSeededSynced();
    PropagateTwo((SeededSynced, 8), 10, Post, Create);
    var again := SiteStep(SeededSynced, Job(1, Post, 8, Create, PlainSnapshot), 2, AllSucceed(2));
    assert SyncSpec(SeededSynced, 1, "", 10, Post, Create, TwoSites) == (again, true);
    VisitSeededAgain();
  }

  /** A delete of post 10 from `SeededSynced` leaves these rows, and site 2 maps nothing to sync id 8. */
  lemma DeleteSeededRows()
    ensures Without(SeededSynced.rows, ByObject(10, Post, 1)) == [Row(1, 7, 50, Post, 1), Row(3, 1, 1, Post, 2)]
    ensures NoMatch([Row(1, 7, 50, Post, 1), Row(3, 1, 1, Post, 2)], BySync(Post, 8, 2))
  {
    var f := ByObject(10, Post, 1);
    var rs := SeededSynced.rows;
    assert rs[1..][1..][1..] == [];
    assert Without(rs[1..][1..], f) == [Row(3, 1, 1, Post, 2)];
    assert Without(rs[1..], f) == [Row(3, 1, 1, Post, 2)];
  }

  /** Visiting site 2 under sync id 8 to delete changes no store. */
  lemma VisitSeededDelete(job: Job)
    requires job.origin == 1 && job.kind == Post && job.syncId == 8 && job.action == Delete
    ensures var w2 := SeededSynced.(rows := [Row(1, 7, 50, Post, 1), Row(3, 1, 1, Post, 2)]);
            SiteStep(w2, job, 2, AllSucceed(2)).sites == SeededSynced.sites
  {
    DeleteSeededRows();
  }

  /**
   * As written, a delete sync after the first sync of post 10 fans out
   * under sync id 8, which site 2 does not map: the copy stays and `sync`
   * still reports success.
   */
  lemma DeleteMissesCopy()
    ensures var w1 := SyncSpec(Seeded, 1, "", 10, Post, Create, TwoSites).0;
            var r := SyncSpec(w1, 1, "", 10, Post, Delete, TwoSites);
            && r.1 && 1 in Objects(w1.sites, 2, Post) && 1 in Objects(r.0.sites, 2, Post)
  {
    FirstSyncOfSeeded();
    ResolveSeededSynced();
    DeleteSeededRows();
    PropagateTwo((SeededSynced, 8), 10, Post, Delete);
    var w2 := SeededSynced.(rows := [Row(1, 7, 50, Post, 1), Row(3, 1, 1, Post, 2)]);
    VisitSeededDelete(Job(1, Post, 8, Delete, TakeSnapshot(w2, 10, Post, "")));
  }

  /** Post 10 of `Unmapped` gets sync id 1 under either resolution, since the table is empty. */
  lemma ResolveUnmapped()
    ensures ResolveSyncId(Unmapped, 10, Post, true) == (UnmappedMapped, 1)
    ensures ResolveSyncIdIntended(Unmapped, 10, Post, true) == (UnmappedMapped, 1)
    ensures TakeSnapshot(UnmappedMapped, 10, Post, "") == PlainSnapshot
  {
    assert Lookup(Unmapped.rows, 1, 10, Post, SyncId, 0) == 0;
    assert NewRow(Unmapped.rows, 1, 10, Post, 0, 1) == Row(1, 1, 10, Post, 1);
    assert Unmapped.rows + [Row(1, 1, 10, Post, 1)] == UnmappedMapped.rows;
  }

  /** Visiting site 2 under sync id 1 copies post 10 of `UnmappedMapped` there. */
  lemma VisitUnmapped()
    ensures SiteStep(UnmappedMapped, Job(1, Post, 1, Create, PlainSnapshot), 2, AllSucceed(2)) == UnmappedSynced
  {
    assert NoMatch(UnmappedMapped.rows, BySync(Post, 1, 2));
    VisitFresh(UnmappedMapped, Job(1, Post, 1, Create, PlainSnapshot));
  }

  /** Both versions agree on the first sync of post 10 from `Unmapped`, which ends in `UnmappedSynced`. */
  lemma FirstSyncOfUnmapped()
    ensures SyncSpec(Unmapped, 1, "", 10, Post, Create, TwoSites) == (UnmappedSynced, true)
    ensures SyncIntended(Unmapped, 1, "", 10, Post, Create, TwoSites) == (UnmappedSynced, true)
  {
    ResolveUnmapped();
    PropagateTwo((UnmappedMapped, 1), 10, Post, Create);
    VisitUnmapped();
  }

  /** After the first sync of post 10, site 2 holds copy 1 only. */
  lemma UnmappedSyncedCopies()
    ensures Objects(UnmappedSynced.sites, 2, Post).Keys == {1}
  {
    assert Objects(UnmappedSynced.sites, 2, Post) == map[1 := PlainCopy(1)];
  }

  /** `UnmappedSynced` once post 11 has its origin row, with sync id 1 + 1. */
  const UnmappedSecond: World := UnmappedSynced.(rows := UnmappedSynced.rows + [Row(3, 2, 11, Post, 1)], nextRow := 4)

  /** Post 11 has no row after post 10's sync: as written it goes on with sync id 1, intended with the stored 2. */
  lemma ResolveUnmappedSynced()
    ensures ResolveSyncId(UnmappedSynced, 11, Post, true) == (UnmappedSecond, 1)
    ensures ResolveSyncIdIntended(UnmappedSynced, 11, Post, true) == (UnmappedSecond, 2)
    ensures TakeSnapshot(UnmappedSecond, 11, Post, "") == PlainSnapshot
  {
    assert Lookup(UnmappedSynced.rows, 1, 11, Post, SyncId, 0) == 0;
    assert NewRow(UnmappedSynced.rows, 3, 11, Post, 0, 1) == Row(3, 2, 11, Post, 1);
  }

  /** Under sync id 1, site 2's copy of post 10 is deleted before post 11 is copied there. */
  lemma VisitUnmappedEvicts()
    ensures Objects(SiteStep(UnmappedSecond, Job(1, Post, 1, Create, PlainSnapshot), 2, AllSucceed(2)).sites, 2, Post).Keys == {2}
  {
    var job := Job(1, Post, 1, Create, PlainSnapshot);
    assert IsFirstMatch(UnmappedSecond.rows, BySync(Post, 1, 2), 1);
    var ws := SwitchTo(UnmappedSecond, 2);
    var d := RemoveRemote(ws, job, AllSucceed(2));
    assert Objects(d.0.sites, 2, Post) == map[];
    var c := CreateObject(d.0, job, AllSucceed(2));
    assert c.1 == Some(2);
    assert Objects(c.0.sites, 2, Post) == map[2 := PlainCopy(1)];
  }

  /** Under sync id 2, site 2 keeps its copy of post 10 and gains one of post 11. */
  lemma VisitUnmappedKeeps()
    ensures Objects(SiteStep(UnmappedSecond, Job(1, Post, 2, Create, PlainSnapshot), 2, AllSucceed(2)).sites, 2, Post).Keys == {1, 2}
  {
    var job := Job(1, Post, 2, Create, PlainSnapshot);
    assert NoMatch(UnmappedSecond.rows, BySync(Post, 2, 2));
    var ws := SwitchTo(UnmappedSecond, 2);
    var d := RemoveRemote(ws, job, AllSucceed(2));
    assert d == (ws, true);
    var c := CreateObject(d.0, job, AllSucceed(2));
    assert c.1 == Some(2);
    assert Objects(c.0.sites, 2, Post) == map[1 := PlainCopy(1), 2 := PlainCopy(2)];
  }

  /**
   * As written, syncing post 11 after post 10 evicts post 10's copy: both
   * fresh posts fan out under sync id 1, so the second sync deletes the
   * copy site 2 mapped to it and makes its own copy instead.
   */
  lemma FreshSyncEvictsOtherReplica()
    ensures var w1 := SyncSpec(Unmapped, 1, "", 10, Post, Create, TwoSites).0;
            var w2 := SyncSpec(w1, 1, "", 11, Post, Create, TwoSites).0;
            && Objects(w1.sites, 2, Post).Keys == {1}
            && Objects(w2.sites, 2, Post).Keys == {2}
  {
    FirstSyncOfUnmapped();
    UnmappedSyncedCopies();
    ResolveUnmappedSynced();
    PropagateTwo((UnmappedSecond, 1), 11, Post, Create);
    var second := SiteStep(UnmappedSecond, Job(1, Post, 1, Create, PlainSnapshot), 2, AllSucceed(2));
    assert SyncSpec(UnmappedSynced, 1, "", 11, Post, Create, TwoSites) == (second, true);
    VisitUnmappedEvicts();
  }

  /** With the intended resolution, post 11 fans out under sync id 2 and post 10's copy stays beside its own. */
  lemma IntendedFreshSyncKeepsOtherReplica()
    ensures var w1 := SyncIntended(Unmapped, 1, "", 10, Post, Create, TwoSites).0;
            var w2 := SyncIntended(w1, 1, "", 11, Post, Create, TwoSites).0;
            && Objects(w1.sites, 2, Post).Keys == {1}
            && Objects(w2.sites, 2, Post).Keys == {1, 2}
  {
    FirstSyncOfUnmapped();
    UnmappedSyncedCopies();
    ResolveUnmappedSynced();
    PropagateTwo((UnmappedSecond, 2), 11, Post, Create);
    var second := SiteStep(UnmappedSecond, Job(1, Post, 2, Create, PlainSnapshot), 2, AllSucceed(2));
    assert SyncIntended(UnmappedSynced, 1, "", 11, Post, Create, TwoSites) == (second, true);
    VisitUnmappedKeeps();
  }

  // ---------------------------------------------------------------------
  // The intended resolution
  // ---------------------------------------------------------------------

  /** The origin has at most one row for the object, and such a row carries a sync id. */
  ghost predicate OriginMapped(rows: seq<Row>, objectId: nat, kind: ObjectType, origin: nat) {
    && AtMostOne(rows, ByObject(objectId, kind, origin))
    && forall x | x in rows && Matches(x, ByObject(objectId, kind, origin)) :: x.syncId != 0
  }

  /** The intended resolution keeps the origin's row unique and fans out under the sync id it stores. */
  lemma IntendedResolveMapsOrigin(w: World, objectId: nat, kind: ObjectType, insertOk: bool)
    requires WorldValid(w) && OriginMapped(w.rows, objectId, kind, w.blog)
    ensures var r := ResolveSyncIdIntended(w, objectId, kind, insertOk);
            && WorldValid(r.0) && r.0.sites == w.sites && r.0.blog == w.blog
            && OriginMapped(r.0.rows, objectId, kind, w.blog)
            && (forall x | x in r.0.rows && Matches(x, ByObject(objectId, kind, w.blog)) :: x.syncId == r.1)
            && (forall x: Row | x.siteId != w.blog :: x in r.0.rows <==> x in w.rows)
  {
    ResolveSyncIdLocal(w, objectId, kind, insertOk);
    var f := ByObject(objectId, kind, w.blog);
    var r := ResolveSyncIdIntended(w, objectId, kind, insertOk);
    if r.0.rows != w.rows {
      assert NoMatch(w.rows, f);
      FreshRowAlone(w.rows, NewRow(w.rows, w.nextRow, objectId, kind, 0, w.blog), f);
    } else if r.1 != 0 {
      var x :| x in r.0.rows && Matches(x, f) && x.syncId == r.1;
    }
  }

  /** A row appended for an object that had none is the only row for it. */
  lemma FreshRowAlone(rows: seq<Row>, x: Row, f: Filter)
    requires NoMatch(rows, f) && Matches(x, f)
    ensures forall y | y in rows + [x] && Matches(y, f) :: y == x
  {
    forall y | y in rows + [x] && Matches(y, f) ensures y == x {
      assert y !in rows by {
        forall z | z in rows ensures !Matches(z, f) {
          var i :| 0 <= i < |rows| && rows[i] == z;
        }
      }
    }
  }

  /**
   * The first intended create sync, run on the origin blog with every call
   * succeeding: it returns true, brings the blog back, leaves the origin's
   * store and row alone (so the next resolution finds the same sync id and
   * the same snapshot) and leaves site `s` with one replica under that id.
   */
  lemma IntendedFirstSync(w: World, origin: nat, taxonomy: string, objectId: nat, kind: ObjectType, env: Env, s: nat)
    requires WorldValid(w) && w.blog == origin
    requires Snapshotable(w, objectId, kind, taxonomy) && OriginMapped(w.rows, objectId, kind, origin)
    requires env.originInsertOk && !env.largeNetwork
    requires forall t | t in VisitedSites(env.network) :: AllOk(env.outcome(t))
    requires s in VisitedSites(env.network) && s != origin
    requires AtMostOne(w.rows, BySync(kind, ResolveSyncIdIntended(w, objectId, kind, true).1, s))
    requires MappedIdsPositive(w.rows, BySync(kind, ResolveSyncIdIntended(w, objectId, kind, true).1, s))
    ensures var id := ResolveSyncIdIntended(w, objectId, kind, true).1;
            var r1 := SyncIntended(w, origin, taxonomy, objectId, kind, Create, env);
            && r1.1 && id != 0
            && WorldValid(r1.0) && r1.0.blog == origin
            && (forall b: bool :: ResolveSyncIdIntended(r1.0, objectId, kind, b) == (r1.0, id))
            && SnapshotFits(Job(origin, kind, id, Create, TakeSnapshot(r1.0, objectId, kind, taxonomy)))
            && Replicated(r1.0, kind, id, s) && MappedIdsPositive(r1.0.rows, BySync(kind, id, s))
  {
    IntendedResolveMapsOrigin(w, objectId, kind, true);
    var rs := ResolveSyncIdIntended(w, objectId, kind, true);
    var id := rs.1;
    var f := ByObject(objectId, kind, origin);
    SiteAtValid(w, origin);
    var job := Job(origin, kind, id, Create, TakeSnapshot(rs.0, objectId, kind, taxonomy));
    assert SnapshotFits(job);
    var sites := VisitedSites(env.network);
    var r1 := FoldSites(rs.0, job, sites, env.outcome);
    assert SyncIntended(w, origin, taxonomy, objectId, kind, Create, env) == (r1, true);
    FoldValid(rs.0, job, sites, env.outcome);
    FoldRestoresContext(rs.0, job, sites, env.outcome);
    assert Objects(r1.sites, origin, kind) == Objects(rs.0.sites, origin, kind);
    assert TakeSnapshot(r1, objectId, kind, taxonomy) == job.snapshot;
    // the origin's row for the object survives the fan-out, still alone
    var x :| x in rs.0.rows && Matches(x, f) && x.syncId == id;
    assert x in r1.rows;
    assert AtMostOne(r1.rows, f) by {
      forall y, z | y in r1.rows && z in r1.rows && Matches(y, f) && Matches(z, f) ensures y == z {
        assert y in rs.0.rows && z in rs.0.rows;
      }
    }
    LookupOfUnique(r1.rows, origin, objectId, kind, x);
    // site `s` ends with one replica under `id`
    TransferAtSite(w, rs.0, kind, id, s);
    FoldReplicas(rs.0, job, sites, env.outcome, s);
  }

  /**
   * With the intended resolution, syncing an object a second time reuses
   * its sync id, so on every visited site the copy is replaced, not
   * duplicated: one replica before and after, and the site's store does
   * not grow (for posts, it keeps its size).
   */
  lemma IntendedReSyncKeepsOneCopy(w: World, origin: nat, taxonomy: string, objectId: nat, kind: ObjectType, env: Env, s: nat)
    requires WorldValid(w) && w.blog == origin
    requires Snapshotable(w, objectId, kind, taxonomy) && OriginMapped(w.rows, objectId, kind, origin)
    requires env.originInsertOk && !env.largeNetwork
    requires forall t | t in VisitedSites(env.network) :: AllOk(env.outcome(t))
    requires s in VisitedSites(env.network) && s != origin
    requires AtMostOne(w.rows, BySync(kind, ResolveSyncIdIntended(w, objectId, kind, true).1, s))
    requires MappedIdsPositive(w.rows, BySync(kind, ResolveSyncIdIntended(w, objectId, kind, true).1, s))
    ensures var id := ResolveSyncIdIntended(w, objectId, kind, true).1;
            var r1 := SyncIntended(w, origin, taxonomy, objectId, kind, Create, env);
            var r2 := SyncIntended(r1.0, origin, taxonomy, objectId, kind, Create, env);
            && r1.1 && r2.1
            && ResolveSyncIdIntended(r1.0, objectId, kind, true).1 == id
            && Replicated(r1.0, kind, id, s) && Replicated(r2.0, kind, id, s)
            && |Objects(r2.0.sites, s, kind).Keys| <= |Objects(r1.0.sites, s, kind).Keys|
            && (kind == Post ==> |Objects(r2.0.sites, s, kind).Keys| == |Objects(r1.0.sites, s, kind).Keys|)
  {
    IntendedFirstSync(w, origin, taxonomy, objectId, kind, env, s);
    var id := ResolveSyncIdIntended(w, objectId, kind, true).1;
    var r1 := SyncIntended(w, origin, taxonomy, objectId, kind, Create, env);
    assert ResolveSyncIdIntended(r1.0, objectId, kind, true) == (r1.0, id);
    var job := Job(origin, kind, id, Create, TakeSnapshot(r1.0, objectId, kind, taxonomy));
    var sites := VisitedSites(env.network);
    assert SyncIntended(r1.0, origin, taxonomy, objectId, kind, Create, env).0 == FoldSites(r1.0, job, sites, env.outcome);
    FoldKeepsCount(r1.0, job, sites, env.outcome, s);
  }

  /**
   * With the intended resolution, a delete sync after the first create sync
   * reaches the copy: on every site it visits with a succeeding remote
   * delete, the replica the create mapped there leaves the store and no
   * row for the sync id remains.
   */
  lemma IntendedDeleteRemovesCopy(w: World, origin: nat, taxonomy: string, objectId: nat, kind: ObjectType, env: Env, del: Env, s: nat)
    requires WorldValid(w) && w.blog == origin
    requires Snapshotable(w, objectId, kind, taxonomy) && OriginMapped(w.rows, objectId, kind, origin)
    requires env.originInsertOk && !env.largeNetwork
    requires forall t | t in VisitedSites(env.network) :: AllOk(env.outcome(t))
    requires s in VisitedSites(env.network) && s != origin
    requires AtMostOne(w.rows, BySync(kind, ResolveSyncIdIntended(w, objectId, kind, true).1, s))
    requires MappedIdsPositive(w.rows, BySync(kind, ResolveSyncIdIntended(w, objectId, kind, true).1, s))
    requires !del.largeNetwork && s in VisitedSites(del.network) && del.outcome(s).deleteOk
    ensures var id := ResolveSyncIdIntended(w, objectId, kind, true).1;
            var r1 := SyncIntended(w, origin, taxonomy, objectId, kind, Create, env);
            var r3 := SyncIntended(r1.0, origin, taxonomy, objectId, kind, Delete, del);
            && r3.1
            && Replicated(r1.0, kind, id, s)
            && (forall x | x in r1.0.rows && Matches(x, BySync(kind, id, s)) ::
                  x.objectId in Objects(r1.0.sites, s, kind) && x.objectId !in Objects(r3.0.sites, s, kind))
            && Unreplicated(r3.0, kind, id, s)
            && Shrinks(r1.0, r3.0)
  {
    IntendedFirstSync(w, origin, taxonomy, objectId, kind, env, s);
    var id := ResolveSyncIdIntended(w, objectId, kind, true).1;
    var r1 := SyncIntended(w, origin, taxonomy, objectId, kind, Create, env);
    assert ResolveSyncIdIntended(r1.0, objectId, kind, del.originInsertOk) == (r1.0, id);
    PropagateDeleteRemoves((r1.0, id), origin, taxonomy, objectId, kind, del, s);
    var y :| y in r1.0.rows && Matches(y, BySync(kind, id, s)) && y.objectId in Objects(r1.0.sites, s, kind);
  }
}
