/**
 * Properties of the replication engine's specification: what one site's
 * step and the whole `sync` call do to the mapping table and the stores.
 */
module ReplicationProofs {
  import opened Wrappers
  import opened MappingStore
  import opened Replication

  // ---------------------------------------------------------------------
  // Well-formedness is preserved
  // ---------------------------------------------------------------------

  lemma AppendRowValid(rows: seq<Row>, nextId: nat, r: Row)
    requires RowsValid(rows, nextId) && r.id == nextId
    ensures RowsValid(rows + [r], nextId + 1)
  {
    forall i, j | 0 <= i < j < |rows + [r]| ensures (rows + [r])[i].id < (rows + [r])[j].id {
      if j == |rows| { assert rows[i] in rows; }
    }
  }

  lemma SiteAtValid(w: World, s: nat)
    requires WorldValid(w)
    ensures SiteValid(SiteAt(w.sites, s))
  {
  }

  lemma RemoveObjectValid(w: World, kind: ObjectType, id: nat)
    requires WorldValid(w)
    ensures WorldValid(RemoveObject(w, kind, id))
  {
    SiteAtValid(w, w.blog);
  }

  lemma InsertObjectValid(w: World, kind: ObjectType, data: Data, meta: Meta)
    requires WorldValid(w) && (data.PostData? <==> kind == Post)
    ensures WorldValid(InsertObject(w, kind, data, meta).0)
  {
    SiteAtValid(w, w.blog);
  }

  lemma AddRowValid(w: World, objectId: nat, kind: ObjectType, syncId: nat, ok: bool)
    requires WorldValid(w)
    ensures WorldValid(AddRow(w, objectId, kind, syncId, ok))
  {
    if ok {
      AppendRowValid(w.rows, w.nextRow, NewRow(w.rows, w.nextRow, objectId, kind, syncId, w.blog));
    }
  }

  lemma CreateObjectValid(w: World, job: Job, o: SiteOutcome)
    requires WorldValid(w)
    ensures WorldValid(CreateObject(w, job, o).0)
  {
    match job.snapshot.data
    case None =>
    case Some(PostData(parent, fields)) =>
      var p := ResolveParent(w.rows, w.blog, Post, parent, job.origin, job.syncId);
      if o.insertOk { InsertObjectValid(w, Post, PostData(p.0, fields), ReplicaMeta(job.snapshot.meta, p.1)); }
    case Some(TermData(name, taxonomy, parent, description, slug)) =>
      var w1 := RemoveNamedTerm(w, name, taxonomy);
      var terms := TableOf(SiteAt(w.sites, w.blog), Term);
      var found := FindTermNamed(terms.objects, name, taxonomy, terms.next);
      if found.Some? { RemoveObjectValid(w, Term, found.value); }
      var p := ResolveParent(w1.rows, w1.blog, Term, parent, job.origin, job.syncId);
      if o.insertOk { InsertObjectValid(w1, Term, TermData(name, taxonomy, p.0, description, slug), ReplicaMeta(job.snapshot.meta, p.1)); }
  }

  lemma RemoveRemoteValid(w: World, job: Job, o: SiteOutcome)
    requires WorldValid(w)
    ensures WorldValid(RemoveRemote(w, job, o).0)
  {
    var remote := ReverseLookup(w.rows, w.blog, job.kind, job.syncId);
    if remote != 0 && o.deleteOk {
      RemoveObjectValid(w, job.kind, remote);
      WithoutAscending(w.rows, ByObject(remote, job.kind, w.blog));
    }
  }

  lemma SiteStepValid(w: World, job: Job, s: nat, o: SiteOutcome)
    requires WorldValid(w)
    ensures WorldValid(SiteStep(w, job, s, o))
  {
    if s != job.origin {
      var w1 := SwitchTo(w, s);
      RemoveRemoteValid(w1, job, o);
      var d := RemoveRemote(w1, job, o);
      if d.1 && job.action == Create {
        CreateObjectValid(d.0, job, o);
        var c := CreateObject(d.0, job, o);
        if c.1.Some? { AddRowValid(c.0, c.1.value, job.kind, job.syncId, o.rowOk); }
      }
    }
  }

  lemma {:induction false} FoldValid(w: World, job: Job, sites: seq<nat>, outcome: nat -> SiteOutcome)
    requires WorldValid(w)
    ensures WorldValid(FoldSites(w, job, sites, outcome))
    decreases |sites|
  {
    if sites != [] {
      var last := sites[|sites| - 1];
      FoldValid(w, job, sites[..|sites| - 1], outcome);
      SiteStepValid(FoldSites(w, job, sites[..|sites| - 1], outcome), job, last, outcome(last));
    }
  }

  // ---------------------------------------------------------------------
  // A site's step touches only that site
  // ---------------------------------------------------------------------

  /** Between `w` and `w'` only site `s`'s store and mapping rows changed. */
  ghost predicate OnlySiteChanged(w: World, w': World, s: nat) {
    && (forall t | t != s :: SiteAt(w'.sites, t) == SiteAt(w.sites, t))
    && (forall x: Row | x.siteId != s :: x in w'.rows <==> x in w.rows)
  }

  lemma CreateObjectLocal(w: World, job: Job, o: SiteOutcome)
    ensures var c := CreateObject(w, job, o);
            && OnlySiteChanged(w, c.0, w.blog)
            && c.0.rows == w.rows && c.0.nextRow == w.nextRow
            && c.0.blog == w.blog && c.0.stack == w.stack
  {
  }

  /**
   * A site's step changes nothing outside that site's store and rows; the
   * origin site's step changes nothing at all.
   */
  lemma SiteStepLocal(w: World, job: Job, s: nat, o: SiteOutcome)
    ensures s == job.origin ==> SiteStep(w, job, s, o) == w
    ensures OnlySiteChanged(w, SiteStep(w, job, s, o), s)
  {
    if s != job.origin {
      var w1 := SwitchTo(w, s);
      var d := RemoveRemote(w1, job, o);
      assert OnlySiteChanged(w, d.0, s);
      if d.1 && job.action == Create {
        CreateObjectLocal(d.0, job, o);
      }
    }
  }

  /**
   * The fan-out never writes the store or the rows of the origin site or
   * of a site it does not visit.
   */
  lemma {:induction false} FoldOffSites(w: World, job: Job, sites: seq<nat>, outcome: nat -> SiteOutcome, t: nat)
    requires t == job.origin || t !in sites
    ensures SiteAt(FoldSites(w, job, sites, outcome).sites, t) == SiteAt(w.sites, t)
    ensures forall x: Row | x.siteId == t :: x in FoldSites(w, job, sites, outcome).rows <==> x in w.rows
    decreases |sites|
  {
    if sites != [] {
      var pre := sites[..|sites| - 1];
      var last := sites[|sites| - 1];
      assert t !in sites ==> t !in pre && t != last;
      FoldOffSites(w, job, pre, outcome, t);
      SiteStepLocal(FoldSites(w, job, pre, outcome), job, last, outcome(last));
    }
  }

  // ---------------------------------------------------------------------
  // One replica per site
  // ---------------------------------------------------------------------

  /** No two distinct rows match `f`. */
  ghost predicate AtMostOne(rows: seq<Row>, f: Filter) {
    forall x, y | x in rows && y in rows && Matches(x, f) && Matches(y, f) :: x == y
  }

  /** Every row matching `f` points at a real (non-zero) object id. */
  ghost predicate MappedIdsPositive(rows: seq<Row>, f: Filter) {
    forall x | x in rows && Matches(x, f) :: x.objectId != 0
  }

  /** Site `s` holds exactly one mapping row for the sync id, and its object exists there. */
  ghost predicate Replicated(w: World, kind: ObjectType, syncId: nat, s: nat) {
    && AtMostOne(w.rows, BySync(kind, syncId, s))
    && exists x | x in w.rows && Matches(x, BySync(kind, syncId, s)) :: x.objectId in Objects(w.sites, s, kind)
  }

  /** Site `s` holds no mapping row for the sync id. */
  ghost predicate Unreplicated(w: World, kind: ObjectType, syncId: nat, s: nat) {
    forall x | x in w.rows :: !Matches(x, BySync(kind, syncId, s))
  }

  /** The snapshot has data of the job's object type. */
  predicate SnapshotFits(job: Job) {
    job.snapshot.data.Some? && (job.snapshot.data.value.PostData? <==> job.kind == Post)
  }

  predicate AllOk(o: SiteOutcome) {
    o.deleteOk && o.insertOk && o.rowOk
  }

  /**
   * The delete half of a site's step: `$deleted` is false exactly when a
   * remote id was found and its delete failed (the database delete of the
   * row just found always removes something), and once it is true no row
   * on the current blog carries the sync id any more.
   */
  lemma RemoveRemoteClears(w: World, job: Job, o: SiteOutcome)
    requires AtMostOne(w.rows, BySync(job.kind, job.syncId, w.blog))
    requires MappedIdsPositive(w.rows, BySync(job.kind, job.syncId, w.blog))
    ensures var d := RemoveRemote(w, job, o);
            && (d.1 <==> (o.deleteOk || ReverseLookup(w.rows, w.blog, job.kind, job.syncId) == 0))
            && (!d.1 ==> d.0 == w)
            && (d.1 ==> forall x | x in d.0.rows :: !Matches(x, BySync(job.kind, job.syncId, w.blog)))
            && (forall x | x in d.0.rows :: x in w.rows)
            && d.0.blog == w.blog && d.0.stack == w.stack && d.0.nextRow == w.nextRow
  {
    var f := BySync(job.kind, job.syncId, w.blog);
    var k := FirstMatch(w.rows, f);
    var remote := ReverseLookup(w.rows, w.blog, job.kind, job.syncId);
    if k < |w.rows| {
      assert w.rows[k] in w.rows;
      assert forall x | x in w.rows && Matches(x, f) :: x == w.rows[k];
      assert remote == w.rows[k].objectId != 0;
      if o.deleteOk {
        assert !NoMatch(w.rows, ByObject(remote, job.kind, w.blog));
      }
    } else {
      forall x | x in w.rows ensures !Matches(x, f) {
        var i :| 0 <= i < |w.rows| && w.rows[i] == x;
      }
    }
  }

  /** A successful create inserts a fresh object of the job's type on the current blog. */
  lemma CreateObjectInserts(w: World, job: Job, o: SiteOutcome)
    requires WorldValid(w) && SnapshotFits(job) && o.insertOk
    ensures var c := CreateObject(w, job, o);
            && c.1.Some? && c.1.value >= 1
            && c.1.value in Objects(c.0.sites, w.blog, job.kind)
            && c.1.value !in Objects(w.sites, w.blog, job.kind)
  {
    SiteAtValid(w, w.blog);
  }

  lemma CreateObjectIdPositive(w: World, job: Job, o: SiteOutcome)
    requires WorldValid(w)
    ensures CreateObject(w, job, o).1.Some? ==> CreateObject(w, job, o).1.value >= 1
  {
    SiteAtValid(w, w.blog);
    match job.snapshot.data
    case None =>
    case Some(PostData(_, _)) =>
    case Some(TermData(name, taxonomy, _, _, _)) =>
      CreateObjectValid(w, job, o);
      var terms := TableOf(SiteAt(w.sites, w.blog), Term);
      var found := FindTermNamed(terms.objects, name, taxonomy, terms.next);
      if found.Some? { RemoveObjectValid(w, Term, found.value); SiteAtValid(RemoveObject(w, Term, found.value), w.blog); }
  }

  /** Recording the new replica's row on a site that had none for the sync id. */
  lemma AddRowReplica(w: World, id: nat, kind: ObjectType, syncId: nat, ok: bool)
    requires syncId != 0 && id >= 1
    requires Unreplicated(w, kind, syncId, w.blog)
    ensures var w' := AddRow(w, id, kind, syncId, ok);
            && AtMostOne(w'.rows, BySync(kind, syncId, w.blog))
            && MappedIdsPositive(w'.rows, BySync(kind, syncId, w.blog))
            && (ok && id in Objects(w.sites, w.blog, kind) ==> Replicated(w', kind, syncId, w.blog))
  {
    var f := BySync(kind, syncId, w.blog);
    if ok {
      var r := NewRow(w.rows, w.nextRow, id, kind, syncId, w.blog);
      var w' := AddRow(w, id, kind, syncId, ok);
      assert w'.rows == w.rows + [r];
      assert forall x | x in w'.rows && Matches(x, f) :: x == r;
      assert r in w'.rows && Matches(r, f);
    }
  }

  /**
   * One site's step keeps "at most one row per sync id" on that site. With
   * every call succeeding, a create leaves site `s` with exactly one mapped
   * replica; with the remote delete succeeding, a delete leaves none.
   */
  lemma SiteStepReplicas(w: World, job: Job, s: nat, o: SiteOutcome)
    requires WorldValid(w) && s != job.origin && job.syncId != 0
    requires AtMostOne(w.rows, BySync(job.kind, job.syncId, s))
    requires MappedIdsPositive(w.rows, BySync(job.kind, job.syncId, s))
    ensures var w' := SiteStep(w, job, s, o);
            && AtMostOne(w'.rows, BySync(job.kind, job.syncId, s))
            && MappedIdsPositive(w'.rows, BySync(job.kind, job.syncId, s))
    ensures job.action == Create && SnapshotFits(job) && AllOk(o) ==>
              Replicated(SiteStep(w, job, s, o), job.kind, job.syncId, s)
    ensures job.action == Delete && o.deleteOk ==>
              Unreplicated(SiteStep(w, job, s, o), job.kind, job.syncId, s)
  {
    var w1 := SwitchTo(w, s);
    RemoveRemoteClears(w1, job, o);
    var d := RemoveRemote(w1, job, o);
    if d.1 && job.action == Create {
      RemoveRemoteValid(w1, job, o);
      var c := CreateObject(d.0, job, o);
      CreateObjectLocal(d.0, job, o);
      CreateObjectIdPositive(d.0, job, o);
      if c.1.Some? {
        AddRowReplica(c.0, c.1.value, job.kind, job.syncId, o.rowOk);
        if SnapshotFits(job) && AllOk(o) {
          CreateObjectInserts(d.0, job, o);
        }
      }
    }
  }

  /** The replica predicates at site `s` depend only on `s`'s rows and store. */
  lemma TransferAtSite(w: World, w': World, kind: ObjectType, syncId: nat, s: nat)
    requires SiteAt(w'.sites, s) == SiteAt(w.sites, s)
    requires forall x: Row | x.siteId == s :: x in w'.rows <==> x in w.rows
    ensures AtMostOne(w.rows, BySync(kind, syncId, s)) ==> AtMostOne(w'.rows, BySync(kind, syncId, s))
    ensures MappedIdsPositive(w.rows, BySync(kind, syncId, s)) ==> MappedIdsPositive(w'.rows, BySync(kind, syncId, s))
    ensures Replicated(w, kind, syncId, s) ==> Replicated(w', kind, syncId, s)
    ensures Unreplicated(w, kind, syncId, s) ==> Unreplicated(w', kind, syncId, s)
  {
    if Replicated(w, kind, syncId, s) {
      var x :| x in w.rows && Matches(x, BySync(kind, syncId, s)) && x.objectId in Objects(w.sites, s, kind);
      assert x in w'.rows;
    }
  }

  /**
   * Over the whole fan-out under one sync id: a site visited with every
   * call succeeding ends with exactly one row for that sync id, mapping an
   * object the site stores, and a site visited by a delete whose remote
   * delete succeeds ends with none; "at most one" holds throughout. This is
   * about rows under the job's sync id only: a later `sync` of the same
   * object that resolves another sync id does not see these rows.
   */
  lemma {:induction false} FoldReplicas(w: World, job: Job, sites: seq<nat>, outcome: nat -> SiteOutcome, s: nat)
    requires WorldValid(w) && s != job.origin && job.syncId != 0
    requires AtMostOne(w.rows, BySync(job.kind, job.syncId, s))
    requires MappedIdsPositive(w.rows, BySync(job.kind, job.syncId, s))
    ensures var w' := FoldSites(w, job, sites, outcome);
            && AtMostOne(w'.rows, BySync(job.kind, job.syncId, s))
            && MappedIdsPositive(w'.rows, BySync(job.kind, job.syncId, s))
            && (s in sites && job.action == Create && SnapshotFits(job) && AllOk(outcome(s)) ==>
                  Replicated(w', job.kind, job.syncId, s))
            && (s in sites && job.action == Delete && outcome(s).deleteOk ==>
                  Unreplicated(w', job.kind, job.syncId, s))
    decreases |sites|
  {
    if sites != [] {
      var pre := sites[..|sites| - 1];
      var last := sites[|sites| - 1];
      assert s in sites && s != last ==> s in pre;
      FoldReplicas(w, job, pre, outcome, s);
      FoldValid(w, job, pre, outcome);
      var wp := FoldSites(w, job, pre, outcome);
      if last == s {
        SiteStepReplicas(wp, job, s, outcome(s));
      } else {
        SiteStepLocal(wp, job, last, outcome(last));
        TransferAtSite(wp, SiteStep(wp, job, last, outcome(last)), job.kind, job.syncId, s);
      }
    }
  }

  // ---------------------------------------------------------------------
  // The delete action removes and never creates
  // ---------------------------------------------------------------------

  /** Every row and every stored object of `w'` was already in `w`, unchanged. */
  ghost predicate Shrinks(w: World, w': World) {
    && (forall x | x in w'.rows :: x in w.rows)
    && (forall t, kind, id | id in Objects(w'.sites, t, kind) ::
          id in Objects(w.sites, t, kind) && Objects(w'.sites, t, kind)[id] == Objects(w.sites, t, kind)[id])
  }

  lemma SiteStepDeleteShrinks(w: World, job: Job, s: nat, o: SiteOutcome)
    requires job.action == Delete
    ensures Shrinks(w, SiteStep(w, job, s, o))
  {
    if s != job.origin {
      var w1 := SwitchTo(w, s);
      var remote := ReverseLookup(w1.rows, w1.blog, job.kind, job.syncId);
      if remote != 0 && o.deleteOk {
        var w2 := RemoveObject(w1, job.kind, remote);
        forall t, kind, id | id in Objects(w2.sites, t, kind)
          ensures id in Objects(w.sites, t, kind) && Objects(w2.sites, t, kind)[id] == Objects(w.sites, t, kind)[id]
        {
          if t != s {
            assert SiteAt(w2.sites, t) == SiteAt(w.sites, t);
          }
        }
      }
    }
  }

  lemma {:induction false} FoldDeleteShrinks(w: World, job: Job, sites: seq<nat>, outcome: nat -> SiteOutcome)
    requires job.action == Delete
    ensures Shrinks(w, FoldSites(w, job, sites, outcome))
    decreases |sites|
  {
    if sites != [] {
      var pre := sites[..|sites| - 1];
      var last := sites[|sites| - 1];
      FoldDeleteShrinks(w, job, pre, outcome);
      SiteStepDeleteShrinks(FoldSites(w, job, pre, outcome), job, last, outcome(last));
    }
  }

  // ---------------------------------------------------------------------
  // The replica in the site's store
  // ---------------------------------------------------------------------

  /** With at most one row for the sync id on the blog, `get_object_id` returns that row's object. */
  lemma ReverseLookupOfUnique(rows: seq<Row>, blog: nat, kind: ObjectType, syncId: nat, x: Row)
    requires AtMostOne(rows, BySync(kind, syncId, blog))
    requires x in rows && Matches(x, BySync(kind, syncId, blog))
    ensures ReverseLookup(rows, blog, kind, syncId) == x.objectId
  {
    var i :| 0 <= i < |rows| && rows[i] == x;
    var k := FirstMatch(rows, BySync(kind, syncId, blog));
    assert rows[k] in rows;
  }

  /** With at most one row for the object on the blog, `get` returns that row's sync id. */
  lemma LookupOfUnique(rows: seq<Row>, blog: nat, objectId: nat, kind: ObjectType, x: Row)
    requires AtMostOne(rows, ByObject(objectId, kind, blog))
    requires x in rows && Matches(x, ByObject(objectId, kind, blog))
    ensures Lookup(rows, blog, objectId, kind, SyncId, 0) == x.syncId
  {
    var i :| 0 <= i < |rows| && rows[i] == x;
    var k := FirstMatch(rows, ByObject(objectId, kind, blog));
    assert rows[k] in rows;
  }

  /**
   * A visit whose remote delete succeeds takes the object the site had
   * mapped to the sync id out of its store. A create then inserts under the
   * table's next id, so an object that was stored does not come back.
   */
  lemma SiteStepRemovesMappedCopy(w: World, job: Job, s: nat, o: SiteOutcome)
    requires s != job.origin && o.deleteOk
    ensures var k := ReverseLookup(w.rows, s, job.kind, job.syncId);
            k != 0 && (job.action == Delete || (WorldValid(w) && k in Objects(w.sites, s, job.kind))) ==>
              k !in Objects(SiteStep(w, job, s, o).sites, s, job.kind)
  {
    var k := ReverseLookup(w.rows, s, job.kind, job.syncId);
    if k != 0 && job.action == Create && WorldValid(w) && k in Objects(w.sites, s, job.kind) {
      SiteAtValid(w, s);
      var d := RemoveRemote(SwitchTo(w, s), job, o);
      assert TableOf(SiteAt(d.0.sites, s), job.kind).next == TableOf(SiteAt(w.sites, s), job.kind).next;
      CreateObjectOnlyAdds(d.0, job, o);
    }
  }

  /** `create` adds at most the object under its table's next id, and changes no other object. */
  lemma CreateObjectOnlyAdds(w: World, job: Job, o: SiteOutcome)
    ensures var c := CreateObject(w, job, o);
            forall kind, id | id in Objects(c.0.sites, w.blog, kind) ::
              || id == TableOf(SiteAt(w.sites, w.blog), kind).next
              || (id in Objects(w.sites, w.blog, kind) && Objects(c.0.sites, w.blog, kind)[id] == Objects(w.sites, w.blog, kind)[id])
  {
    match job.snapshot.data
    case None =>
    case Some(PostData(_, _)) =>
    case Some(TermData(name, taxonomy, _, _, _)) =>
      var w1 := RemoveNamedTerm(w, name, taxonomy);
      assert TableOf(SiteAt(w1.sites, w.blog), Term).next == TableOf(SiteAt(w.sites, w.blog), Term).next;
      assert TableOf(SiteAt(w1.sites, w.blog), Post) == TableOf(SiteAt(w.sites, w.blog), Post);
  }

  /**
   * Re-visiting a site that holds the replica, with every call succeeding,
   * replaces it: the site's store of that type does not grow, and for posts
   * it keeps exactly its number of objects. (A term insert may also remove
   * a namesake term, so a term store can shrink.)
   */
  lemma SiteStepKeepsCount(w: World, job: Job, s: nat, o: SiteOutcome)
    requires WorldValid(w) && s != job.origin && job.action == Create && SnapshotFits(job) && AllOk(o)
    requires Replicated(w, job.kind, job.syncId, s)
    ensures var before := Objects(w.sites, s, job.kind);
            var after := Objects(SiteStep(w, job, s, o).sites, s, job.kind);
            && |after.Keys| <= |before.Keys|
            && (job.kind == Post ==> |after.Keys| == |before.Keys|)
  {
    var before := Objects(w.sites, s, job.kind);
    var x :| x in w.rows && Matches(x, BySync(job.kind, job.syncId, s)) && x.objectId in before;
    ReverseLookupOfUnique(w.rows, s, job.kind, job.syncId, x);
    SiteAtValid(w, s);
    var next := TableOf(SiteAt(w.sites, s), job.kind).next;
    ReplacedKeys(w, job, s, o, x.objectId);
    ReplaceCard(Objects(SiteStep(w, job, s, o).sites, s, job.kind).Keys, before.Keys, x.objectId, next);
  }

  /** The keys a succeeding re-visit leaves: the old ones minus the replica `k`, plus the next id. */
  lemma ReplacedKeys(w: World, job: Job, s: nat, o: SiteOutcome, k: nat)
    requires WorldValid(w) && s != job.origin && job.action == Create && SnapshotFits(job) && AllOk(o)
    requires k == ReverseLookup(w.rows, s, job.kind, job.syncId) && k in Objects(w.sites, s, job.kind)
    ensures var before := Objects(w.sites, s, job.kind).Keys;
            var after := Objects(SiteStep(w, job, s, o).sites, s, job.kind).Keys;
            var next := TableOf(SiteAt(w.sites, s), job.kind).next;
            && next !in before && k != 0
            && after <= (before - {k}) + {next}
            && (job.kind == Post ==> after == (before - {k}) + {next})
  {
    SiteAtValid(w, s);
    var before := Objects(w.sites, s, job.kind);
    var next := TableOf(SiteAt(w.sites, s), job.kind).next;
    var d := RemoveRemote(SwitchTo(w, s), job, o);
    assert Objects(d.0.sites, s, job.kind) == before - {k};
    assert TableOf(SiteAt(d.0.sites, s), job.kind).next == next;
    var c := CreateObject(d.0, job, o);
    CreateObjectOnlyAdds(d.0, job, o);
    assert SiteStep(w, job, s, o).sites == c.0.sites;
  }

  /** Replacing one member of a set by a new one never grows it, and keeps its size when nothing else goes. */
  lemma ReplaceCard<T>(a: set<T>, b: set<T>, k: T, next: T)
    requires k in b && next !in b && a <= (b - {k}) + {next}
    ensures |a| <= |b|
    ensures a == (b - {k}) + {next} ==> |a| == |b|
  {
    assert b == (b - {k}) + {k};
    SubsetCard(a, (b - {k}) + {next});
  }

  lemma {:induction false} SubsetCard<T>(a: set<T>, b: set<T>)
    requires a <= b
    ensures |a| <= |b|
    decreases |b|
  {
    if a != {} {
      var y :| y in a;
      SubsetCard(a - {y}, b - {y});
    }
  }

  /**
   * Over the whole fan-out of a create whose calls on site `s` succeed: a
   * site that holds the replica still holds exactly one, and its store of
   * that type does not grow (for posts: keeps its size), however often the
   * loop visits it.
   */
  lemma {:induction false} FoldKeepsCount(w: World, job: Job, sites: seq<nat>, outcome: nat -> SiteOutcome, s: nat)
    requires WorldValid(w) && s != job.origin && job.syncId != 0
    requires job.action == Create && SnapshotFits(job) && AllOk(outcome(s))
    requires Replicated(w, job.kind, job.syncId, s)
    requires MappedIdsPositive(w.rows, BySync(job.kind, job.syncId, s))
    ensures var w' := FoldSites(w, job, sites, outcome);
            && Replicated(w', job.kind, job.syncId, s)
            && |Objects(w'.sites, s, job.kind).Keys| <= |Objects(w.sites, s, job.kind).Keys|
            && (job.kind == Post ==> |Objects(w'.sites, s, job.kind).Keys| == |Objects(w.sites, s, job.kind).Keys|)
    decreases |sites|
  {
    if sites != [] {
      var pre := sites[..|sites| - 1];
      var last := sites[|sites| - 1];
      FoldKeepsCount(w, job, pre, outcome, s);
      FoldValid(w, job, pre, outcome);
      FoldReplicas(w, job, pre, outcome, s);
      var wp := FoldSites(w, job, pre, outcome);
      if last == s {
        SiteStepKeepsCount(wp, job, s, outcome(s));
        SiteStepReplicas(wp, job, s, outcome(s));
      } else {
        TransferAtSite(wp, SiteStep(wp, job, last, outcome(last)), job.kind, job.syncId, s);
      }
    }
  }

  /**
   * A delete fan-out that visits site `s` with its remote delete succeeding
   * takes out of `s`'s store the object a row mapped there to the sync id
   * (provided `s` had at most one such row).
   */
  lemma {:induction false} FoldDeleteRemovesCopy(w: World, job: Job, sites: seq<nat>, outcome: nat -> SiteOutcome, s: nat, x: Row)
    requires job.action == Delete && s != job.origin && s in sites && outcome(s).deleteOk
    requires AtMostOne(w.rows, BySync(job.kind, job.syncId, s))
    requires MappedIdsPositive(w.rows, BySync(job.kind, job.syncId, s))
    requires x in w.rows && Matches(x, BySync(job.kind, job.syncId, s))
    ensures x.objectId !in Objects(FoldSites(w, job, sites, outcome).sites, s, job.kind)
    decreases |sites|
  {
    var pre := sites[..|sites| - 1];
    var last := sites[|sites| - 1];
    var wp := FoldSites(w, job, pre, outcome);
    if s in pre {
      FoldDeleteRemovesCopy(w, job, pre, outcome, s, x);
      SiteStepDeleteShrinks(wp, job, last, outcome(last));
    } else {
      assert last == s;
      TransferAtSite(w, wp, job.kind, job.syncId, s);
      ReverseLookupOfUnique(wp.rows, s, job.kind, job.syncId, x);
      SiteStepRemovesMappedCopy(wp, job, s, outcome(s));
    }
  }

  /**
   * Every step of a fan-out whose deletes and inserts succeed runs to its
   * end, so the loop leaves the blog context as it found it.
   */
  lemma {:induction false} FoldRestoresContext(w: World, job: Job, sites: seq<nat>, outcome: nat -> SiteOutcome)
    requires job.action == Delete || job.snapshot.data.Some?
    requires forall t | t in sites :: outcome(t).deleteOk && outcome(t).insertOk
    ensures FoldSites(w, job, sites, outcome).blog == w.blog
    ensures FoldSites(w, job, sites, outcome).stack == w.stack
    decreases |sites|
  {
    if sites != [] {
      var pre := sites[..|sites| - 1];
      var last := sites[|sites| - 1];
      assert forall t | t in pre :: t in sites;
      FoldRestoresContext(w, job, pre, outcome);
      if last != job.origin {
        SiteStepContext(FoldSites(w, job, pre, outcome), job, last, outcome(last));
      }
    }
  }

  // ---------------------------------------------------------------------
  // The whole `sync` call
  // ---------------------------------------------------------------------

  /**
   * `sync` returns false exactly at its two early bails (no sync id could
   * be obtained, or the network is large); neither touches a store or the
   * blog context, and the only trace either can leave is the origin row
   * that `create` inserted just before the large-network test.
   */
  lemma SyncBails(w: World, origin: nat, taxonomy: string, objectId: nat, kind: ObjectType, action: Action, env: Env)
    ensures var r := SyncSpec(w, origin, taxonomy, objectId, kind, action, env);
            var syncId := ResolveSyncId(w, objectId, kind, env.originInsertOk).1;
            && (r.1 <==> syncId != 0 && !env.largeNetwork)
            && (!r.1 ==> && r.0.sites == w.sites && r.0.stack == w.stack && r.0.blog == w.blog
                         && (r.0.rows == w.rows || r.0.rows == w.rows + [NewRow(w.rows, w.nextRow, objectId, kind, 0, w.blog)]))
  {
  }

  /**
   * For an object without a row, `sync` stores a row with sync id
   * `get_last_sync_id() + 1` but fans out under sync id 1, the insert count
   * `create` returns; the two agree only when the last row's sync id is 0,
   * as on an empty table.
   */
  lemma FreshObjectFansOutUnderSyncIdOne(w: World, objectId: nat, kind: ObjectType)
    requires Lookup(w.rows, w.blog, objectId, kind, SyncId, 0) == 0
    ensures var r := ResolveSyncId(w, objectId, kind, true);
            && r.1 == 1
            && r.0.rows == w.rows + [Row(w.nextRow, LastSyncId(w.rows) + 1, objectId, kind, w.blog)]
            && (r.0.rows[|w.rows|].syncId == r.1 <==> LastSyncId(w.rows) == 0)
  {
  }

  /** The sync id resolution touches no store and changes rows only on the current blog. */
  lemma ResolveSyncIdLocal(w: World, objectId: nat, kind: ObjectType, insertOk: bool)
    requires WorldValid(w)
    ensures var r := ResolveSyncId(w, objectId, kind, insertOk);
            && WorldValid(r.0) && r.0.sites == w.sites && r.0.blog == w.blog && r.0.stack == w.stack
            && (forall x: Row | x.siteId != w.blog :: x in r.0.rows <==> x in w.rows)
  {
    AddRowValid(w, objectId, kind, 0, true);
  }

  /**
   * `sync` never writes the store of the origin site or of a site that
   * `get_sites` did not return (or returned past its limit of 1000), and
   * leaves those sites' rows alone unless the site is the current blog.
   */
  lemma SyncSparesUnvisited(w: World, origin: nat, taxonomy: string, objectId: nat, kind: ObjectType, action: Action, env: Env, t: nat)
    requires WorldValid(w)
    requires t == origin || t !in VisitedSites(env.network)
    ensures var r := SyncSpec(w, origin, taxonomy, objectId, kind, action, env);
            && SiteAt(r.0.sites, t) == SiteAt(w.sites, t)
            && (t != w.blog ==> forall x: Row | x.siteId == t :: x in r.0.rows <==> x in w.rows)
  {
    ResolveSyncIdLocal(w, objectId, kind, env.originInsertOk);
    var rs := ResolveSyncId(w, objectId, kind, env.originInsertOk);
    if rs.1 != 0 && !env.largeNetwork {
      var w1 := rs.0;
      var w2 := if action == Delete then w1.(rows := Without(w1.rows, ByObject(objectId, kind, w1.blog))) else w1;
      var job := Job(origin, kind, rs.1, action, TakeSnapshot(w2, objectId, kind, taxonomy));
      FoldOffSites(w2, job, VisitedSites(env.network), env.outcome, t);
    }
  }

  /** The object `Syncs::get` finds on the current blog, as a precondition. */
  ghost predicate Snapshotable(w: World, objectId: nat, kind: ObjectType, taxonomy: string) {
    && objectId in Objects(w.sites, w.blog, kind)
    && (kind == Term ==>
          Objects(w.sites, w.blog, kind)[objectId].data.TermData? &&
          Objects(w.sites, w.blog, kind)[objectId].data.taxonomy == taxonomy)
  }

  /**
   * A create `sync` of an existing object, run on the origin blog, leaves
   * every visited site whose delete and inserts succeed with exactly one
   * row for the sync id this call resolved, mapping an object the site
   * stores (provided the site started with at most one). A fresh object's
   * first call resolves sync id 1 while its origin row stores another, so a
   * repeated call can resolve a different sync id and add a second copy.
   */
  lemma SyncCreateReplicates(w: World, origin: nat, taxonomy: string, objectId: nat, kind: ObjectType, env: Env, s: nat)
    requires WorldValid(w) && w.blog == origin
    requires Snapshotable(w, objectId, kind, taxonomy)
    requires s in VisitedSites(env.network) && s != origin && AllOk(env.outcome(s)) && !env.largeNetwork
    requires ResolveSyncId(w, objectId, kind, env.originInsertOk).1 != 0
    requires AtMostOne(w.rows, BySync(kind, ResolveSyncId(w, objectId, kind, env.originInsertOk).1, s))
    requires MappedIdsPositive(w.rows, BySync(kind, ResolveSyncId(w, objectId, kind, env.originInsertOk).1, s))
    ensures var r := SyncSpec(w, origin, taxonomy, objectId, kind, Create, env);
            r.1 && Replicated(r.0, kind, ResolveSyncId(w, objectId, kind, env.originInsertOk).1, s)
  {
    ResolveSyncIdLocal(w, objectId, kind, env.originInsertOk);
    var rs := ResolveSyncId(w, objectId, kind, env.originInsertOk);
    TransferAtSite(w, rs.0, kind, rs.1, s);
    var job := Job(origin, kind, rs.1, Create, TakeSnapshot(rs.0, objectId, kind, taxonomy));
    SiteAtValid(w, w.blog);
    assert SnapshotFits(job);
    FoldReplicas(rs.0, job, VisitedSites(env.network), env.outcome, s);
  }

  /**
   * The tail of a delete `sync` once its sync id is resolved, run on the
   * origin blog: it removes the origin's rows for the object, creates no
   * row and no object anywhere, and on each visited site whose remote delete
   * succeeds it leaves no row for the sync id and takes the object that row
   * mapped out of the store (provided the site had at most one such row).
   */
  lemma PropagateDeleteRemoves(res: (World, nat), origin: nat, taxonomy: string, objectId: nat, kind: ObjectType, env: Env, s: nat)
    requires WorldValid(res.0) && res.0.blog == origin
    requires s in VisitedSites(env.network) && s != origin && env.outcome(s).deleteOk
    requires AtMostOne(res.0.rows, BySync(kind, res.1, s))
    requires MappedIdsPositive(res.0.rows, BySync(kind, res.1, s))
    ensures var r := Propagate(res, origin, taxonomy, objectId, kind, Delete, env);
            r.1 ==>
              && Shrinks(res.0, r.0)
              && (forall x | x in r.0.rows :: !Matches(x, ByObject(objectId, kind, origin)))
              && Unreplicated(r.0, kind, res.1, s)
              && (forall x | x in res.0.rows && Matches(x, BySync(kind, res.1, s)) ::
                    x.objectId !in Objects(r.0.sites, s, kind))
  {
    if res.1 != 0 && !env.largeNetwork {
      var w1 := res.0;
      var w2 := w1.(rows := Without(w1.rows, ByObject(objectId, kind, w1.blog)));
      WithoutAscending(w1.rows, ByObject(objectId, kind, w1.blog));
      assert WorldValid(w2);
      TransferAtSite(w1, w2, kind, res.1, s);
      var job := Job(origin, kind, res.1, Delete, TakeSnapshot(w2, objectId, kind, taxonomy));
      var sites := VisitedSites(env.network);
      FoldReplicas(w2, job, sites, env.outcome, s);
      FoldDeleteShrinks(w2, job, sites, env.outcome);
      forall x | x in res.0.rows && Matches(x, BySync(kind, res.1, s))
        ensures x.objectId !in Objects(FoldSites(w2, job, sites, env.outcome).sites, s, kind)
      {
        FoldDeleteRemovesCopy(w2, job, sites, env.outcome, s, x);
      }
    }
  }

  /**
   * A delete `sync` run on the origin blog removes the origin's own row
   * first, creates no row and no object anywhere, and on each visited site
   * whose remote delete succeeds leaves no row for the sync id and no longer
   * stores the object a row mapped there (provided the site had at most one
   * such row). The sync id is the one `sync` resolves, which for an object
   * first synced on a table whose last row has a non-zero sync id is not
   * the one its replicas were mapped under.
   */
  lemma SyncDeleteRemoves(w: World, origin: nat, taxonomy: string, objectId: nat, kind: ObjectType, env: Env, s: nat)
    requires WorldValid(w) && w.blog == origin
    requires s in VisitedSites(env.network) && s != origin && env.outcome(s).deleteOk
    requires AtMostOne(w.rows, BySync(kind, ResolveSyncId(w, objectId, kind, env.originInsertOk).1, s))
    requires MappedIdsPositive(w.rows, BySync(kind, ResolveSyncId(w, objectId, kind, env.originInsertOk).1, s))
    ensures var r := SyncSpec(w, origin, taxonomy, objectId, kind, Delete, env);
            var syncId := ResolveSyncId(w, objectId, kind, env.originInsertOk).1;
            r.1 ==>
              && Shrinks(w, r.0)
              && (forall x | x in r.0.rows :: !Matches(x, ByObject(objectId, kind, origin)))
              && Unreplicated(r.0, kind, syncId, s)
              && (forall x | x in w.rows && Matches(x, BySync(kind, syncId, s)) :: x.objectId !in Objects(r.0.sites, s, kind))
  {
    ResolveSyncIdLocal(w, objectId, kind, env.originInsertOk);
    var rs := ResolveSyncId(w, objectId, kind, env.originInsertOk);
    TransferAtSite(w, rs.0, kind, rs.1, s);
    PropagateDeleteRemoves(rs, origin, taxonomy, objectId, kind, env, s);
    var r := SyncSpec(w, origin, taxonomy, objectId, kind, Delete, env);
    if r.1 {
      forall x | x in r.0.rows ensures x in w.rows {
        assert x in rs.0.rows && !Matches(x, ByObject(objectId, kind, origin));
      }
      forall x | x in w.rows && Matches(x, BySync(kind, rs.1, s)) ensures x.objectId !in Objects(r.0.sites, s, kind) {
        assert x in rs.0.rows;
      }
    }
  }

  // ---------------------------------------------------------------------
  // One site's step in detail
  // ---------------------------------------------------------------------

  /**
   * The blog context after visiting a site: back where it was when the
   * step ran to its end, but still switched to the site, with the old blog
   * left on the stack, after either `continue` (failed remote delete,
   * failed create).
   */
  lemma SiteStepContext(w: World, job: Job, s: nat, o: SiteOutcome)
    requires s != job.origin
    ensures var r := SiteStep(w, job, s, o);
            var d := RemoveRemote(SwitchTo(w, s), job, o);
            var restored := d.1 && (job.action == Delete || CreateObject(d.0, job, o).1.Some?);
            && (restored ==> r.blog == w.blog && r.stack == w.stack)
            && (!restored ==> r.blog == s && r.stack == w.stack + [w.blog] && IsSwitched(r))
  {
    var d := RemoveRemote(SwitchTo(w, s), job, o);
    if d.1 && job.action == Create {
      var c := CreateObject(d.0, job, o);
      if c.1.Some? {
        var a := AddRow(c.0, c.1.value, job.kind, job.syncId, o.rowOk);
        assert a.stack == w.stack + [w.blog];
        assert a.stack[..|a.stack| - 1] == w.stack;
      }
    } else if d.1 {
      assert d.0.stack[..|d.0.stack| - 1] == w.stack;
    }
  }

  /**
   * What `Syncs::create` writes: the object gets the next id of its table,
   * the snapshot's fields with the parent translated to a linked local id
   * (or 0), and the snapshot's metadata collapsed and stamped. The stamp is
   * the job's sync id only for a parent-less object; with a parent, it is
   * the parent's sync id on the origin site (0 when the parent has none).
   */
  lemma CreateObjectCopies(w: World, job: Job, o: SiteOutcome)
    requires SnapshotFits(job) && o.insertOk
    ensures var c := CreateObject(w, job, o);
            var d := job.snapshot.data.value;
            var p := ResolveParent(w.rows, w.blog, job.kind, d.parent, job.origin, job.syncId);
            && c.1 == Some(TableOf(SiteAt(w.sites, w.blog), job.kind).next)
            && c.1.value in Objects(c.0.sites, w.blog, job.kind)
            && Objects(c.0.sites, w.blog, job.kind)[c.1.value] == Obj(d.(parent := p.0), ReplicaMeta(job.snapshot.meta, p.1))
            && (p.0 != 0 ==> Linked(w.rows, job.kind, ScopedSite(job.origin, w.blog), d.parent, w.blog, p.0))
            && (d.parent == 0 ==> ReplicaMeta(job.snapshot.meta, p.1)["sync_id"] == [Str(Dec(job.syncId))])
            && (d.parent != 0 && NoMatch(w.rows, ByObject(d.parent, job.kind, ScopedSite(job.origin, w.blog))) ==>
                  ReplicaMeta(job.snapshot.meta, p.1)["sync_id"] == [Str(Dec(0))])
  {
    match job.snapshot.data.value
    case PostData(_, _) =>
    case TermData(name, taxonomy, _, _, _) =>
      var terms := TableOf(SiteAt(w.sites, w.blog), Term);
      var found := FindTermNamed(terms.objects, name, taxonomy, terms.next);
      var w1 := RemoveNamedTerm(w, name, taxonomy);
      assert w1.rows == w.rows && w1.blog == w.blog;
      assert TableOf(SiteAt(w1.sites, w.blog), Term).next == terms.next;
  }

  /**
   * The collapsed metadata a replica starts with: the snapshot's keys plus
   * `sync_id`; a key with one value keeps that value, a key with several
   * values becomes one array of them, and `sync_id` carries the stamp,
   * whose number reads back from the stored string.
   */
  lemma ReplicaMetaShape(meta: Meta, stamp: nat)
    ensures var m := ReplicaMeta(meta, stamp);
            && m.Keys == meta.Keys + {"sync_id"}
            && m["sync_id"] == [Str(Dec(stamp))]
            && DecValue(m["sync_id"][0].s) == stamp
            && (forall k | k in meta && k != "sync_id" && |meta[k]| == 1 :: m[k] == meta[k])
            && (forall k | k in meta && k != "sync_id" && |meta[k]| != 1 :: m[k] == [Arr(meta[k])])
  {
    ReplicaMetaStamp(meta, stamp);
    ReplicaMetaCollapsed(meta, stamp);
  }

  lemma ReplicaMetaStamp(meta: Meta, stamp: nat)
    ensures var m := ReplicaMeta(meta, stamp);
            && m.Keys == meta.Keys + {"sync_id"}
            && m["sync_id"] == [Str(Dec(stamp))]
            && DecValue(m["sync_id"][0].s) == stamp
  {
    DecRoundTrip(stamp);
  }

  lemma ReplicaMetaCollapsed(meta: Meta, stamp: nat)
    ensures var m := ReplicaMeta(meta, stamp);
            && (forall k | k in meta && k != "sync_id" && |meta[k]| == 1 :: k in m && m[k] == meta[k])
            && (forall k | k in meta && k != "sync_id" && |meta[k]| != 1 :: k in m && m[k] == [Arr(meta[k])])
  {
    var m := ReplicaMeta(meta, stamp);
    forall k | k in meta && k != "sync_id" && |meta[k]| == 1 ensures k in m && m[k] == meta[k] {
      assert meta[k] == [meta[k][0]];
    }
  }

  /**
   * `get_term_by('name', ...)` finds the lowest-numbered term of that name
   * in that taxonomy, so deleting it before the insert leaves the new term
   * the only one of its name when the site had at most one before.
   */
  lemma TermCreateDisplacesNamesake(w: World, job: Job, o: SiteOutcome)
    requires WorldValid(w) && SnapshotFits(job) && job.kind == Term && o.insertOk
    requires var d := job.snapshot.data.value;
             var objs := Objects(w.sites, w.blog, Term);
             forall a, b | a in objs && b in objs && NamedTerm(objs[a], d.name, d.taxonomy) && NamedTerm(objs[b], d.name, d.taxonomy) :: a == b
    ensures var c := CreateObject(w, job, o);
            var d := job.snapshot.data.value;
            var objs := Objects(c.0.sites, w.blog, Term);
            forall id | id in objs && NamedTerm(objs[id], d.name, d.taxonomy) :: id == c.1.value
  {
    SiteAtValid(w, w.blog);
    var d := job.snapshot.data.value;
    var terms := TableOf(SiteAt(w.sites, w.blog), Term);
    var found := FindTermNamed(terms.objects, d.name, d.taxonomy, terms.next);
    var w1 := RemoveNamedTerm(w, d.name, d.taxonomy);
    var before := Objects(w1.sites, w.blog, Term);
    forall id | id in before ensures !NamedTerm(before[id], d.name, d.taxonomy) {
      assert Objects(w.sites, w.blog, Term) == terms.objects;
      match found
      case None =>
        assert before == terms.objects;
        assert TableValid(terms, Term);
        assert id < terms.next;
      case Some(gone) =>
        assert before == terms.objects - {gone};
        assert id != gone && gone in terms.objects && NamedTerm(terms.objects[gone], d.name, d.taxonomy);
    }
    CreateObjectCopies(w, job, o);
  }

  /**
   * A delete `sync` of an object whose row is already gone finds no sync id,
   * stores a fresh origin row, removes it again, and fans out the delete
   * under sync id 1, which may name another object's replicas.
   */
  lemma RepeatedDeleteTargetsSyncIdOne(w: World, origin: nat, taxonomy: string, objectId: nat, kind: ObjectType, env: Env)
    requires NoMatch(w.rows, ByObject(objectId, kind, w.blog))
    requires env.originInsertOk && !env.largeNetwork
    ensures var r := SyncSpec(w, origin, taxonomy, objectId, kind, Delete, env);
            var job := Job(origin, kind, 1, Delete, TakeSnapshot(w, objectId, kind, taxonomy));
            && r.1
            && r.0 == FoldSites(w.(nextRow := w.nextRow + 1), job, VisitedSites(env.network), env.outcome)
  {
    var f := ByObject(objectId, kind, w.blog);
    assert Lookup(w.rows, w.blog, objectId, kind, SyncId, 0) == 0;
    var w1 := AddRow(w, objectId, kind, 0, true);
    var x := NewRow(w.rows, w.nextRow, objectId, kind, 0, w.blog);
    assert w1.rows == w.rows + [x];
    WithoutAppendMatch(w.rows, x, f);
    var w2 := w1.(rows := Without(w1.rows, f));
    assert w2 == w.(nextRow := w.nextRow + 1);
  }

  /** Deleting with a filter the last row matches drops that row from the end. */
  lemma {:induction false} WithoutAppendMatch(rows: seq<Row>, x: Row, f: Filter)
    requires Matches(x, f)
    ensures Without(rows + [x], f) == Without(rows, f)
    decreases |rows|
  {
    if rows == [] {
      assert Without([x][1..], f) == [];
    } else {
      assert (rows + [x])[1..] == rows[1..] + [x];
      WithoutAppendMatch(rows[1..], x, f);
    }
  }

  /**
   * After a site is visited with every call succeeding, the replica of a
   * parent-less object carries a `sync_id` meta value that reads back as
   * the sync id `get_sync_id` reports for it on that site, provided the
   * site's rows mention only ids its store has already handed out.
   */
  lemma SiteStepStampMatchesMapping(w: World, job: Job, s: nat, o: SiteOutcome)
    requires WorldValid(w) && s != job.origin && job.syncId != 0
    requires job.action == Create && SnapshotFits(job) && AllOk(o) && job.snapshot.data.value.parent == 0
    requires AtMostOne(w.rows, BySync(job.kind, job.syncId, s))
    requires MappedIdsPositive(w.rows, BySync(job.kind, job.syncId, s))
    requires forall x | x in w.rows && x.siteId == s && x.objectType == job.kind ::
               x.objectId < TableOf(SiteAt(w.sites, s), job.kind).next
    ensures var w' := SiteStep(w, job, s, o);
            var id := TableOf(SiteAt(w.sites, s), job.kind).next;
            && id in Objects(w'.sites, s, job.kind)
            && "sync_id" in Objects(w'.sites, s, job.kind)[id].meta
            && Objects(w'.sites, s, job.kind)[id].meta["sync_id"] == [Str(Dec(job.syncId))]
            && DecValue(Dec(job.syncId)) == job.syncId
            && Lookup(w'.rows, s, id, job.kind, SyncId, 0) == job.syncId
  {
    var w1 := SwitchTo(w, s);
    RemoveRemoteClears(w1, job, o);
    var d := RemoveRemote(w1, job, o);
    var id := TableOf(SiteAt(w.sites, s), job.kind).next;
    assert TableOf(SiteAt(d.0.sites, s), job.kind).next == id;
    CreateObjectCopies(d.0, job, o);
    var c := CreateObject(d.0, job, o);
    ReplicaMetaShape(job.snapshot.meta, job.syncId);
    CreateObjectLocal(d.0, job, o);
    assert c.0.rows == d.0.rows;
    var f := ByObject(id, job.kind, s);
    assert NoMatch(c.0.rows, f) by {
      forall i | 0 <= i < |c.0.rows| ensures !Matches(c.0.rows[i], f) {
        assert c.0.rows[i] in w.rows;
      }
    }
    var x := NewRow(c.0.rows, c.0.nextRow, id, job.kind, job.syncId, s);
    AppendedIsFirstMatch(c.0.rows, x, f);
    var a := AddRow(c.0, id, job.kind, job.syncId, true);
    assert a.rows == c.0.rows + [x];
    assert SiteStep(w, job, s, o) == RestoreCurrent(a);
  }

  /** A delete step on a site with no replica mapped to the sync id changes nothing. */
  lemma SiteStepDeleteIdle(w: World, job: Job, s: nat, o: SiteOutcome)
    requires job.action == Delete
    requires s == job.origin || Unreplicated(w, job.kind, job.syncId, s)
    ensures SiteStep(w, job, s, o) == w
  {
    if s != job.origin {
      assert NoMatch(w.rows, BySync(job.kind, job.syncId, s)) by {
        forall i | 0 <= i < |w.rows| ensures !Matches(w.rows[i], BySync(job.kind, job.syncId, s)) {
          assert w.rows[i] in w.rows;
        }
      }
      var w1 := SwitchTo(w, s);
      assert w1.stack[..|w1.stack| - 1] == w.stack;
    }
  }

  lemma {:induction false} FoldDeleteIdle(w: World, job: Job, sites: seq<nat>, outcome: nat -> SiteOutcome)
    requires job.action == Delete
    requires forall s | s in sites :: s == job.origin || Unreplicated(w, job.kind, job.syncId, s)
    ensures FoldSites(w, job, sites, outcome) == w
    decreases |sites|
  {
    if sites != [] {
      var pre := sites[..|sites| - 1];
      var last := sites[|sites| - 1];
      assert forall s | s in pre :: s in sites;
      FoldDeleteIdle(w, job, pre, outcome);
      SiteStepDeleteIdle(w, job, last, outcome(last));
    }
  }

  /**
   * Deleting an object a second time, once its origin row is gone and
   * nothing on the other sites is mapped to sync id 1, leaves every store
   * and every row as they were; only the auto-increment counter moves.
   */
  lemma RepeatedDeleteChangesNoSite(w: World, origin: nat, taxonomy: string, objectId: nat, kind: ObjectType, env: Env)
    requires NoMatch(w.rows, ByObject(objectId, kind, w.blog))
    requires env.originInsertOk && !env.largeNetwork
    requires forall s | s in VisitedSites(env.network) :: s == origin || Unreplicated(w, kind, 1, s)
    ensures SyncSpec(w, origin, taxonomy, objectId, kind, Delete, env) == (w.(nextRow := w.nextRow + 1), true)
  {
    RepeatedDeleteTargetsSyncIdOne(w, origin, taxonomy, objectId, kind, env);
    var w1 := w.(nextRow := w.nextRow + 1);
    var job := Job(origin, kind, 1, Delete, TakeSnapshot(w, objectId, kind, taxonomy));
    FoldDeleteIdle(w1, job, VisitedSites(env.network), env.outcome);
  }
}
