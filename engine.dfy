/**
 * The replication engine as the plugin runs it (src/class-syncs.php): a
 * `Syncs` object holding the mapping store, the memoised lists of
 * post types and taxonomies and the taxonomy of the last term callback,
 * over a `Host` that stands for WordPress (the sites' object stores and
 * the switched-blog stack). Every state-changing method is proved to
 * perform exactly the transition the value-level specification in
 * module Replication describes.
 */
module Engine {
  import opened Wrappers
  import opened MappingStore
  import opened Replication
  import opened ReplicationProofs

  /** WordPress as the engine sees it: the sites' stores and the `switch_to_blog` stack. */
  class Host {
    var sites: map<nat, Site>
    var stack: seq<nat>
    const multisite: bool

    ghost predicate Valid()
      reads this
    {
      forall s | s in sites :: SiteValid(sites[s])
    }

    constructor (sites: map<nat, Site>, multisite: bool)
      requires forall s | s in sites :: SiteValid(sites[s])
      ensures Valid() && this.sites == sites && stack == [] && this.multisite == multisite
    {
      this.sites, stack, this.multisite := sites, [], multisite;
    }
  }

  /** What the `syncs_post_types` / `syncs_taxonomies` filters hand back. */
  datatype FilterResult = Array(items: seq<string>) | NotArray

  /**
   * `array_unique`: one occurrence of each value. The result holds the
   * same values as the input and no value twice.
   */
  function Unique(s: seq<string>): (r: seq<string>)
    ensures forall x :: x in r <==> x in s
    ensures forall i, j | 0 <= i < j < |r| :: r[i] != r[j]
    ensures |r| <= |s|
    decreases |s|
  {
    if s == [] then []
    else
      var u := Unique(s[..|s| - 1]);
      assert forall x :: x in s <==> x in s[..|s| - 1] || x == s[|s| - 1];
      if s[|s| - 1] in u then u else u + [s[|s| - 1]]
  }

  /** A list without repeated values is its own `array_unique`. */
  lemma {:induction false} UniqueOfDistinct(s: seq<string>)
    requires forall i, j | 0 <= i < j < |s| :: s[i] != s[j]
    ensures Unique(s) == s
    decreases |s|
  {
    if s != [] {
      var p := s[..|s| - 1];
      UniqueOfDistinct(p);
      assert s[|s| - 1] !in p;
      assert p + [s[|s| - 1]] == s;
    }
  }

  /**
   * The list `get_post_types` / `get_taxonomies` return: the cached list
   * when it is not empty, otherwise the registered names made unique and
   * passed through the filter, whose result counts only if it is an array.
   */
  function Listed(cache: seq<string>, registered: seq<string>, filter: seq<string> -> FilterResult): (r: seq<string>)
    ensures cache != [] ==> r == cache
    ensures cache == [] && filter(Unique(registered)).NotArray? ==> r == []
    ensures cache == [] && filter(Unique(registered)) == Array(Unique(registered)) ==>
      && (forall x :: x in r <==> x in registered)
      && (forall i, j | 0 <= i < j < |r| :: r[i] != r[j])
  {
    if cache != [] then cache
    else
      match filter(Unique(registered))
      case Array(items) => items
      case NotArray => []
  }

  /** `get_post(id)` on the current blog. */
  function StoredPost(w: World, postId: nat): Option<Data> {
    var posts := Objects(w.sites, w.blog, Post);
    if postId in posts then Some(posts[postId].data) else None
  }

  /** `$post->post_type`, read from a missing post as null, which compares equal to "". */
  function PostType(post: Option<Data>): string {
    if post.Some? && post.value.PostData? && "post_type" in post.value.fields then post.value.fields["post_type"]
    else ""
  }

  /** Once a sync id is resolved on a small network, the tail of `sync` is the fan-out from the (possibly trimmed) world `w2`. */
  lemma PropagateRuns(res: (World, nat), origin: nat, taxonomy: string, objectId: nat, kind: ObjectType, action: Action, env: Env, w2: World)
    requires res.1 != 0 && !env.largeNetwork
    requires w2 == if action == Delete then res.0.(rows := Without(res.0.rows, ByObject(objectId, kind, res.0.blog))) else res.0
    ensures Propagate(res, origin, taxonomy, objectId, kind, action, env)
         == (FoldSites(w2, Job(origin, kind, res.1, action, TakeSnapshot(w2, objectId, kind, taxonomy)), VisitedSites(env.network), env.outcome), true)
  {
  }

  /** The plugin object: one per request, created on the blog that is current then. */
  class Syncs {
    const db: Database
    const host: Host
    /** The blog that was current when the object was created: the origin of every sync. */
    const currentBlogId: nat
    var postTypes: seq<string>
    var taxonomies: seq<string>
    /** The taxonomy of the last accepted term callback, used to read the term. */
    var taxonomy: string

    ghost predicate Valid()
      reads db, host
    {
      db.Valid() && host.Valid()
    }

    /** The world the specification functions speak about. */
    function State(): World
      reads db, host
    {
      World(db.rows, db.nextId, db.currentBlog, host.stack, host.sites)
    }

    constructor (db: Database, host: Host)
      requires db.Valid() && host.Valid()
      ensures Valid() && this.db == db && this.host == host
      ensures currentBlogId == db.currentBlog && postTypes == [] && taxonomies == [] && taxonomy == ""
    {
      this.db, this.host, currentBlogId := db, host, db.currentBlog;
      postTypes, taxonomies, taxonomy := [], [], "";
    }

    // -------------------------------------------------------------------
    // Host calls
    // -------------------------------------------------------------------

    /** `switch_to_blog(s)` */
    method SwitchToBlog(s: nat)
      requires Valid()
      modifies host`stack, db`currentBlog
      ensures Valid()
      ensures State() == SwitchTo(old(State()), s)
    {
      host.stack := host.stack + [db.currentBlog];
      db.currentBlog := s;
    }

    /** `restore_current_blog()` */
    method RestoreCurrentBlog()
      requires Valid()
      modifies host`stack, db`currentBlog
      ensures Valid()
      ensures State() == RestoreCurrent(old(State()))
    {
      if host.stack != [] {
        db.currentBlog := host.stack[|host.stack| - 1];
        host.stack := host.stack[..|host.stack| - 1];
      }
    }

    /** Removes object `id` of type `kind` from the current blog's store. */
    method RemoveFromStore(kind: ObjectType, id: nat)
      requires Valid()
      modifies host`sites
      ensures Valid()
      ensures State() == RemoveObject(old(State()), kind, id)
    {
      RemoveObjectValid(State(), kind, id);
      var site := SiteAt(host.sites, db.currentBlog);
      var table := TableOf(site, kind);
      host.sites := host.sites[db.currentBlog := WithTable(site, kind, table.(objects := table.objects - {id}))];
    }

    /** `Syncs::delete`: the host's delete call, whose success is the input `ok`. */
    method DeleteObject(id: nat, kind: ObjectType, ok: bool) returns (deleted: bool)
      requires Valid()
      modifies host`sites
      ensures Valid()
      ensures deleted == ok
      ensures ok ==> State() == RemoveObject(old(State()), kind, id)
      ensures !ok ==> State() == old(State())
    {
      if ok {
        RemoveFromStore(kind, id);
      }
      deleted := ok;
    }

    /** The metadata loop of `Syncs::create`: each key's values, collapsed when single. */
    method CollapseMeta(meta: Meta) returns (m: Meta)
      ensures m == Collapsed(meta)
    {
      m := map[];
      var keys := meta.Keys;
      while keys != {}
        invariant keys <= meta.Keys
        invariant m == map k | k in meta.Keys - keys :: [Collapse(meta[k])]
        decreases keys
      {
        var k :| k in keys;
        m := m[k := [Collapse(meta[k])]];
        keys := keys - {k};
      }
    }

    /** `wp_insert_post` / `wp_insert_term`: the object gets its table's next id. */
    method Insert(kind: ObjectType, data: Data, meta: Meta) returns (id: nat)
      requires Valid() && (data.PostData? <==> kind == Post)
      modifies host`sites
      ensures Valid()
      ensures id >= 1 && id !in Objects(old(host.sites), db.currentBlog, kind)
      ensures (State(), Some(id)) == InsertObject(old(State()), kind, data, meta)
    {
      SiteAtValid(State(), db.currentBlog);
      InsertObjectValid(State(), kind, data, meta);
      var site := SiteAt(host.sites, db.currentBlog);
      var table := TableOf(site, kind);
      id := table.next;
      host.sites := host.sites[db.currentBlog := WithTable(site, kind, Table(table.objects[id := Obj(data, meta)], id + 1))];
    }

    /**
     * `Syncs::create`: copies the snapshot onto the current blog, after
     * deleting a term of the same name and translating the parent id.
     */
    method CreateIn(job: Job, o: SiteOutcome) returns (id: Option<nat>)
      requires Valid()
      modifies host`sites
      ensures Valid()
      ensures (State(), id) == CreateObject(old(State()), job, o)
    {
      if job.snapshot.data.None? {
        return None;
      }
      ghost var w := State();
      var d := job.snapshot.data.value;
      var kind := if d.PostData? then Post else Term;
      if d.TermData? {
        var terms := TableOf(SiteAt(host.sites, db.currentBlog), Term);
        var existing := FindTermNamed(terms.objects, d.name, d.taxonomy, terms.next);
        if existing.Some? {
          RemoveFromStore(Term, existing.value);
        }
        assert State() == RemoveNamedTerm(w, d.name, d.taxonomy);
      }
      ghost var w1 := State();
      var parent := d.parent;
      var stamp := job.syncId;
      if parent > 0 {
        stamp := db.Get(parent, kind, SyncId, job.origin);
        if stamp != 0 {
          parent := db.GetObjectId(kind, stamp);
        } else {
          parent := 0;
        }
      }
      assert (parent, stamp) == ResolveParent(w1.rows, w1.blog, kind, d.parent, job.origin, job.syncId);
      if !o.insertOk {
        return None;
      }
      var meta := CollapseMeta(job.snapshot.meta);
      meta := meta["sync_id" := [Str(Dec(stamp))]];
      var newId := Insert(kind, d.(parent := parent), meta);
      id := Some(newId);
    }

    /**
     * The delete half of a site visit: the replica mapped to the sync id
     * (if any) is deleted, and on success its mapping rows; the result is
     * `$deleted`.
     */
    method RemoveRemoteAt(job: Job, o: SiteOutcome) returns (deleted: bool)
      requires Valid()
      modifies db`rows, host`sites
      ensures Valid()
      ensures (State(), deleted) == RemoveRemote(old(State()), job, o)
    {
      deleted := false;
      var remote := db.GetObjectId(job.kind, job.syncId);
      if remote != 0 {
        var removed := DeleteObject(remote, job.kind, o.deleteOk);
        if removed {
          deleted := db.Delete(remote, job.kind);
        }
      } else {
        deleted := true;
      }
    }

    /** One iteration of the fan-out loop of `Syncs::sync`, for site `s`. */
    method VisitSite(s: nat, job: Job, o: SiteOutcome)
      requires Valid()
      modifies db`rows, db`nextId, db`currentBlog, host`sites, host`stack
      ensures Valid()
      ensures State() == SiteStep(old(State()), job, s, o)
    {
      if s == job.origin {
        return;
      }
      SwitchToBlog(s);
      var deleted := RemoveRemoteAt(job, o);
      if !deleted {
        return;
      }
      if job.action == Create {
        ghost var d := State();
        CreateObjectIdPositive(d, job, o);
        var id := CreateIn(job, o);
        if id.None? || id.value == 0 {
          return;
        }
        var _ := db.Create(id.value, job.kind, job.syncId, o.rowOk);
        assert State() == AddRow(CreateObject(d, job, o).0, id.value, job.kind, job.syncId, o.rowOk);
      }
      RestoreCurrentBlog();
    }

    /**
     * The first step of `Syncs::sync`: the object's sync id on the current
     * blog, else what `Database::create` returns for a new row.
     */
    method ResolveSyncIdAt(objectId: nat, kind: ObjectType, insertOk: bool) returns (syncId: nat)
      requires Valid()
      modifies db`rows, db`nextId
      ensures Valid()
      ensures (State(), syncId) == ResolveSyncId(old(State()), objectId, kind, insertOk)
    {
      syncId := db.Get(objectId, kind, SyncId, 0);
      if syncId == 0 {
        var created := db.Create(objectId, kind, 0, insertOk);
        syncId := if created.Some? then created.value else 0;
      }
    }

    /** The fan-out loop of `Syncs::sync` over the given sites, in order. */
    method FanOut(job: Job, sites: seq<nat>, outcome: nat -> SiteOutcome)
      requires Valid()
      modifies db`rows, db`nextId, db`currentBlog, host`sites, host`stack
      ensures Valid()
      ensures State() == FoldSites(old(State()), job, sites, outcome)
    {
      ghost var start := State();
      for i := 0 to |sites|
        invariant Valid()
        invariant State() == FoldSites(start, job, sites[..i], outcome)
      {
        VisitSite(sites[i], job, outcome(sites[i]));
        assert sites[..i + 1][..i] == sites[..i];
      }
      assert sites[..|sites|] == sites;
    }

    /**
     * The rest of `Syncs::sync` once the sync id is known and the network is
     * small: drops the origin's row on a delete, snapshots the object and
     * visits the sites `get_sites` returns.
     */
    method PropagateFrom(syncId: nat, objectId: nat, kind: ObjectType, action: Action, env: Env)
      requires Valid() && syncId != 0 && !env.largeNetwork
      modifies db`rows, db`nextId, db`currentBlog, host`sites, host`stack
      ensures Valid()
      ensures (State(), true) == Propagate((old(State()), syncId), currentBlogId, taxonomy, objectId, kind, action, env)
    {
      ghost var res := (State(), syncId);
      if action == Delete {
        var _ := db.Delete(objectId, kind);
      }
      var job := Job(currentBlogId, kind, syncId, action, TakeSnapshot(State(), objectId, kind, taxonomy));
      PropagateRuns(res, currentBlogId, taxonomy, objectId, kind, action, env, State());
      FanOut(job, VisitedSites(env.network), env.outcome);
    }

    /**
     * `Syncs::sync`: resolves (or creates) the sync id, bails on a missing
     * sync id or a large network, drops the origin's row on a delete,
     * snapshots the object and visits the sites `get_sites` returns.
     */
    method Sync(objectId: nat, kind: ObjectType, action: Action, env: Env) returns (ok: bool)
      requires Valid()
      modifies db`rows, db`nextId, db`currentBlog, host`sites, host`stack
      ensures Valid()
      ensures (State(), ok) == SyncSpec(old(State()), currentBlogId, taxonomy, objectId, kind, action, env)
    {
      var syncId := ResolveSyncIdAt(objectId, kind, env.originInsertOk);
      if syncId == 0 || env.largeNetwork {
        return false;
      }
      PropagateFrom(syncId, objectId, kind, action, env);
      ok := true;
    }

    /** `Syncs::get_sync_id`: the object's sync id on `siteId` (0: the current blog), or 0. */
    function GetSyncId(objectId: nat, kind: ObjectType, siteId: nat): (r: nat)
      reads db
      ensures NoMatch(db.rows, ByObject(objectId, kind, ScopedSite(siteId, db.currentBlog))) ==> r == 0
      ensures forall i | IsFirstMatch(db.rows, ByObject(objectId, kind, ScopedSite(siteId, db.currentBlog)), i) ::
                r == db.rows[i].syncId
    {
      db.Get(objectId, kind, SyncId, siteId)
    }

    // -------------------------------------------------------------------
    // Allowed post types and taxonomies
    // -------------------------------------------------------------------

    /** `get_post_types`: memoised in `postTypes` once it is not empty. */
    method GetPostTypes(registered: seq<string>, filter: seq<string> -> FilterResult) returns (types: seq<string>)
      modifies this`postTypes
      ensures types == postTypes == Listed(old(postTypes), registered, filter)
      ensures old(postTypes) != [] ==> types == old(postTypes)
    {
      if postTypes == [] {
        var unique := Unique(registered);
        var filtered := filter(unique);
        postTypes := if filtered.Array? then filtered.items else [];
      }
      types := postTypes;
    }

    /** `get_taxonomies`: memoised in `taxonomies` once it is not empty. */
    method GetTaxonomies(registered: seq<string>, filter: seq<string> -> FilterResult) returns (taxes: seq<string>)
      modifies this`taxonomies
      ensures taxes == taxonomies == Listed(old(taxonomies), registered, filter)
      ensures old(taxonomies) != [] ==> taxes == old(taxonomies)
    {
      if taxonomies == [] {
        var unique := Unique(registered);
        var filtered := filter(unique);
        taxonomies := if filtered.Array? then filtered.items else [];
      }
      taxes := taxonomies;
    }

    // -------------------------------------------------------------------
    // Hook callbacks
    // -------------------------------------------------------------------

    /**
     * `save_post`: ignored while switched on a multisite, for post id 0,
     * and for a post whose type is not allowed; otherwise a create sync.
     * The post is fetched when the hook passes none.
     */
    method SavePost(postId: nat, post: Option<Data>, registered: seq<string>, filter: seq<string> -> FilterResult, env: Env)
      returns (ok: bool)
      requires Valid()
      modifies db`rows, db`nextId, db`currentBlog, host`sites, host`stack, this`postTypes
      ensures Valid()
      ensures (host.multisite && IsSwitched(old(State()))) || postId == 0 ==>
                !ok && State() == old(State()) && postTypes == old(postTypes)
      ensures !(host.multisite && IsSwitched(old(State()))) && postId != 0 ==>
                && postTypes == Listed(old(postTypes), registered, filter)
                && var p := if post.Some? then post else StoredPost(old(State()), postId);
                   if PostType(p) in postTypes
                   then (State(), ok) == SyncSpec(old(State()), currentBlogId, taxonomy, postId, Post, Create, env)
                   else !ok && State() == old(State())
    {
      if host.multisite && host.stack != [] {
        return false;
      }
      var p := post;
      if p.None? {
        p := StoredPost(State(), postId);
      }
      if postId == 0 {
        return false;
      }
      var types := GetPostTypes(registered, filter);
      if PostType(p) !in types {
        return false;
      }
      ok := Sync(postId, Post, Create, env);
    }

    /**
     * `delete_post`: ignored while switched on a multisite, for post id 0,
     * for a post that does not exist and for a type that is not allowed;
     * otherwise a delete sync.
     */
    method DeletePost(postId: nat, registered: seq<string>, filter: seq<string> -> FilterResult, env: Env)
      returns (ok: bool)
      requires Valid()
      modifies db`rows, db`nextId, db`currentBlog, host`sites, host`stack, this`postTypes
      ensures Valid()
      ensures (host.multisite && IsSwitched(old(State()))) || postId == 0 || StoredPost(old(State()), postId).None? ==>
                !ok && State() == old(State()) && postTypes == old(postTypes)
      ensures !(host.multisite && IsSwitched(old(State()))) && postId != 0 && StoredPost(old(State()), postId).Some? ==>
                && postTypes == Listed(old(postTypes), registered, filter)
                && if PostType(StoredPost(old(State()), postId)) in postTypes
                   then (State(), ok) == SyncSpec(old(State()), currentBlogId, taxonomy, postId, Post, Delete, env)
                   else !ok && State() == old(State())
    {
      if host.multisite && host.stack != [] {
        return false;
      }
      if postId == 0 {
        return false;
      }
      var p := StoredPost(State(), postId);
      if p.None? {
        return false;
      }
      var types := GetPostTypes(registered, filter);
      if PostType(p) !in types {
        return false;
      }
      ok := Sync(postId, Post, Delete, env);
    }

    /**
     * `save_term`: ignored while switched on a multisite, for term id 0 and
     * for a taxonomy that is not allowed; otherwise records the taxonomy
     * and runs a create sync.
     */
    method SaveTerm(termId: nat, tax: string, registered: seq<string>, filter: seq<string> -> FilterResult, env: Env)
      returns (ok: bool)
      requires Valid()
      modifies db`rows, db`nextId, db`currentBlog, host`sites, host`stack, this`taxonomies, this`taxonomy
      ensures Valid()
      ensures (host.multisite && IsSwitched(old(State()))) || termId == 0 ==>
                !ok && State() == old(State()) && taxonomies == old(taxonomies) && taxonomy == old(taxonomy)
      ensures !(host.multisite && IsSwitched(old(State()))) && termId != 0 ==>
                && taxonomies == Listed(old(taxonomies), registered, filter)
                && if tax in taxonomies
                   then taxonomy == tax && (State(), ok) == SyncSpec(old(State()), currentBlogId, tax, termId, Term, Create, env)
                   else !ok && State() == old(State()) && taxonomy == old(taxonomy)
    {
      ok := TermCallback(termId, tax, registered, filter, env, Create);
    }

    /**
     * `delete_term`: the same guards as `save_term`, then records the
     * taxonomy and runs a delete sync.
     */
    method DeleteTerm(termId: nat, tax: string, registered: seq<string>, filter: seq<string> -> FilterResult, env: Env)
      returns (ok: bool)
      requires Valid()
      modifies db`rows, db`nextId, db`currentBlog, host`sites, host`stack, this`taxonomies, this`taxonomy
      ensures Valid()
      ensures (host.multisite && IsSwitched(old(State()))) || termId == 0 ==>
                !ok && State() == old(State()) && taxonomies == old(taxonomies) && taxonomy == old(taxonomy)
      ensures !(host.multisite && IsSwitched(old(State()))) && termId != 0 ==>
                && taxonomies == Listed(old(taxonomies), registered, filter)
                && if tax in taxonomies
                   then taxonomy == tax && (State(), ok) == SyncSpec(old(State()), currentBlogId, tax, termId, Term, Delete, env)
                   else !ok && State() == old(State()) && taxonomy == old(taxonomy)
    {
      ok := TermCallback(termId, tax, registered, filter, env, Delete);
    }

    /** The body `save_term` and `delete_term` share, for the given action. */
    method TermCallback(termId: nat, tax: string, registered: seq<string>, filter: seq<string> -> FilterResult, env: Env, action: Action)
      returns (ok: bool)
      requires Valid()
      modifies db`rows, db`nextId, db`currentBlog, host`sites, host`stack, this`taxonomies, this`taxonomy
      ensures Valid()
      ensures (host.multisite && IsSwitched(old(State()))) || termId == 0 ==>
                !ok && State() == old(State()) && taxonomies == old(taxonomies) && taxonomy == old(taxonomy)
      ensures !(host.multisite && IsSwitched(old(State()))) && termId != 0 ==>
                && taxonomies == Listed(old(taxonomies), registered, filter)
                && if tax in taxonomies
                   then taxonomy == tax && (State(), ok) == SyncSpec(old(State()), currentBlogId, tax, termId, Term, action, env)
                   else !ok && State() == old(State()) && taxonomy == old(taxonomy)
    {
      if host.multisite && host.stack != [] {
        return false;
      }
      if termId == 0 {
        return false;
      }
      var taxes := GetTaxonomies(registered, filter);
      if tax !in taxes {
        return false;
      }
      taxonomy := tax;
      ok := Sync(termId, Term, action, env);
    }
  }
}
