/** The serial registry. */
module Registry {
  // One call at a time. The methods are the code's, with the cache and the store as fields that they
  // update. Between calls every cached engine equals the one a build from the current store would make,
  // so a registry driven serially cannot be told from one that rebuilds on every resolve, as long as no
  // definition changes: a changed one is the business of the interleaved model.

  import opened Wrappers
  import opened Sorting
  import opened Settings
  import opened Store

  /** A built engine; the object's identity is what concurrent resolves share. */
  class Adapter {
    const engine: Engine

    constructor (engine: Engine)
      ensures this.engine == engine
    {
      this.engine := engine;
    }
  }

  class Registry {
    const env: Env
    var db: Db
    var cache: map<string, Adapter>

    ghost predicate Valid()
      reads this
    {
      && Sound(env.keyring)
      && ValidDb(db)
      && forall slug :: slug in cache ==> Rebuilt(env, db, slug) == Success(cache[slug].engine)
    }

    constructor (env: Env)
      requires Sound(env.keyring)
      ensures Valid() && this.env == env && db == EMPTY_DB && cache == map[]
    {
      this.env := env;
      db := EMPTY_DB;
      cache := map[];
    }

    /** Serves the cached engine or builds and caches one. */
    method Resolve(slug: string) returns (r: Result<Adapter, BuildError>)
      requires Valid()
      modifies this`cache
      ensures Valid()
      ensures match r
              case Failure(e) => Rebuilt(env, db, slug) == Failure(e) && cache == old(cache)
              case Success(a) => Rebuilt(env, db, slug) == Success(a.engine) && cache == old(cache)[slug := a]
      ensures slug in old(cache) ==> r == Success(old(cache)[slug])
      ensures slug !in old(cache) && r.Success? ==> fresh(r.value)
    {
      if slug in cache {
        return Success(cache[slug]);
      }
      var built := Build(slug);
      if built.Failure? {
        return Failure(built.error);
      }
      var a := new Adapter(built.value);
      var kept := InstallFirst(slug, a);
      r := Success(kept);
    }

    /** The second locked section: an engine cached in the meantime is kept, and the new one dropped. */
    method InstallFirst(slug: string, a: Adapter) returns (kept: Adapter)
      modifies this`cache
      ensures kept == if slug in old(cache) then old(cache)[slug] else a
      ensures cache == old(cache)[slug := kept]
    {
      if slug in cache {
        return cache[slug];
      }
      cache := cache[slug := a];
      kept := a;
    }

    /** Two reads, the decryption of every secret, and the engine's own checks. */
    method Build(slug: string) returns (r: Result<Engine, BuildError>)
      requires Valid()
      ensures r == Rebuilt(env, db, slug)
    {
      if slug !in db.instances {
        return Failure(NotFound);
      }
      var inst := db.instances[slug];
      if !inst.enabled {
        return Failure(Disabled);
      }
      if inst.definitionId !in env.definitions {
        return Failure(UnknownDefinition);
      }
      var definition := env.definitions[inst.definitionId];
      var list := ReadSettings(inst.id);
      var cfg := DecryptConfig(env.keyring, inst.id, list);
      if cfg.None? {
        return Failure(Undecryptable);
      }
      if !env.accepts(definition, inst.baseURL, cfg.value) {
        return Failure(Rejected);
      }
      r := Success(Engine(inst, definition, cfg.value));
    }

    /** The rows of an instance, ordered by name. */
    method ReadSettings(id: int) returns (list: seq<Setting>)
      requires Valid()
      ensures Enumerates(list, RowsOf(db, id)) && Ordered(list, NameLess)
    {
      list := Listed(RowsOf(db, id));
      SortedEnumerates(list);
      list := StableSort(list, NameLess);
    }

    method Invalidate(slug: string)
      modifies this`cache
      ensures cache == old(cache) - {slug}
    {
      cache := cache - {slug};
    }

    /** Adds an instance with its settings, under an id the database chooses. */
    method Add(p: AddParams, nonce: string -> int, id: int) returns (r: Result<Instance, ManageError>)
      requires Valid() && id !in db.settings
      modifies this`cache, this`db
      ensures Valid()
      ensures match CheckAdd(env, old(db), p)
              case Failure(e) => r == Failure(e) && db == old(db) && cache == old(cache)
              case Success(slug) =>
                match AddTx(env, old(db), p, env.definitions[p.definitionId], id, nonce)
                case Failure(e) => r == Failure(e) && db == old(db) && cache == old(cache)
                case Success(db') => db == db' && r == Success(db'.instances[slug]) && cache == old(cache) - {slug}
    {
      var slug := OrDefault(p.slug, p.definitionId);
      if !ValidSlug(slug) || p.definitionId !in env.definitions {
        return Failure(Invalid);
      }
      if slug in db.instances {
        return Failure(Conflict);
      }
      var definition := env.definitions[p.definitionId];
      var inst := Instance(id, slug, p.definitionId, OrDefault(p.name, definition.name), p.baseURL, true);
      var rows := WriteSettings(WriterFor(env, id, definition, nonce), p.settings);
      if rows.None? {
        return Failure(Failed); // the transaction rolls back
      }
      AddKeepsValid(env, db, p, definition, id, nonce);
      MutationKeepsOthers(slug, AddTx(env, db, p, definition, id, nonce).value);
      db := Db(db.instances[slug := inst], db.settings[id := rows.value]);
      Invalidate(slug);
      r := Success(inst);
    }

    /** Cached engines of the other slugs survive a mutation of this one. */
    lemma MutationKeepsOthers(slug: string, db': Db)
      requires Valid() && forall t :: t in db.instances && t != slug ==> ViewOf(db', t) == ViewOf(db, t)
      ensures forall t :: t in cache && t != slug ==> Rebuilt(env, db', t) == Success(cache[t].engine)
    {
      forall t | t in cache && t != slug ensures Rebuilt(env, db', t) == Success(cache[t].engine) {
        RebuiltByView(env, db, db', t);
      }
    }

    /** The instance and what a client may see of its settings. */
    method Get(slug: string) returns (r: Option<(Instance, seq<SettingView>)>)
      requires Valid()
      ensures r.None? <==> slug !in db.instances
      ensures r.Some? ==>
        && r.value.0 == db.instances[slug]
        && ShowsInOrder(r.value.1, RowsOf(db, db.instances[slug].id))
        && ViewValues(r.value.1) == ShownValues(RowsOf(db, db.instances[slug].id))
    {
      if slug !in db.instances {
        return None;
      }
      var inst := db.instances[slug];
      var list := ReadSettings(inst.id);
      var views: seq<SettingView> := [];
      for i := 0 to |list|
        invariant |views| == i
        invariant forall j :: 0 <= j < i ==> Shows(views[j], list[j])
      {
        var s := list[i];
        var value := s.value;
        if s.isSecret {
          value := REDACTED;
        }
        views := views + [SettingView(s.name, value, s.isSecret)];
      }
      assert ShowsEach(views, list);
      ViewsHoldShownValues(list, views);
      r := Some((inst, views));
    }

    /** Merges settings into an instance and rewrites its name and base URL. */
    method Update(slug: string, p: UpdateParams, nonce: string -> int) returns (r: Option<ManageError>)
      requires Valid()
      modifies this`cache, this`db
      ensures Valid()
      ensures match UpdateResult(env, old(db), slug, p, nonce)
              case Failure(e) => r == Some(e) && db == old(db) && cache == old(cache)
              case Success(db') => r == None && db == db' && cache == old(cache) - {slug}
      ensures r == None ==> slug in old(db).instances && slug in db.instances
                            && UpdatedBy(p, old(db).instances[slug], db.instances[slug])
    {
      if slug !in db.instances {
        return Some(Missing);
      }
      var inst := db.instances[slug];
      var existing := ReadSettings(inst.id);
      if inst.definitionId !in env.definitions {
        return Some(Failed);
      }
      var w := WriterFor(env, inst.id, env.definitions[inst.definitionId], nonce);
      var merged := MergeSettings(w, existing, p.settings);
      if merged.None? {
        return Some(Failed);
      }
      ghost var db' := UpdateOf(env, db, slug, p, nonce);
      WriteUpdate(inst, UpdatedName(inst, p), UpdatedBaseURL(inst, p), merged.value, db');
      r := None;
    }

    /** The update's transaction and the invalidation after it. */
    method WriteUpdate(inst: Instance, name: string, baseURL: string, merged: seq<Setting>, ghost db': Db)
      requires Valid() && inst.slug in db.instances && db.instances[inst.slug] == inst
      requires DistinctNames(merged) && ValidRows(ByName(merged)) && ValidDb(db')
      requires db' == Db(db.instances[inst.slug := inst.(name := name, baseURL := baseURL)],
                         db.settings[inst.id := ByName(merged)])
      requires forall t :: t in db.instances && t != inst.slug ==> ViewOf(db', t) == ViewOf(db, t)
      modifies this`cache, this`db
      ensures Valid() && db == db' && cache == old(cache) - {inst.slug}
    {
      var rows: Rows := map[];
      for i := 0 to |merged|
        invariant rows == ByName(merged[..i]) && db == old(db) && cache == old(cache)
      {
        assert merged[..i + 1][..i] == merged[..i];
        ByNameFinds(merged, i);
        assert ValidSetting(merged[i]); // so the insert is not refused
        rows := rows[merged[i].name := merged[i]];
      }
      assert merged[..|merged|] == merged;
      MutationKeepsOthers(inst.slug, db');
      db := Db(db.instances[inst.slug := inst.(name := name, baseURL := baseURL)], db.settings[inst.id := rows]);
      Invalidate(inst.slug);
    }

    method SetEnabled(slug: string, enabled: bool) returns (r: Option<ManageError>)
      requires Valid()
      modifies this`cache, this`db
      ensures Valid()
      ensures match SetEnabledTx(old(db), slug, enabled)
              case Failure(e) => r == Some(e) && db == old(db) && cache == old(cache)
              case Success(db') => r == None && db == db' && cache == old(cache) - {slug}
    {
      if slug !in db.instances {
        return Some(Missing);
      }
      SetEnabledKeepsValid(db, slug, enabled);
      MutationKeepsOthers(slug, SetEnabledTx(db, slug, enabled).value);
      db := db.(instances := db.instances[slug := db.instances[slug].(enabled := enabled)]);
      Invalidate(slug);
      r := None;
    }

    method Delete(slug: string) returns (r: Option<ManageError>)
      requires Valid()
      modifies this`cache, this`db
      ensures Valid()
      ensures match DeleteTx(old(db), slug)
              case Failure(e) => r == Some(e) && db == old(db) && cache == old(cache)
              case Success(db') => r == None && db == db' && cache == old(cache) - {slug}
    {
      if slug !in db.instances {
        return Some(Missing);
      }
      DeleteKeepsValid(db, slug);
      MutationKeepsOthers(slug, DeleteTx(db, slug).value);
      db := Db(db.instances - {slug}, db.settings - {db.instances[slug].id});
      Invalidate(slug);
      r := None;
    }
  }

  /** The store after an update run without interleaving, or why nothing is written. */
  function UpdateResult(env: Env, db: Db, slug: string, p: UpdateParams,
                        nonce: string -> int): Result<Db, ManageError> {
    if slug !in db.instances then Failure(Missing)
    else if db.instances[slug].definitionId !in env.definitions then Failure(Failed) else
    var inst := db.instances[slug];
    var w := WriterFor(env, inst.id, env.definitions[inst.definitionId], nonce);
    match MergedRows(w, RowsOf(db, inst.id), p.settings)
    case None => Failure(Failed)
    case Some(rows) => Success(Db(
      db.instances[slug := inst.(name := UpdatedName(inst, p), baseURL := UpdatedBaseURL(inst, p))],
      db.settings[inst.id := rows]))
  }

  /** Run without interleaving, the update transaction finds its instance and writes exactly that store. */
  lemma UpdateOf(env: Env, db: Db, slug: string, p: UpdateParams, nonce: string -> int) returns (db': Db)
    requires Sound(env.keyring) && ValidDb(db) && UpdateResult(env, db, slug, p, nonce).Success?
    ensures UpdateResult(env, db, slug, p, nonce) == Success(db')
    ensures var inst := db.instances[slug];
      UpdateTx(db, inst.id, UpdatedName(inst, p), UpdatedBaseURL(inst, p), db'.settings[inst.id]) == Success(db')
    ensures ValidDb(db') && ValidRows(db'.settings[db.instances[slug].id])
    ensures forall t :: t in db.instances && t != slug ==> ViewOf(db', t) == ViewOf(db, t)
  {
    db' := UpdateResult(env, db, slug, p, nonce).value;
    var inst := db.instances[slug];
    var rows := db'.settings[inst.id];
    var w := WriterFor(env, inst.id, env.definitions[inst.definitionId], nonce);
    UpdateKeepsRowsValid(w, RowsOf(db, inst.id), p.settings);
    assert HasInstance(db, inst.id);
    var tx := UpdateTx(db, inst.id, UpdatedName(inst, p), UpdatedBaseURL(inst, p), rows);
    assert tx.Success? && tx.value.instances == db'.instances;
    UpdateKeepsValid(db, inst.id, UpdatedName(inst, p), UpdatedBaseURL(inst, p), rows);
  }

  /** A field of an update: what is given replaces what was there. */
  predicate Takes(given: Option<string>, was: string, now: string) {
    match given
    case Some(text) => now == text
    case None => now == was
  }

  /** What was there before an instance was updated, and what is there now. */
  predicate UpdatedBy(p: UpdateParams, was: Instance, now: Instance) {
    && Takes(p.name, was.name, now.name) && Takes(p.baseURL, was.baseURL, now.baseURL)
    && now.id == was.id && now.slug == was.slug
    && now.definitionId == was.definitionId && now.enabled == was.enabled
  }

  /** A successful update writes the name and the base URL it gives, and keeps the rest of the instance. */
  lemma UpdateWrites(env: Env, db: Db, slug: string, p: UpdateParams, nonce: string -> int)
    requires UpdateResult(env, db, slug, p, nonce).Success?
    ensures var db' := UpdateResult(env, db, slug, p, nonce).value;
      slug in db.instances && slug in db'.instances && UpdatedBy(p, db.instances[slug], db'.instances[slug])
  {
  }

  /** An instance is determined by what it was and the update. */
  lemma UpdatedOneWay(p: UpdateParams, was: Instance, a: Instance, b: Instance)
    requires UpdatedBy(p, was, a) && UpdatedBy(p, was, b)
    ensures a == b
  {
  }

  /** Giving an instance back its own name and base URL leaves it as it is. */
  lemma UpdateWithItsOwn(env: Env, db: Db, slug: string, settings: map<string, string>, nonce: string -> int)
    requires slug in db.instances
    ensures var inst := db.instances[slug];
      var r := UpdateResult(env, db, slug, UpdateParams(Some(inst.name), Some(inst.baseURL), settings), nonce);
      r.Success? ==> r.value.instances[slug] == inst
  {
    var inst := db.instances[slug];
    var p := UpdateParams(Some(inst.name), Some(inst.baseURL), settings);
    if UpdateResult(env, db, slug, p, nonce).Success? {
      UpdateWrites(env, db, slug, p, nonce);
      UpdatedOneWay(p, inst, UpdateResult(env, db, slug, p, nonce).value.instances[slug], inst);
    }
  }

  /** Of two updates in turn, a field has what the later one gives, else what the earlier one does, else what it had. */
  lemma LaterUpdateWins(env: Env, db: Db, slug: string, p: UpdateParams, q: UpdateParams, nonce: string -> int,
                        nonce': string -> int)
    requires UpdateResult(env, db, slug, p, nonce).Success?
    requires UpdateResult(env, UpdateResult(env, db, slug, p, nonce).value, slug, q, nonce').Success?
    ensures var db' := UpdateResult(env, UpdateResult(env, db, slug, p, nonce).value, slug, q, nonce').value;
      var both := UpdateParams(if q.name.Some? then q.name else p.name,
                               if q.baseURL.Some? then q.baseURL else p.baseURL, map[]);
      slug in db'.instances && UpdatedBy(both, db.instances[slug], db'.instances[slug])
  {
    UpdateWrites(env, db, slug, p, nonce);
    UpdateWrites(env, UpdateResult(env, db, slug, p, nonce).value, slug, q, nonce');
  }

  /**
   An updated indexer is served with its new name and base URL and its old configuration overlaid by
   the incoming values, or rejected by the engine.
   */
  lemma UpdatedIsServed(env: Env, db: Db, slug: string, p: UpdateParams, nonce: string -> int)
    requires Sound(env.keyring) && UpdateResult(env, db, slug, p, nonce).Success? && Rebuilt(env, db, slug).Success?
    ensures var e := Rebuilt(env, db, slug).value;
      var inst := e.inst.(name := p.name.GetOr(e.inst.name), baseURL := p.baseURL.GetOr(e.inst.baseURL));
      var config := e.config + Overlay(p.settings);
      Rebuilt(env, UpdateResult(env, db, slug, p, nonce).value, slug)
      == if env.accepts(e.definition, inst.baseURL, config) then Success(Engine(inst, e.definition, config))
         else Failure(Rejected)
  {
    var inst := db.instances[slug];
    var w := WriterFor(env, inst.id, env.definitions[inst.definitionId], nonce);
    UpdateOverlaysReadableConfig(w, RowsOf(db, inst.id), p.settings);
  }

  /** Sending a client's view of an instance back unchanged leaves the engine built from it as it was. */
  lemma ShownBackKeepsEngine(env: Env, db: Db, slug: string, nonce: string -> int)
    requires Sound(env.keyring) && ValidDb(db) && slug in db.instances
    requires var p := UpdateParams(None, None, ShownValues(RowsOf(db, db.instances[slug].id)));
      UpdateResult(env, db, slug, p, nonce).Success?
    ensures var p := UpdateParams(None, None, ShownValues(RowsOf(db, db.instances[slug].id)));
      Rebuilt(env, UpdateResult(env, db, slug, p, nonce).value, slug) == Rebuilt(env, db, slug)
  {
    var inst := db.instances[slug];
    var w := WriterFor(env, inst.id, env.definitions[inst.definitionId], nonce);
    ShownBackChangesNothing(w, RowsOf(db, inst.id));
  }

  // ----- The settings a serial update leaves

  predicate NameLess(a: Setting, b: Setting) {
    StringLess(a.name, b.name)
  }

  lemma NameOrder()
    ensures StrictOrder(NameLess)
  {
    forall a
      ensures !NameLess(a, a)
    {
      StringIrreflexive(a.name);
    }
    forall a, b, c | NameLess(a, b) && NameLess(b, c)
      ensures NameLess(a, c)
    {
      StringTransitive(a.name, b.name, c.name);
    }
  }

  /** Sorting rows by name leaves them the same rows. */
  lemma SortedEnumerates(list: seq<Setting>)
    requires DistinctNames(list)
    ensures Enumerates(StableSort(list, NameLess), ByName(list)) && Ordered(StableSort(list, NameLess), NameLess)
  {
    NameOrder();
    forall i, j | 0 <= i < j < |list|
      ensures if NameLess(list[j], list[i]) then NameLess(list[j], list[i]) else NameLess(list[i], list[j])
    {
      StringTotal(list[i].name, list[j].name);
    }
    SortOrdered(list, NameLess, NameLess);
    SortKeeps(list, NameLess);
    OrderedNames(StableSort(list, NameLess));
    SameRows(StableSort(list, NameLess), list);
  }

  lemma OrderedNames(list: seq<Setting>)
    requires Ordered(list, NameLess)
    ensures DistinctNames(list)
  {
    forall i, j | 0 <= i < j < |list|
      ensures list[i].name != list[j].name
    {
      assert NameLess(list[i], list[j]);
      StringIrreflexive(list[i].name);
    }
  }

  lemma SameRows(a: seq<Setting>, b: seq<Setting>)
    requires DistinctNames(a) && DistinctNames(b) && multiset(a) == multiset(b)
    ensures ByName(a) == ByName(b)
  {
    forall n
      ensures n in ByName(a) ==> n in ByName(b) && ByName(b)[n] == ByName(a)[n]
      ensures n in ByName(b) ==> n in ByName(a)
    {
      if n in ByName(a) {
        RowOfBoth(a, b, n);
      }
      if n in ByName(b) {
        RowOfBoth(b, a, n);
      }
    }
  }

  lemma RowOfBoth(a: seq<Setting>, b: seq<Setting>, n: string)
    requires DistinctNames(a) && DistinctNames(b) && multiset(a) == multiset(b) && n in ByName(a)
    ensures n in ByName(b) && ByName(b)[n] == ByName(a)[n]
  {
    ByNameNames(a, n);
    var i :| 0 <= i < |a| && a[i].name == n && ByName(a)[n] == a[i];
    SameElements(a, b, a[i]);
    var j :| 0 <= j < |b| && b[j] == a[i];
    ByNameFinds(b, j);
  }

  /** `views` shows each row exactly once, by name. */
  ghost predicate ShowsInOrder(views: seq<SettingView>, rows: Rows) {
    exists list :: Enumerates(list, rows) && Ordered(list, NameLess) && ShowsEach(views, list)
  }

  predicate ShowsEach(views: seq<SettingView>, list: seq<Setting>) {
    |views| == |list| && forall i :: 0 <= i < |list| ==> Shows(views[i], list[i])
  }

  /** A view has the name of its row and says whether it is secret; only what is not secret is shown. */
  predicate Shows(view: SettingView, row: Setting) {
    && view.name == row.name && view.secret == row.isSecret
    && view.value == if row.isSecret then "<redacted>" else row.value
  }

  /** The values a client reads out of the views. */
  function ViewValues(views: seq<SettingView>): map<string, string> {
    if views == [] then map[] else
    var last := views[|views| - 1];
    ViewValues(views[..|views| - 1])[last.name := last.value]
  }

  lemma ShownLast(rows: Rows, s: Setting)
    ensures ShownValues(rows[s.name := s]) == ShownValues(rows)[s.name := ShownAs(s).value]
  {
  }

  /** They are the values the rows show. */
  lemma {:induction false} ViewsHoldShownValues(list: seq<Setting>, views: seq<SettingView>)
    requires ShowsEach(views, list)
    ensures ViewValues(views) == ShownValues(ByName(list))
  {
    if list != [] {
      ViewsHoldShownValues(list[..|list| - 1], views[..|views| - 1]);
      ShownLast(ByName(list[..|list| - 1]), list[|list| - 1]);
    }
  }

  /** Classifies and inserts each setting, in an arbitrary order. */
  method WriteSettings(w: Writer, values: map<string, string>) returns (r: Option<Rows>)
    requires Sound(w.keyring)
    ensures r == StoredRows(w, values)
  {
    var rows: Rows := map[];
    ghost var part: map<string, string> := map[];
    var todo := values.Keys;
    assert StoredRows(w, part).value == rows;
    VisitedAll(values);
    while todo != {}
      invariant todo <= values.Keys
      invariant part == Visited(values, todo)
      invariant StoredRows(w, part) == Some(rows)
      decreases todo
    {
      var name :| name in todo;
      VisitedStep(values, todo, name);
      todo := todo - {name};
      var s := ToStored(w, name, values[name]);
      if s.None? {
        return None;
      }
      StoredIsValid(w, name, values[name]);
      assert ValidSetting(s.value); // so the insert is not refused
      StoredStep(w, part, name, values[name]);
      part := part[name := values[name]];
      rows := rows[name := s.value];
    }
    r := Some(rows);
  }
}
