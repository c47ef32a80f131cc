/** The transactional store. */
module Store {
  // Configured indexers, and what building an engine reads of them. The SQL tables are two maps:
  // instances by slug (UNIQUE) and, for every instance id, its rows of settings. Each operation is one
  // statement or one transaction, which the single database connection runs without interleaving; a
  // failed transaction leaves the store as it was.

  import opened Wrappers
  import opened Settings

  /** One row of `indexer_instances`. */
  datatype Instance = Instance(id: int, slug: string, definitionId: string, name: string, baseURL: string,
                               enabled: bool)

  /** A tracker definition: its default name, the secrecy of each declared setting, and all the rest of it. */
  datatype Definition = Definition(name: string, fields: map<string, bool>, rest: string)

  /** What a build needs besides the store: definitions, key, classification and what the engine accepts. */
  datatype Env = Env(
    definitions: map<string, Definition>,
    keyring: Keyring,
    undeclared: string -> bool,
    accepts: (Definition, string, Config) -> bool)

  datatype Db = Db(instances: map<string, Instance>, settings: map<int, Rows>)

  /** What the store says about one slug. */
  datatype View = Absent | Present(inst: Instance, rows: Rows)

  datatype Engine = Engine(inst: Instance, definition: Definition, config: Config)

  datatype BuildError = NotFound | Disabled | UnknownDefinition | Undecryptable | Rejected

  datatype AddParams = AddParams(slug: string, definitionId: string, name: string, baseURL: string,
                                 settings: map<string, string>)

  datatype UpdateParams = UpdateParams(name: Option<string>, baseURL: Option<string>, settings: map<string, string>)

  datatype ManageError = Invalid | Conflict | Missing | Failed

  const EMPTY_DB := Db(map[], map[])

  ghost predicate ValidInstances(db: Db) {
    && (forall s :: s in db.instances ==> db.instances[s].slug == s && db.instances[s].id in db.settings)
    && (forall s, t :: s in db.instances && t in db.instances && s != t ==> db.instances[s].id != db.instances[t].id)
  }

  ghost predicate ValidSettings(db: Db) {
    forall id :: id in db.settings ==> ValidRows(db.settings[id]) && HasInstance(db, id)
  }

  /** Slugs and ids are unique, and every row belongs to an instance. */
  ghost predicate ValidDb(db: Db) {
    ValidInstances(db) && ValidSettings(db)
  }

  predicate HasInstance(db: Db, id: int) {
    exists s :: s in db.instances && db.instances[s].id == id
  }

  function RowsOf(db: Db, id: int): Rows {
    if id in db.settings then db.settings[id] else map[]
  }

  function ViewOf(db: Db, slug: string): View {
    if slug in db.instances then Present(db.instances[slug], RowsOf(db, db.instances[slug].id)) else Absent
  }

  function WriterFor(env: Env, id: int, definition: Definition, nonce: string -> int): Writer {
    Writer(id, env.keyring, nonce, Classifier(definition.fields, env.undeclared))
  }

  // ----- Building an engine: its instance, its definition, its settings

  /** The read of the instance. */
  function FindInstance(db: Db, slug: string): Result<Instance, BuildError> {
    if slug !in db.instances then Failure(NotFound)
    else if !db.instances[slug].enabled then Failure(Disabled)
    else Success(db.instances[slug])
  }

  /** What is built from an instance, its definition and its rows. */
  function Assemble(env: Env, inst: Instance, definition: Definition, rows: Rows): Result<Engine, BuildError> {
    match ConfigOf(env.keyring, inst.id, rows)
    case None => Failure(Undecryptable)
    case Some(cfg) =>
      if env.accepts(definition, inst.baseURL, cfg) then Success(Engine(inst, definition, cfg)) else Failure(Rejected)
  }

  /** The engine an uninterrupted build makes from the current store: what a registry without a cache would serve. */
  function Rebuilt(env: Env, db: Db, slug: string): Result<Engine, BuildError> {
    match FindInstance(db, slug)
    case Failure(e) => Failure(e)
    case Success(inst) =>
      if inst.definitionId !in env.definitions then Failure(UnknownDefinition)
      else Assemble(env, inst, env.definitions[inst.definitionId], RowsOf(db, inst.id))
  }

  /** What a build comes to, by what stands in its way. */
  lemma RebuiltIff(env: Env, db: Db, slug: string, e: Engine)
    ensures Rebuilt(env, db, slug) == Success(e) <==>
      && slug in db.instances && db.instances[slug] == e.inst && e.inst.enabled
      && e.inst.definitionId in env.definitions && env.definitions[e.inst.definitionId] == e.definition
      && ConfigOf(env.keyring, e.inst.id, RowsOf(db, e.inst.id)) == Some(e.config)
      && env.accepts(e.definition, e.inst.baseURL, e.config)
  {
  }

  // ----- Mutations

  predicate SlugChar(c: char) {
    'a' <= c <= 'z' || '0' <= c <= '9'
  }

  /** `^[a-z0-9][a-z0-9._-]{0,63}$` */
  predicate ValidSlug(slug: string) {
    && 1 <= |slug| <= 64
    && SlugChar(slug[0])
    && forall i :: 1 <= i < |slug| ==> SlugChar(slug[i]) || slug[i] in "._-"
  }

  function SlugOf(p: AddParams): string {
    OrDefault(p.slug, p.definitionId)
  }

  /** The checks made before the transaction; only the last one reads the store. */
  function CheckAdd(env: Env, db: Db, p: AddParams): Result<string, ManageError> {
    if !ValidSlug(SlugOf(p)) || p.definitionId !in env.definitions then Failure(Invalid)
    else if SlugOf(p) in db.instances then Failure(Conflict)
    else Success(SlugOf(p))
  }

  /** An add goes ahead with a well-formed, free slug and a known definition; only a taken slug is a conflict. */
  lemma CheckAddIff(env: Env, db: Db, p: AddParams)
    ensures var slug := if p.slug == "" then p.definitionId else p.slug;
      var fine := ValidSlug(slug) && p.definitionId in env.definitions;
      && (CheckAdd(env, db, p) == Success(slug) <==> fine && slug !in db.instances)
      && (CheckAdd(env, db, p) == Failure(Conflict) <==> fine && slug in db.instances)
      && (CheckAdd(env, db, p) == Failure(Invalid) <==> !fine)
  {
  }

  /** The transaction that inserts an instance under a new id, then its rows. */
  function AddTx(env: Env, db: Db, p: AddParams, definition: Definition, id: int, nonce: string -> int)
    : Result<Db, ManageError>
  {
    var slug := SlugOf(p);
    if slug in db.instances then Failure(Conflict) else
    var inst := Instance(id, slug, p.definitionId, OrDefault(p.name, definition.name), p.baseURL, true);
    match StoredRows(WriterFor(env, id, definition, nonce), p.settings)
    case None => Failure(Failed)
    case Some(rows) => Success(Db(db.instances[slug := inst], db.settings[id := rows]))
  }

  function UpdatedName(inst: Instance, p: UpdateParams): string {
    if p.name.Some? then p.name.value else inst.name
  }

  function UpdatedBaseURL(inst: Instance, p: UpdateParams): string {
    if p.baseURL.Some? then p.baseURL.value else inst.baseURL
  }

  /**
   The transaction that rewrites the instance with the given id and replaces its rows.  When no
   instance has the id any more, the row inserts violate the foreign key, unless there are none.
   */
  function UpdateTx(db: Db, id: int, name: string, baseURL: string, rows: Rows): Result<Db, ManageError> {
    if exists n :: n in rows && !ValidSetting(rows[n]) then Failure(Failed)
    else if !HasInstance(db, id) then (if rows == map[] then Success(db) else Failure(Failed))
    else
      var instances := map s | s in db.instances ::
        if db.instances[s].id == id then db.instances[s].(name := name, baseURL := baseURL) else db.instances[s];
      Success(Db(instances, db.settings[id := rows]))
  }

  function SetEnabledTx(db: Db, slug: string, enabled: bool): Result<Db, ManageError> {
    if slug !in db.instances then Failure(Missing)
    else Success(db.(instances := db.instances[slug := db.instances[slug].(enabled := enabled)]))
  }

  /** Deletes an instance; its rows cascade. */
  function DeleteTx(db: Db, slug: string): Result<Db, ManageError> {
    if slug !in db.instances then Failure(Missing)
    else Success(Db(db.instances - {slug}, db.settings - {db.instances[slug].id}))
  }

  // ----- What mutations keep and touch

  /** A build depends on the store only through what it says about the slug. */
  lemma RebuiltByView(env: Env, db: Db, db': Db, slug: string)
    requires ViewOf(db, slug) == ViewOf(db', slug)
    ensures FindInstance(db, slug) == FindInstance(db', slug)
    ensures Rebuilt(env, db, slug) == Rebuilt(env, db', slug)
  {
  }

  /** Every instance keeps its id. */
  ghost predicate SameIds(db: Db, db': Db) {
    forall s :: s in db.instances ==> s in db'.instances && db'.instances[s].id == db.instances[s].id
  }

  lemma HasInstanceStill(db: Db, db': Db, id: int)
    requires HasInstance(db, id) && SameIds(db, db')
    ensures HasInstance(db', id)
  {
    var s :| s in db.instances && db.instances[s].id == id;
    assert db'.instances[s].id == id;
  }

  /** New rows for one instance, and the ids all kept. */
  lemma SettingsStayValid(db: Db, db': Db, id: int, rows: Rows)
    requires ValidSettings(db) && SameIds(db, db') && db'.settings == db.settings[id := rows]
    requires ValidRows(rows) && HasInstance(db', id)
    ensures ValidSettings(db')
  {
    forall i | i in db'.settings
      ensures ValidRows(db'.settings[i]) && HasInstance(db', i)
    {
      if i != id {
        HasInstanceStill(db, db', i);
      }
    }
  }

  lemma AddKeepsValid(env: Env, db: Db, p: AddParams, definition: Definition, id: int, nonce: string -> int)
    requires Sound(env.keyring) && ValidDb(db) && id !in db.settings
    requires AddTx(env, db, p, definition, id, nonce).Success?
    ensures ValidDb(AddTx(env, db, p, definition, id, nonce).value)
    ensures forall t :: t != SlugOf(p) ==> ViewOf(AddTx(env, db, p, definition, id, nonce).value, t) == ViewOf(db, t)
  {
    FirstWrite(WriterFor(env, id, definition, nonce), p.settings);
    var db' := AddTx(env, db, p, definition, id, nonce).value;
    AddedInstance(db, db', SlugOf(p), db'.instances[SlugOf(p)], db'.settings[id]);
  }

  lemma AddedInstance(db: Db, db': Db, slug: string, inst: Instance, rows: Rows)
    requires ValidInstances(db) && ValidSettings(db) && slug !in db.instances && inst.slug == slug
    requires inst.id !in db.settings
    requires db' == Db(db.instances[slug := inst], db.settings[inst.id := rows]) && ValidRows(rows)
    ensures ValidInstances(db') && ValidSettings(db')
    ensures forall t :: t != slug ==> ViewOf(db', t) == ViewOf(db, t)
  {
    assert db'.instances[slug].id == inst.id;
    SettingsStayValid(db, db', inst.id, rows);
  }

  lemma UpdateKeepsValid(db: Db, id: int, name: string, baseURL: string, rows: Rows)
    requires ValidDb(db) && (forall n :: n in rows ==> rows[n].name == n)
    requires UpdateTx(db, id, name, baseURL, rows).Success?
    ensures ValidDb(UpdateTx(db, id, name, baseURL, rows).value)
    ensures forall t :: t in db.instances && db.instances[t].id != id ==>
      ViewOf(UpdateTx(db, id, name, baseURL, rows).value, t) == ViewOf(db, t)
  {
    if HasInstance(db, id) {
      UpdatedInstance(db, UpdateTx(db, id, name, baseURL, rows).value, id, name, baseURL, rows);
    }
  }

  lemma UpdatedInstance(db: Db, db': Db, id: int, name: string, baseURL: string, rows: Rows)
    requires ValidInstances(db) && ValidSettings(db) && ValidRows(rows) && HasInstance(db, id)
    requires UpdateTx(db, id, name, baseURL, rows) == Success(db')
    ensures ValidInstances(db') && ValidSettings(db')
    ensures forall t :: t in db.instances && db.instances[t].id != id ==> ViewOf(db', t) == ViewOf(db, t)
  {
    HasInstanceStill(db, db', id);
    SettingsStayValid(db, db', id, rows);
  }

  lemma SetEnabledKeepsValid(db: Db, slug: string, enabled: bool)
    requires ValidDb(db) && SetEnabledTx(db, slug, enabled).Success?
    ensures ValidDb(SetEnabledTx(db, slug, enabled).value)
    ensures forall t :: t != slug ==> ViewOf(SetEnabledTx(db, slug, enabled).value, t) == ViewOf(db, t)
  {
    var db' := SetEnabledTx(db, slug, enabled).value;
    forall i | i in db'.settings
      ensures HasInstance(db', i)
    {
      HasInstanceStill(db, db', i);
    }
  }

  lemma DeleteKeepsValid(db: Db, slug: string)
    requires ValidDb(db) && DeleteTx(db, slug).Success?
    ensures ValidDb(DeleteTx(db, slug).value)
    ensures forall t :: t != slug ==> ViewOf(DeleteTx(db, slug).value, t) == ViewOf(db, t)
  {
    var db' := DeleteTx(db, slug).value;
    forall i | i in db'.settings
      ensures HasInstance(db', i)
    {
      var s :| s in db.instances && db.instances[s].id == i;
      assert db'.instances[s].id == i;
    }
  }

  // ----- What a mutation makes of its own slug

  /** An added indexer is served with exactly the settings it was added with, or rejected by the engine. */
  lemma AddedIsServed(env: Env, db: Db, p: AddParams, id: int, nonce: string -> int)
    requires Sound(env.keyring) && CheckAdd(env, db, p).Success?
    requires AddTx(env, db, p, env.definitions[p.definitionId], id, nonce).Success?
    ensures var definition := env.definitions[p.definitionId];
      var slug := if p.slug == "" then p.definitionId else p.slug;
      var inst := Instance(id, slug, p.definitionId, if p.name == "" then definition.name else p.name, p.baseURL, true);
      Rebuilt(env, AddTx(env, db, p, definition, id, nonce).value, slug)
      == if env.accepts(definition, p.baseURL, p.settings) then Success(Engine(inst, definition, p.settings))
         else Failure(Rejected)
  {
    FirstWrite(WriterFor(env, id, env.definitions[p.definitionId], nonce), p.settings);
  }

  /** A disabled indexer is not served; enabling it again serves it as if it had never been disabled. */
  lemma DisabledIsNotServed(env: Env, db: Db, slug: string)
    requires slug in db.instances
    ensures var off := SetEnabledTx(db, slug, false).value;
      && Rebuilt(env, off, slug) == Failure(Disabled)
      && SetEnabledTx(off, slug, true) == SetEnabledTx(db, slug, true)
      && (db.instances[slug].enabled ==> SetEnabledTx(off, slug, true) == Success(db))
  {
    var off := SetEnabledTx(db, slug, false).value;
    var on := SetEnabledTx(db, slug, true).value;
    assert SetEnabledTx(off, slug, true).value.instances == on.instances;
    if db.instances[slug].enabled {
      assert on.instances == db.instances;
    }
  }

  /** A deleted indexer is not found, and its slug may be added again. */
  lemma DeletedIsGone(env: Env, db: Db, p: AddParams)
    requires SlugOf(p) in db.instances && ValidSlug(SlugOf(p)) && p.definitionId in env.definitions
    ensures var gone := DeleteTx(db, SlugOf(p)).value;
      Rebuilt(env, gone, SlugOf(p)) == Failure(NotFound) && CheckAdd(env, gone, p).Success?
  {
  }
}
