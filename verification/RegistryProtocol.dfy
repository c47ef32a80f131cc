/** The cache, interleaved. */
module RegistryProtocol {
  // Every interleaving of resolves and mutations. A thread's steps are the points where the code holds
  // the cache lock, loads a definition, or runs one database statement or transaction. A resolve looks
  // the cache up, reads the instance, loads its definition, reads its settings, and installs what it
  // built unless something is cached by then. A mutation commits and only afterwards invalidates. A
  // definition may be edited at any time, and nothing is invalidated then.
  //
  // History variables make staleness visible: `changes` counts, for every slug, the steps that changed
  // what a build of it reads, and each cache entry remembers the count at its builder's first read
  // (`seen`), whether the settings of its last read were still those of its slug (`own`), the count at
  // its install (`at`), and whether an edit or a mutation addressed to another slug has since changed
  // what its slug's builds read (`foreign`). No step reads them.

  import opened Wrappers
  import opened Settings
  import opened Store

  /** An engine together with the identity of the object that holds it. */
  datatype Adapter = Adapter(obj: nat, engine: Engine)

  datatype Entry = Entry(adapter: Adapter, seen: nat, own: bool, at: nat, foreign: bool)

  datatype Pc =
    | Idle
    | Missed(slug: string)
    | Found(slug: string, inst: Instance, seen: nat)
    | Loaded(slug: string, inst: Instance, definition: Definition, seen: nat)
    | Built(slug: string, adapter: Adapter, seen: nat, own: bool)
    | Checking(p: AddParams, definition: Definition)
    | Adding(p: AddParams, definition: Definition)
    | Updating(slug: string, inst: Instance, u: UpdateParams)
    | Merging(slug: string, inst: Instance, u: UpdateParams, existing: Rows)
    | Merged(slug: string, id: int, name: string, baseURL: string, rows: Rows)
    | Committed(slug: string)

  datatype State = State(
    db: Db,
    definitions: map<string, Definition>,
    cache: map<string, Entry>,
    pcs: map<nat, Pc>,
    nextObj: nat,
    changes: map<string, nat>)

  datatype Label =
    | Lookup(t: nat, slug: string)
    | ReadInstance(t: nat)
    | LoadDefinition(t: nat)
    | ReadSettings(t: nat)
    | Install(t: nat)
    | BeginAdd(t: nat, p: AddParams)
    | CheckSlug(t: nat)
    | CommitAdd(t: nat, id: int, nonce: string -> int)
    | BeginUpdate(t: nat, slug: string, u: UpdateParams)
    | ReadExisting(t: nat)
    | LoadAndMerge(t: nat, nonce: string -> int)
    | CommitUpdate(t: nat)
    | CommitEnabled(t: nat, slug: string, enabled: bool)
    | CommitDelete(t: nat, slug: string)
    | Invalidate(t: nat)
    | Abort(t: nat)
    | Edit(t: nat, name: string, definition: Option<Definition>)

  /** What a step does; a thread that is not at the step's point is blocked. */
  datatype Effect =
    | Blocked
    | Stays
    | Goes(pc: Pc)
    | Builds(slug: string, engine: Engine, seen: nat, own: bool)
    | Commits(slug: string, db: Db)
    | Edits(definitions: map<string, Definition>)
    | Caches(slug: string, entry: Entry)
    | Drops(slug: string)

  function Init(env: Env): State {
    State(EMPTY_DB, env.definitions, map[], map[], 0, map[])
  }

  /** The environment with the definitions of a state. */
  function At(env: Env, s: State): Env {
    env.(definitions := s.definitions)
  }

  function PcOf(s: State, t: nat): Pc {
    if t in s.pcs then s.pcs[t] else Idle
  }

  function Count(s: State, slug: string): nat {
    if slug in s.changes then s.changes[slug] else 0
  }

  /** What a build of a slug reads. */
  datatype Basis = Basis(view: View, definition: Option<Definition>)

  function BasisOf(db: Db, definitions: map<string, Definition>, slug: string): Basis {
    Basis(ViewOf(db, slug),
          if slug in db.instances && db.instances[slug].definitionId in definitions
          then Some(definitions[db.instances[slug].definitionId]) else None)
  }

  predicate Changed(s: State, db: Db, definitions: map<string, Definition>, slug: string) {
    BasisOf(s.db, s.definitions, slug) != BasisOf(db, definitions, slug)
  }

  /** The slug's instance has this row id. */
  predicate Owns(db: Db, slug: string, id: int) {
    slug in db.instances && db.instances[slug].id == id
  }

  function CommitOr(slug: string, r: Result<Db, ManageError>): Effect {
    match r
    case Failure(_) => Goes(Idle)
    case Success(db) => Commits(slug, db)
  }

  /** The last read of a build. */
  function Reads(env: Env, db: Db, slug: string, inst: Instance, definition: Definition, seen: nat): Effect {
    match Assemble(env, inst, definition, RowsOf(db, inst.id))
    case Failure(_) => Goes(Idle)
    case Success(engine) => Builds(slug, engine, seen, Owns(db, slug, inst.id))
  }

  /** The second locked section of a resolve: what is cached by then is kept. */
  function Installs(s: State, pc: Pc): Effect
    requires pc.Built?
  {
    if pc.slug in s.cache then Goes(Idle)
    else Caches(pc.slug, Entry(pc.adapter, pc.seen, pc.own, Count(s, pc.slug), false))
  }

  /** The merge of an update with the rows it has read. */
  function Merges(env: Env, slug: string, inst: Instance, u: UpdateParams, existing: Rows,
                  nonce: string -> int): Effect {
    if inst.definitionId !in env.definitions then Goes(Idle) else
    match MergedRows(WriterFor(env, inst.id, env.definitions[inst.definitionId], nonce), existing, u.settings)
    case None => Goes(Idle)
    case Some(rows) => Goes(Merged(slug, inst.id, UpdatedName(inst, u), UpdatedBaseURL(inst, u), rows))
  }

  function EffectOf(env: Env, s: State, l: Label): Effect {
    var pc := PcOf(s, l.t);
    match l
    case Lookup(t, slug) =>
      if pc != Idle then Blocked else if slug in s.cache then Stays else Goes(Missed(slug))
    case ReadInstance(t) =>
      if !pc.Missed? then Blocked else
      (match FindInstance(s.db, pc.slug)
       case Failure(_) => Goes(Idle)
       case Success(inst) => Goes(Found(pc.slug, inst, Count(s, pc.slug))))
    case LoadDefinition(t) =>
      if !pc.Found? then Blocked else
      if pc.inst.definitionId !in s.definitions then Goes(Idle) else
      Goes(Loaded(pc.slug, pc.inst, s.definitions[pc.inst.definitionId], pc.seen))
    case ReadSettings(t) =>
      if !pc.Loaded? then Blocked else Reads(env, s.db, pc.slug, pc.inst, pc.definition, pc.seen)
    case Install(t) =>
      if !pc.Built? then Blocked else Installs(s, pc)
    case BeginAdd(t, p) =>
      if pc != Idle then Blocked else
      if !ValidSlug(SlugOf(p)) || p.definitionId !in s.definitions then Stays else
      Goes(Checking(p, s.definitions[p.definitionId]))
    case CheckSlug(t) =>
      if !pc.Checking? then Blocked else
      if SlugOf(pc.p) in s.db.instances then Goes(Idle) else Goes(Adding(pc.p, pc.definition))
    case CommitAdd(t, id, nonce) =>
      if !pc.Adding? || id in s.db.settings then Blocked else
      CommitOr(SlugOf(pc.p), AddTx(env, s.db, pc.p, pc.definition, id, nonce))
    case BeginUpdate(t, slug, u) =>
      if pc != Idle then Blocked else if slug !in s.db.instances then Stays else
      Goes(Updating(slug, s.db.instances[slug], u))
    case ReadExisting(t) =>
      if !pc.Updating? then Blocked else Goes(Merging(pc.slug, pc.inst, pc.u, RowsOf(s.db, pc.inst.id)))
    case LoadAndMerge(t, nonce) =>
      if !pc.Merging? then Blocked else Merges(At(env, s), pc.slug, pc.inst, pc.u, pc.existing, nonce)
    case CommitUpdate(t) =>
      if !pc.Merged? then Blocked else CommitOr(pc.slug, UpdateTx(s.db, pc.id, pc.name, pc.baseURL, pc.rows))
    case CommitEnabled(t, slug, enabled) =>
      if pc != Idle then Blocked else CommitOr(slug, SetEnabledTx(s.db, slug, enabled))
    case CommitDelete(t, slug) =>
      if pc != Idle then Blocked else CommitOr(slug, DeleteTx(s.db, slug))
    case Invalidate(t) =>
      if !pc.Committed? then Blocked else Drops(pc.slug)
    case Abort(t) =>
      if pc.Idle? || pc.Committed? then Blocked else Goes(Idle)
    case Edit(t, name, definition) =>
      if pc != Idle then Blocked else
      Edits(if definition.Some? then s.definitions[name := definition.value] else s.definitions - {name})
  }

  function Goto(s: State, t: nat, pc: Pc): State {
    s.(pcs := s.pcs[t := pc])
  }

  function CountsAfter(s: State, db: Db, definitions: map<string, Definition>): map<string, nat> {
    map x | x in s.changes.Keys + s.db.instances.Keys + db.instances.Keys ::
      Count(s, x) + if Changed(s, db, definitions, x) then 1 else 0
  }

  /** Entries whose slug is changed, and not by a mutation that will invalidate it, are marked. */
  function CacheAfter(s: State, addressed: Option<string>, db: Db,
                      definitions: map<string, Definition>): map<string, Entry> {
    map x | x in s.cache ::
      if addressed != Some(x) && Changed(s, db, definitions, x) then s.cache[x].(foreign := true) else s.cache[x]
  }

  /** The store, the definitions and a thread's point change. */
  function Change(s: State, t: nat, addressed: Option<string>, db: Db, definitions: map<string, Definition>): State {
    State(db, definitions, CacheAfter(s, addressed, db, definitions),
          s.pcs[t := if addressed.Some? then Committed(addressed.value) else Idle],
          s.nextObj, CountsAfter(s, db, definitions))
  }

  function Apply(s: State, t: nat, e: Effect): State {
    match e
    case Blocked => s
    case Stays => s
    case Goes(pc) => Goto(s, t, pc)
    case Builds(slug, engine, seen, own) =>
      Goto(s, t, Built(slug, Adapter(s.nextObj, engine), seen, own)).(nextObj := s.nextObj + 1)
    case Commits(slug, db) => Change(s, t, Some(slug), db, s.definitions)
    case Edits(definitions) => Change(s, t, None, s.db, definitions)
    case Caches(slug, entry) => Goto(s, t, Idle).(cache := s.cache[slug := entry])
    case Drops(slug) => Goto(s, t, Idle).(cache := s.cache - {slug})
  }

  /** The state after a step; none when the step's thread is not at that point. */
  function Next(env: Env, s: State, l: Label): Option<State> {
    var e := EffectOf(env, s, l);
    if e.Blocked? then None else Some(Apply(s, l.t, e))
  }

  function Run(env: Env, s: State, labels: seq<Label>): Option<State> {
    if labels == [] then Some(s) else
    match Run(env, s, labels[..|labels| - 1])
    case None => None
    case Some(before) => Next(env, before, labels[|labels| - 1])
  }

  ghost predicate Reachable(env: Env, s: State) {
    exists labels :: Run(env, Init(env), labels) == Some(s)
  }

  /** No mutation of the slug is between its commit and its invalidate. */
  ghost predicate Settled(s: State, slug: string) {
    forall t :: PcOf(s, t) != Committed(slug)
  }

  // ----- The invariant

  ghost predicate ReadIsFresh(s: State, slug: string, inst: Instance, seen: nat) {
    seen <= Count(s, slug) && (seen == Count(s, slug) ==> FindInstance(s.db, slug) == Success(inst))
  }

  ghost predicate LoadIsFresh(s: State, slug: string, inst: Instance, definition: Definition, seen: nat) {
    && ReadIsFresh(s, slug, inst, seen)
    && (seen == Count(s, slug) ==> BasisOf(s.db, s.definitions, slug).definition == Some(definition))
  }

  ghost predicate BuildIsFresh(env: Env, s: State, slug: string, engine: Engine, seen: nat, own: bool) {
    && seen <= Count(s, slug)
    && (seen == Count(s, slug) ==> Rebuilt(At(env, s), s.db, slug) == Success(engine) && own)
  }

  ghost predicate PcOk(env: Env, s: State, pc: Pc) {
    match pc
    case Found(slug, inst, seen) => ReadIsFresh(s, slug, inst, seen)
    case Loaded(slug, inst, definition, seen) => LoadIsFresh(s, slug, inst, definition, seen)
    case Built(slug, adapter, seen, own) =>
      BuildIsFresh(env, s, slug, adapter.engine, seen, own) && adapter.obj < s.nextObj
    case Merging(_, _, _, existing) => ValidRows(existing)
    case Merged(_, _, _, _, rows) => forall n :: n in rows ==> rows[n].name == n
    case _ => true
  }

  ghost predicate EntryOk(env: Env, s: State, slug: string, e: Entry) {
    && BuildIsFresh(env, s, slug, e.adapter.engine, e.seen, e.own)
    && e.adapter.obj < s.nextObj
    && e.seen <= e.at <= Count(s, slug)
    && (e.seen == e.at ==> e.own)
    && (e.foreign ==> e.at < Count(s, slug))
    && (e.at < Count(s, slug) ==> e.foreign || !Settled(s, slug))
  }

  ghost predicate PcsOk(env: Env, s: State) {
    forall t :: PcOk(env, s, PcOf(s, t))
  }

  ghost predicate CacheOk(env: Env, s: State) {
    forall slug :: slug in s.cache ==> EntryOk(env, s, slug, s.cache[slug])
  }

  ghost predicate Inv(env: Env, s: State) {
    ValidDb(s.db) && PcsOk(env, s) && CacheOk(env, s)
  }

  // ----- What steps do keeps the invariant

  /** What a step may do. */
  ghost predicate EffectOk(env: Env, s: State, t: nat, e: Effect) {
    match e
    case Blocked => true
    case Stays => true
    case Goes(pc) => PcOk(env, s, pc) && !PcOf(s, t).Committed?
    case Builds(slug, engine, seen, own) => BuildIsFresh(env, s, slug, engine, seen, own) && !PcOf(s, t).Committed?
    case Commits(slug, db) => ValidDb(db) && !PcOf(s, t).Committed?
    case Edits(definitions) => !PcOf(s, t).Committed?
    case Caches(slug, entry) =>
      EntryOk(env, s, slug, entry) && entry.at == Count(s, slug) && !PcOf(s, t).Committed?
    case Drops(slug) => PcOf(s, t) == Committed(slug)
  }

  /** The same store, counts and objects, or more objects. */
  predicate SameFacts(s: State, s': State) {
    s'.db == s.db && s'.definitions == s.definitions && s'.changes == s.changes && s'.nextObj >= s.nextObj
  }

  ghost predicate OthersKept(s: State, s': State, t: nat) {
    forall u :: u != t ==> PcOf(s', u) == PcOf(s, u)
  }

  lemma PcOkCarries(env: Env, s: State, s': State, pc: Pc)
    requires PcOk(env, s, pc) && SameFacts(s, s')
    ensures PcOk(env, s', pc)
  {
  }

  lemma PcsCarry(env: Env, s: State, s': State, t: nat)
    requires PcsOk(env, s) && SameFacts(s, s') && OthersKept(s, s', t) && PcOk(env, s', PcOf(s', t))
    ensures PcsOk(env, s')
  {
    forall u
      ensures PcOk(env, s', PcOf(s', u))
    {
      if u != t {
        PcOkCarries(env, s, s', PcOf(s, u));
      }
    }
  }

  lemma StillPending(s: State, s': State, t: nat, slug: string)
    requires OthersKept(s, s', t) && !Settled(s, slug) && PcOf(s, t) != Committed(slug)
    ensures !Settled(s', slug)
  {
    var u :| PcOf(s, u) == Committed(slug);
    assert PcOf(s', u) == Committed(slug);
  }

  lemma EntryCarries(env: Env, s: State, s': State, t: nat, slug: string, e: Entry)
    requires EntryOk(env, s, slug, e) && SameFacts(s, s') && OthersKept(s, s', t) && PcOf(s, t) != Committed(slug)
    ensures EntryOk(env, s', slug, e)
  {
    if !Settled(s, slug) {
      StillPending(s, s', t, slug);
    }
  }

  lemma ChangeCounts(s: State, t: nat, addressed: Option<string>, db: Db, definitions: map<string, Definition>,
                     x: string)
    ensures Count(Change(s, t, addressed, db, definitions), x)
         == Count(s, x) + if Changed(s, db, definitions, x) then 1 else 0
  {
  }

  /** A build depends on the store and the definitions only through what it reads. */
  lemma RebuiltByBasis(env: Env, s: State, s': State, slug: string)
    requires BasisOf(s.db, s.definitions, slug) == BasisOf(s'.db, s'.definitions, slug)
    ensures FindInstance(s.db, slug) == FindInstance(s'.db, slug)
    ensures Rebuilt(At(env, s), s.db, slug) == Rebuilt(At(env, s'), s'.db, slug)
  {
  }

  /** A build seen to be fresh before a change is fresh after it or no longer counted as such. */
  lemma ChangeAgesBuild(env: Env, s: State, s': State, t: nat, addressed: Option<string>, x: string, engine: Engine,
                        seen: nat, own: bool)
    requires BuildIsFresh(env, s, x, engine, seen, own) && s' == Change(s, t, addressed, s'.db, s'.definitions)
    ensures BuildIsFresh(env, s', x, engine, seen, own)
  {
    ChangeCounts(s, t, addressed, s'.db, s'.definitions, x);
    if !Changed(s, s'.db, s'.definitions, x) {
      RebuiltByBasis(env, s, s', x);
    }
  }

  lemma ChangeAgesRead(env: Env, s: State, s': State, t: nat, addressed: Option<string>, x: string, inst: Instance,
                       seen: nat)
    requires ReadIsFresh(s, x, inst, seen) && s' == Change(s, t, addressed, s'.db, s'.definitions)
    ensures ReadIsFresh(s', x, inst, seen)
  {
    ChangeCounts(s, t, addressed, s'.db, s'.definitions, x);
    if !Changed(s, s'.db, s'.definitions, x) {
      RebuiltByBasis(env, s, s', x);
    }
  }

  lemma ChangeAgesLoad(env: Env, s: State, s': State, t: nat, addressed: Option<string>, x: string, inst: Instance,
                       definition: Definition, seen: nat)
    requires LoadIsFresh(s, x, inst, definition, seen) && s' == Change(s, t, addressed, s'.db, s'.definitions)
    ensures LoadIsFresh(s', x, inst, definition, seen)
  {
    ChangeAgesRead(env, s, s', t, addressed, x, inst, seen);
    ChangeCounts(s, t, addressed, s'.db, s'.definitions, x);
  }

  lemma ChangeKeepsPc(env: Env, s: State, s': State, t: nat, addressed: Option<string>, pc: Pc)
    requires PcOk(env, s, pc) && s' == Change(s, t, addressed, s'.db, s'.definitions)
    ensures PcOk(env, s', pc)
  {
    match pc
    case Found(x, inst, seen) => ChangeAgesRead(env, s, s', t, addressed, x, inst, seen);
    case Loaded(x, inst, definition, seen) => ChangeAgesLoad(env, s, s', t, addressed, x, inst, definition, seen);
    case Built(x, adapter, seen, own) => ChangeAgesBuild(env, s, s', t, addressed, x, adapter.engine, seen, own);
    case _ =>
  }

  /** The entry a change leaves for a slug that was cached. */
  lemma ChangeMarks(s: State, s': State, t: nat, addressed: Option<string>, x: string)
    requires x in s.cache && s' == Change(s, t, addressed, s'.db, s'.definitions)
    ensures x in s'.cache && s'.nextObj == s.nextObj
    ensures s'.cache[x] == if addressed != Some(x) && Changed(s, s'.db, s'.definitions, x)
                           then s.cache[x].(foreign := true) else s.cache[x]
  {
  }

  lemma ChangePcs(s: State, s': State, t: nat, addressed: Option<string>)
    requires s' == Change(s, t, addressed, s'.db, s'.definitions)
    ensures OthersKept(s, s', t) && PcOf(s', t) == if addressed.Some? then Committed(addressed.value) else Idle
  {
  }

  lemma ChangeKeepsEntry(env: Env, s: State, s': State, t: nat, addressed: Option<string>, x: string)
    requires x in s.cache && EntryOk(env, s, x, s.cache[x]) && !PcOf(s, t).Committed?
    requires s' == Change(s, t, addressed, s'.db, s'.definitions)
    ensures x in s'.cache && EntryOk(env, s', x, s'.cache[x])
  {
    ChangeMarks(s, s', t, addressed, x);
    ChangePcs(s, s', t, addressed);
    ChangedEntry(env, s, s', t, addressed, x, s.cache[x], s'.cache[x]);
  }

  lemma ChangedEntry(env: Env, s: State, s': State, t: nat, addressed: Option<string>, x: string, e: Entry, e': Entry)
    requires EntryOk(env, s, x, e) && !PcOf(s, t).Committed? && s' == Change(s, t, addressed, s'.db, s'.definitions)
    requires OthersKept(s, s', t) && s'.nextObj == s.nextObj
    requires PcOf(s', t) == if addressed.Some? then Committed(addressed.value) else Idle
    requires e' == if addressed != Some(x) && Changed(s, s'.db, s'.definitions, x) then e.(foreign := true) else e
    ensures EntryOk(env, s', x, e')
  {
    ChangeCounts(s, t, addressed, s'.db, s'.definitions, x);
    ChangeAgesBuild(env, s, s', t, addressed, x, e.adapter.engine, e.seen, e.own);
    if !Settled(s, x) {
      StillPending(s, s', t, x);
    }
  }

  /** A change ages every reader, builder and entry of the slugs it changed, and leaves the others as they were. */
  lemma ChangeKeepsInv(env: Env, s: State, s': State, t: nat, addressed: Option<string>)
    requires Inv(env, s) && ValidDb(s'.db) && !PcOf(s, t).Committed?
    requires s' == Change(s, t, addressed, s'.db, s'.definitions)
    ensures Inv(env, s')
  {
    forall x | x in s'.cache
      ensures EntryOk(env, s', x, s'.cache[x])
    {
      ChangeKeepsEntry(env, s, s', t, addressed, x);
    }
    forall u
      ensures PcOk(env, s', PcOf(s', u))
    {
      ChangeKeepsPc(env, s, s', t, addressed, PcOf(s, u));
    }
  }

  /** A step of `t` that leaves the store, the counts, the cache and every other thread alone. */
  lemma QuietStepKeepsInv(env: Env, s: State, s': State, t: nat)
    requires Inv(env, s) && SameFacts(s, s') && OthersKept(s, s', t) && s'.cache == s.cache
    requires PcOk(env, s', PcOf(s', t)) && !PcOf(s, t).Committed?
    ensures Inv(env, s')
  {
    PcsCarry(env, s, s', t);
    forall x | x in s'.cache
      ensures EntryOk(env, s', x, s'.cache[x])
    {
      EntryCarries(env, s, s', t, x, s.cache[x]);
    }
  }

  lemma InstallKeepsInv(env: Env, s: State, s': State, t: nat, slug: string, entry: Entry)
    requires Inv(env, s) && EntryOk(env, s, slug, entry) && !PcOf(s, t).Committed?
    requires SameFacts(s, s') && OthersKept(s, s', t) && PcOf(s', t) == Idle && s'.cache == s.cache[slug := entry]
    ensures Inv(env, s')
  {
    PcsCarry(env, s, s', t);
    forall x | x in s'.cache
      ensures EntryOk(env, s', x, s'.cache[x])
    {
      EntryCarries(env, s, s', t, x, s'.cache[x]);
    }
  }

  /** Dropping a slug's entry settles that slug alone. */
  lemma DropKeepsInv(env: Env, s: State, s': State, t: nat, slug: string)
    requires Inv(env, s) && PcOf(s, t) == Committed(slug)
    requires SameFacts(s, s') && OthersKept(s, s', t) && PcOf(s', t) == Idle && s'.cache == s.cache - {slug}
    ensures Inv(env, s')
  {
    PcsCarry(env, s, s', t);
    forall x | x in s'.cache
      ensures EntryOk(env, s', x, s'.cache[x])
    {
      EntryCarries(env, s, s', t, x, s.cache[x]);
    }
  }

  lemma LocalStepKeepsInv(env: Env, s: State, t: nat, e: Effect)
    requires Inv(env, s) && EffectOk(env, s, t, e) && (e.Goes? || e.Builds?)
    ensures Inv(env, Apply(s, t, e))
  {
    if e.Goes? {
      PcOkCarries(env, s, Goto(s, t, e.pc), e.pc);
    }
    QuietStepKeepsInv(env, s, Apply(s, t, e), t);
  }

  lemma ApplyKeepsInv(env: Env, s: State, t: nat, e: Effect)
    requires Inv(env, s) && EffectOk(env, s, t, e)
    ensures Inv(env, Apply(s, t, e))
  {
    match e
    case Blocked =>
    case Stays =>
    case Goes(pc) => LocalStepKeepsInv(env, s, t, e);
    case Builds(slug, engine, seen, own) => LocalStepKeepsInv(env, s, t, e);
    case Commits(slug, db) => ChangeKeepsInv(env, s, Apply(s, t, e), t, Some(slug));
    case Edits(definitions) => ChangeKeepsInv(env, s, Apply(s, t, e), t, None);
    case Caches(slug, entry) => InstallKeepsInv(env, s, Apply(s, t, e), t, slug, entry);
    case Drops(slug) => DropKeepsInv(env, s, Apply(s, t, e), t, slug);
  }

  // ----- What each step does

  lemma LoadsOk(env: Env, s: State, t: nat)
    requires Inv(env, s) && PcOf(s, t).Found?
    ensures EffectOk(env, s, t, EffectOf(env, s, LoadDefinition(t)))
  {
    assert PcOk(env, s, PcOf(s, t));
  }

  lemma ReadsOk(env: Env, s: State, t: nat)
    requires Inv(env, s) && PcOf(s, t).Loaded?
    ensures var pc := PcOf(s, t); EffectOk(env, s, t, Reads(env, s.db, pc.slug, pc.inst, pc.definition, pc.seen))
  {
    assert PcOk(env, s, PcOf(s, t));
  }

  lemma InstallsOk(env: Env, s: State, t: nat)
    requires Inv(env, s) && PcOf(s, t).Built?
    ensures EffectOk(env, s, t, Installs(s, PcOf(s, t)))
  {
    assert PcOk(env, s, PcOf(s, t));
  }

  lemma MergesOk(env: Env, s: State, t: nat, nonce: string -> int)
    requires Sound(env.keyring) && Inv(env, s) && PcOf(s, t).Merging?
    ensures var pc := PcOf(s, t); EffectOk(env, s, t, Merges(At(env, s), pc.slug, pc.inst, pc.u, pc.existing, nonce))
  {
    var pc := PcOf(s, t);
    assert PcOk(env, s, pc);
    if pc.inst.definitionId in s.definitions {
      var w := WriterFor(At(env, s), pc.inst.id, s.definitions[pc.inst.definitionId], nonce);
      if MergedRows(w, pc.existing, pc.u.settings).Some? {
        UpdateKeepsRowsValid(w, pc.existing, pc.u.settings);
      }
    }
  }

  lemma AddOk(env: Env, s: State, t: nat, id: int, nonce: string -> int)
    requires Sound(env.keyring) && Inv(env, s) && PcOf(s, t).Adding? && id !in s.db.settings
    ensures var pc := PcOf(s, t);
      EffectOk(env, s, t, CommitOr(SlugOf(pc.p), AddTx(env, s.db, pc.p, pc.definition, id, nonce)))
  {
    var pc := PcOf(s, t);
    if AddTx(env, s.db, pc.p, pc.definition, id, nonce).Success? {
      AddKeepsValid(env, s.db, pc.p, pc.definition, id, nonce);
    }
  }

  lemma UpdateOk(env: Env, s: State, t: nat)
    requires Inv(env, s) && PcOf(s, t).Merged?
    ensures var pc := PcOf(s, t);
      EffectOk(env, s, t, CommitOr(pc.slug, UpdateTx(s.db, pc.id, pc.name, pc.baseURL, pc.rows)))
  {
    var pc := PcOf(s, t);
    assert PcOk(env, s, pc);
    if UpdateTx(s.db, pc.id, pc.name, pc.baseURL, pc.rows).Success? {
      UpdateKeepsValid(s.db, pc.id, pc.name, pc.baseURL, pc.rows);
    }
  }

  lemma EnabledOk(env: Env, s: State, t: nat, slug: string, enabled: bool)
    requires Inv(env, s) && PcOf(s, t) == Idle
    ensures EffectOk(env, s, t, CommitOr(slug, SetEnabledTx(s.db, slug, enabled)))
  {
    if SetEnabledTx(s.db, slug, enabled).Success? {
      SetEnabledKeepsValid(s.db, slug, enabled);
    }
  }

  lemma DeleteOk(env: Env, s: State, t: nat, slug: string)
    requires Inv(env, s) && PcOf(s, t) == Idle
    ensures EffectOk(env, s, t, CommitOr(slug, DeleteTx(s.db, slug)))
  {
    if DeleteTx(s.db, slug).Success? {
      DeleteKeepsValid(s.db, slug);
    }
  }

  predicate IsCommit(l: Label) {
    l.CommitAdd? || l.CommitUpdate? || l.CommitEnabled? || l.CommitDelete?
  }

  lemma CommitStepIsOk(env: Env, s: State, l: Label)
    requires Sound(env.keyring) && Inv(env, s) && IsCommit(l) && !EffectOf(env, s, l).Blocked?
    ensures EffectOk(env, s, l.t, EffectOf(env, s, l))
  {
    match l
    case CommitAdd(t, id, nonce) => AddOk(env, s, t, id, nonce);
    case CommitUpdate(t) => UpdateOk(env, s, t);
    case CommitEnabled(t, slug, enabled) => EnabledOk(env, s, t, slug, enabled);
    case CommitDelete(t, slug) => DeleteOk(env, s, t, slug);
  }

  lemma OtherStepIsOk(env: Env, s: State, l: Label)
    requires Sound(env.keyring) && Inv(env, s) && !IsCommit(l) && !EffectOf(env, s, l).Blocked?
    ensures EffectOk(env, s, l.t, EffectOf(env, s, l))
  {
    match l
    case ReadSettings(t) => ReadsOk(env, s, t);
    case Install(t) => InstallsOk(env, s, t);
    case LoadAndMerge(t, nonce) => MergesOk(env, s, t, nonce);
    case LoadDefinition(t) => LoadsOk(env, s, t);
    case _ =>
  }

  /** Every step does what it may. */
  lemma StepIsOk(env: Env, s: State, l: Label)
    requires Sound(env.keyring) && Inv(env, s) && !EffectOf(env, s, l).Blocked?
    ensures EffectOk(env, s, l.t, EffectOf(env, s, l))
  {
    if IsCommit(l) {
      CommitStepIsOk(env, s, l);
    } else {
      OtherStepIsOk(env, s, l);
    }
  }

  lemma StepKeepsInv(env: Env, s: State, l: Label)
    requires Sound(env.keyring) && Inv(env, s) && Next(env, s, l).Some?
    ensures Inv(env, Next(env, s, l).value)
  {
    StepIsOk(env, s, l);
    ApplyKeepsInv(env, s, l.t, EffectOf(env, s, l));
  }

  lemma {:induction false} RunKeepsInv(env: Env, s: State, labels: seq<Label>)
    requires Sound(env.keyring) && Inv(env, s) && Run(env, s, labels).Some?
    ensures Inv(env, Run(env, s, labels).value)
  {
    if labels != [] {
      var init := labels[..|labels| - 1];
      RunKeepsInv(env, s, init);
      StepKeepsInv(env, Run(env, s, init).value, labels[|labels| - 1]);
    }
  }

  // ----- Coherence

  /**
   In every reachable state, once no mutation of a slug is pending, a cached engine is up to date
   (its builder has seen every step that changed what its builds read) exactly when no such step fell
   between its builder's first read and its install, and neither an edit of its definition nor a
   mutation addressed to another slug has changed that since.
   */
  lemma CachedIsCurrentIff(env: Env, s: State, slug: string)
    requires Sound(env.keyring) && Reachable(env, s)
    requires slug in s.cache && Settled(s, slug)
    ensures var e := s.cache[slug];
      e.seen == Count(s, slug) <==> e.seen == e.at && !e.foreign
  {
    var labels :| Run(env, Init(env), labels) == Some(s);
    RunKeepsInv(env, Init(env), labels);
    assert EntryOk(env, s, slug, s.cache[slug]);
  }

  /** An up-to-date engine is the one a build from the current store and definitions makes. */
  lemma CurrentIsFresh(env: Env, s: State, slug: string)
    requires Sound(env.keyring) && Reachable(env, s)
    requires slug in s.cache && Settled(s, slug)
    requires s.cache[slug].seen == s.cache[slug].at && !s.cache[slug].foreign
    ensures Rebuilt(At(env, s), s.db, slug) == Success(s.cache[slug].adapter.engine)
  {
    var labels :| Run(env, Init(env), labels) == Some(s);
    RunKeepsInv(env, Init(env), labels);
    assert EntryOk(env, s, slug, s.cache[slug]);
  }

  /** A step changed what a build of the slug reads. */
  predicate Changes(s: State, s': State, slug: string) {
    Changed(s, s'.db, s'.definitions, slug)
  }

  /** How many steps of a run did. */
  function ChangesIn(env: Env, s: State, labels: seq<Label>, slug: string): nat
    requires Run(env, s, labels).Some?
  {
    if labels == [] then 0 else
    var init := labels[..|labels| - 1];
    ChangesIn(env, s, init, slug) + if Changes(Run(env, s, init).value, Run(env, s, labels).value, slug) then 1 else 0
  }

  /** The history variable counts exactly those steps. */
  lemma {:induction false} CountsChanges(env: Env, s: State, labels: seq<Label>, slug: string)
    requires Run(env, s, labels).Some?
    ensures Count(Run(env, s, labels).value, slug) == Count(s, slug) + ChangesIn(env, s, labels, slug)
  {
    if labels != [] {
      var init := labels[..|labels| - 1];
      CountsChanges(env, s, init, slug);
      StepCounts(env, Run(env, s, init).value, labels[|labels| - 1], slug);
    }
  }

  lemma ApplyCounts(s: State, t: nat, e: Effect, slug: string)
    ensures Count(Apply(s, t, e), slug) == Count(s, slug) + if Changes(s, Apply(s, t, e), slug) then 1 else 0
  {
    match e
    case Commits(x, db) => ChangeCounts(s, t, Some(x), db, s.definitions, slug);
    case Edits(definitions) => ChangeCounts(s, t, None, s.db, definitions, slug);
    case _ =>
  }

  lemma StepCounts(env: Env, s: State, l: Label, slug: string)
    requires Next(env, s, l).Some?
    ensures Count(Next(env, s, l).value, slug)
         == Count(s, slug) + if Changes(s, Next(env, s, l).value, slug) then 1 else 0
  {
    ApplyCounts(s, l.t, EffectOf(env, s, l), slug);
  }

  // ----- First to cache wins

  /** The adapter a successful resolve of `slug` returns at a step, if this step is its last. */
  function Returned(env: Env, s: State, l: Label, slug: string): Option<Adapter> {
    match l
    case Lookup(_, x) =>
      if PcOf(s, l.t) == Idle && x == slug && slug in s.cache then Some(s.cache[slug].adapter) else None
    case Install(_) =>
      var pc := PcOf(s, l.t);
      if !pc.Built? || pc.slug != slug then None
      else if slug in s.cache then Some(s.cache[slug].adapter)
      else Some(pc.adapter)
    case _ => None
  }

  predicate InvalidatesSlug(s: State, l: Label, slug: string) {
    l.Invalidate? && PcOf(s, l.t) == Committed(slug)
  }

  /** No step of the run drops the slug from the cache. */
  ghost predicate NeverInvalidated(env: Env, s: State, labels: seq<Label>, slug: string) {
    forall k, before :: 0 <= k < |labels| && Run(env, s, labels[..k]) == Some(before) ==>
      !InvalidatesSlug(before, labels[k], slug)
  }

  lemma ApplyKeepsCached(s: State, t: nat, e: Effect, slug: string)
    requires slug in s.cache && (e.Caches? ==> e.slug !in s.cache) && (e.Drops? ==> e.slug != slug)
    ensures slug in Apply(s, t, e).cache && Apply(s, t, e).cache[slug].adapter == s.cache[slug].adapter
  {
    match e
    case Commits(x, db) => ChangeMarks(s, Apply(s, t, e), t, Some(x), slug);
    case Edits(definitions) => ChangeMarks(s, Apply(s, t, e), t, None, slug);
    case _ =>
  }

  lemma CacheEffects(env: Env, s: State, l: Label)
    ensures EffectOf(env, s, l).Caches? ==> EffectOf(env, s, l).slug !in s.cache
    ensures EffectOf(env, s, l).Drops? ==> l.Invalidate? && PcOf(s, l.t) == Committed(EffectOf(env, s, l).slug)
  {
  }

  lemma StepKeepsCached(env: Env, s: State, l: Label, slug: string)
    requires Next(env, s, l).Some? && !InvalidatesSlug(s, l, slug) && slug in s.cache
    ensures var s' := Next(env, s, l).value; slug in s'.cache && s'.cache[slug].adapter == s.cache[slug].adapter
  {
    CacheEffects(env, s, l);
    ApplyKeepsCached(s, l.t, EffectOf(env, s, l), slug);
  }

  lemma {:induction false} CachedStays(env: Env, s: State, labels: seq<Label>, slug: string)
    requires Run(env, s, labels).Some? && NeverInvalidated(env, s, labels, slug)
    requires slug in s.cache
    ensures var s' := Run(env, s, labels).value;
      slug in s'.cache && s'.cache[slug].adapter == s.cache[slug].adapter
  {
    if labels != [] {
      var init := labels[..|labels| - 1];
      forall k, before | 0 <= k < |init| && Run(env, s, init[..k]) == Some(before)
        ensures !InvalidatesSlug(before, init[k], slug) {
        assert init[..k] == labels[..k];
      }
      CachedStays(env, s, init, slug);
      StepKeepsCached(env, Run(env, s, init).value, labels[|labels| - 1], slug);
    }
  }

  /**
   However many builds race: a resolve that returns at the first step and one that returns after
   any run without an invalidate of the slug return the same adapter object.
   */
  lemma FirstToCacheWins(env: Env, s: State, first: Label, between: seq<Label>, last: Label, slug: string)
    requires Next(env, s, first).Some?
    requires Run(env, Next(env, s, first).value, between).Some?
    requires NeverInvalidated(env, Next(env, s, first).value, between, slug)
    requires Returned(env, s, first, slug).Some?
    requires Returned(env, Run(env, Next(env, s, first).value, between).value, last, slug).Some?
    ensures Returned(env, s, first, slug)
         == Returned(env, Run(env, Next(env, s, first).value, between).value, last, slug)
  {
    ReturnedIsCached(env, s, first, slug);
    CachedStays(env, Next(env, s, first).value, between, slug);
    CachedIsReturned(env, Run(env, Next(env, s, first).value, between).value, last, slug);
  }

  lemma ReturnedIsCached(env: Env, s: State, l: Label, slug: string)
    requires Next(env, s, l).Some? && Returned(env, s, l, slug).Some?
    ensures var s' := Next(env, s, l).value;
      slug in s'.cache && Returned(env, s, l, slug) == Some(s'.cache[slug].adapter)
  {
  }

  lemma CachedIsReturned(env: Env, s: State, l: Label, slug: string)
    requires Returned(env, s, l, slug).Some? && slug in s.cache
    ensures Returned(env, s, l, slug) == Some(s.cache[slug].adapter)
  {
  }

  /** Two builds never share an object, so returning the same object means one build served both. */
  lemma BuildsAreNewObjects(env: Env, s: State, l: Label)
    requires Sound(env.keyring) && Reachable(env, s) && l.ReadSettings?
    requires Next(env, s, l).Some? && PcOf(Next(env, s, l).value, l.t).Built?
    ensures var obj := PcOf(Next(env, s, l).value, l.t).adapter.obj;
      && (forall slug :: slug in s.cache ==> s.cache[slug].adapter.obj != obj)
      && (forall t :: PcOf(s, t).Built? ==> PcOf(s, t).adapter.obj != obj)
  {
    var labels :| Run(env, Init(env), labels) == Some(s);
    RunKeepsInv(env, Init(env), labels);
    ObjectsAreOld(env, s);
    BuildTakesNext(env, s, l);
  }

  lemma ObjectsAreOld(env: Env, s: State)
    requires Inv(env, s)
    ensures forall slug :: slug in s.cache ==> s.cache[slug].adapter.obj < s.nextObj
    ensures forall t :: PcOf(s, t).Built? ==> PcOf(s, t).adapter.obj < s.nextObj
  {
    forall slug | slug in s.cache
      ensures s.cache[slug].adapter.obj < s.nextObj
    {
      assert EntryOk(env, s, slug, s.cache[slug]);
    }
    forall t | PcOf(s, t).Built?
      ensures PcOf(s, t).adapter.obj < s.nextObj
    {
      assert PcOk(env, s, PcOf(s, t));
    }
  }

  lemma BuildTakesNext(env: Env, s: State, l: Label)
    requires l.ReadSettings? && Next(env, s, l).Some? && PcOf(Next(env, s, l).value, l.t).Built?
    ensures PcOf(Next(env, s, l).value, l.t).adapter.obj == s.nextObj
  {
    var pc := PcOf(s, l.t);
    assert EffectOf(env, s, l) == Reads(env, s.db, pc.slug, pc.inst, pc.definition, pc.seen);
  }

  // ----- Whose settings a build reads

  /**
   A build reads the settings of the row id that its first read gave. They are its own slug's as
   stored at that moment exactly when the slug still has that id; else they are another instance's that
   has it by then, or there are none.
   */
  lemma BuildReads(env: Env, s: State, l: Label)
    requires Sound(env.keyring) && Reachable(env, s) && l.ReadSettings? && EffectOf(env, s, l).Builds?
    ensures var pc, e := PcOf(s, l.t), EffectOf(env, s, l);
      && e.slug == pc.slug && (e.own <==> Owns(s.db, pc.slug, pc.inst.id))
      && (forall owner :: Owns(s.db, owner, pc.inst.id) ==>
            ConfigOf(env.keyring, s.db.instances[owner].id, ViewOf(s.db, owner).rows) == Some(e.engine.config))
      && ((forall owner :: !Owns(s.db, owner, pc.inst.id)) ==> e.engine.config == map[])
  {
    var labels :| Run(env, Init(env), labels) == Some(s);
    RunKeepsInv(env, Init(env), labels);
    var pc := PcOf(s, l.t);
    assert EffectOf(env, s, l) == Reads(env, s.db, pc.slug, pc.inst, pc.definition, pc.seen);
    if forall owner :: !Owns(s.db, owner, pc.inst.id) {
      NoRowsWithoutOwner(s.db, pc.inst.id);
      assert ConfigOf(env.keyring, pc.inst.id, map[]).value == map[];
    }
  }

  lemma NoRowsWithoutOwner(db: Db, id: int)
    requires ValidDb(db) && forall owner :: !Owns(db, owner, id)
    ensures RowsOf(db, id) == map[]
  {
    if id in db.settings {
      var s :| s in db.instances && db.instances[s].id == id;
      assert Owns(db, s, id);
    }
  }

  /** With no change between its builder's first read and its install, an engine has its own slug's settings. */
  lemma CachedIsOwn(env: Env, s: State, slug: string)
    requires Sound(env.keyring) && Reachable(env, s)
    requires slug in s.cache && s.cache[slug].seen == s.cache[slug].at
    ensures s.cache[slug].own
  {
    var labels :| Run(env, Init(env), labels) == Some(s);
    RunKeepsInv(env, Init(env), labels);
    assert EntryOk(env, s, slug, s.cache[slug]);
  }

  // ----- The conditions are needed: four reachable runs

  const PLAIN_KEYRING := Keyring("plaintext", (id, name, plain, nonce) => Some(plain), (id, name, blob) => Some(blob))

  const SMALL_ENV := Env(map["d" := Definition("D", map[], "")], PLAIN_KEYRING, name => false, (d, url, cfg) => true)

  const NO_NONCE: string -> int := name => 0

  function D(): Definition {
    Definition("D", map[], "")
  }

  function AddWith(slug: string, settings: map<string, string>): AddParams {
    AddParams(slug, "d", "", "", settings)
  }

  lemma RunExtends(env: Env, s: State, labels: seq<Label>, l: Label)
    requires Run(env, s, labels).Some?
    ensures Run(env, s, labels + [l]) == Next(env, Run(env, s, labels).value, l)
  {
    assert (labels + [l])[..|labels|] == labels;
  }

  lemma ReachableNext(env: Env, s: State, l: Label)
    requires Reachable(env, s) && Next(env, s, l).Some?
    ensures Reachable(env, Next(env, s, l).value)
  {
    var labels :| Run(env, Init(env), labels) == Some(s);
    RunExtends(env, Init(env), labels, l);
  }

  /** A state the small registry can reach without an edit of its definition. */
  ghost predicate Reached(s: State) {
    Reachable(SMALL_ENV, s) && s.definitions == map["d" := D()]
  }

  lemma Extend(s: State, l: Label, e: Effect) returns (s': State)
    requires Reached(s) && EffectOf(SMALL_ENV, s, l) == e && !e.Blocked? && !e.Edits?
    ensures Reached(s') && s' == Apply(s, l.t, e)
  {
    ReachableNext(SMALL_ENV, s, l);
    s' := Apply(s, l.t, e);
  }

  /** The first state: an empty store, and nobody under way. */
  lemma Start() returns (s: State)
    ensures Sound(SMALL_ENV.keyring) && Reached(s) && s == Init(SMALL_ENV)
  {
    s := Init(SMALL_ENV);
    assert Run(SMALL_ENV, s, []) == Some(s);
  }

  function PlainInstance(id: int, slug: string): Instance {
    Instance(id, slug, "d", "D", "", true)
  }

  function PlainRow(name: string, val: string): Setting {
    Setting(name, val, "", "", false)
  }

  function PlainRows(settings: map<string, string>): Rows {
    map n | n in settings :: PlainRow(n, settings[n])
  }

  /** Without secrets, settings are stored as they are. */
  lemma StoredPlainly(env: Env, id: int, settings: map<string, string>)
    requires env.undeclared == SMALL_ENV.undeclared
    ensures StoredRows(WriterFor(env, id, D(), NO_NONCE), settings) == Some(PlainRows(settings))
  {
    var w := WriterFor(env, id, D(), NO_NONCE);
    assert forall n :: n in settings ==> ToStored(w, n, settings[n]) == Some(PlainRow(n, settings[n]));
    assert StoredRows(w, settings).value == PlainRows(settings);
  }

  /** A store with an instance more. */
  function With(db: Db, id: int, slug: string, settings: map<string, string>): Db {
    Db(db.instances[slug := PlainInstance(id, slug)], db.settings[id := PlainRows(settings)])
  }

  /** A thread goes on, and the others are where they were. */
  ghost predicate Moved(s: State, s': State, t: nat, pc: Pc) {
    PcOf(s', t) == pc && OthersKept(s, s', t)
  }

  /** A mutation was committed and invalidated. */
  ghost predicate Done(s: State, s': State, t: nat, slug: string, db: Db) {
    && Reached(s') && s'.db == db && Moved(s, s', t, Idle)
    && Count(s', slug) == Count(s, slug) + (if Changed(s, db, s.definitions, slug) then 1 else 0)
  }

  /** A committed mutation drops its slug from the cache. */
  lemma InvalidateOne(s: State, t: nat, slug: string) returns (s': State)
    requires Reached(s) && PcOf(s, t) == Committed(slug)
    ensures Reached(s') && s'.db == s.db && s'.changes == s.changes && s'.cache == s.cache - {slug}
    ensures Moved(s, s', t, Idle)
  {
    s' := Extend(s, Invalidate(t), Drops(slug));
  }

  /** After a commit the thread invalidates. */
  lemma CommitAndInvalidate(s: State, l: Label, slug: string, db: Db) returns (s': State)
    requires Reached(s) && EffectOf(SMALL_ENV, s, l) == Commits(slug, db)
    ensures Done(s, s', l.t, slug, db) && s'.cache == CacheAfter(s, Some(slug), db, s.definitions) - {slug}
  {
    var s1 := Extend(s, l, Commits(slug, db));
    ChangePcs(s, s1, l.t, Some(slug));
    ChangeCounts(s, l.t, Some(slug), db, s.definitions, slug);
    s' := InvalidateOne(s1, l.t, slug);
  }

  /** Adds an indexer. */
  lemma AddOne(s: State, id: int, slug: string, settings: map<string, string>) returns (s': State)
    requires Reached(s) && ValidSlug(slug) && slug !in s.db.instances && id !in s.db.settings
    requires s.cache == map[] && PcOf(s, 1) == Idle
    ensures Done(s, s', 1, slug, With(s.db, id, slug, settings)) && s'.cache == map[]
  {
    var s1 := CheckToAdd(s, AddWith(slug, settings));
    AddsPlainly(s1.db, id, slug, settings);
    s' := CommitAndInvalidate(s1, CommitAdd(1, id, NO_NONCE), slug, With(s.db, id, slug, settings));
  }

  lemma CheckToAdd(s: State, p: AddParams) returns (s': State)
    requires Reached(s) && ValidSlug(SlugOf(p)) && SlugOf(p) !in s.db.instances && p.definitionId == "d"
    requires PcOf(s, 1) == Idle
    ensures Reached(s') && Moved(s, s', 1, Adding(p, D())) && s' == s.(pcs := s'.pcs)
  {
    var s1 := LoadToAdd(s, p);
    s' := Extend(s1, CheckSlug(1), Goes(Adding(p, D())));
  }

  lemma LoadToAdd(s: State, p: AddParams) returns (s': State)
    requires Reached(s) && ValidSlug(SlugOf(p)) && p.definitionId == "d" && PcOf(s, 1) == Idle
    ensures Reached(s') && Moved(s, s', 1, Checking(p, D())) && s' == s.(pcs := s'.pcs)
  {
    s' := Extend(s, BeginAdd(1, p), Goes(Checking(p, D())));
  }

  lemma AddsPlainly(db: Db, id: int, slug: string, settings: map<string, string>)
    requires slug !in db.instances && slug != ""
    ensures AddTx(SMALL_ENV, db, AddWith(slug, settings), D(), id, NO_NONCE) == Success(With(db, id, slug, settings))
  {
    StoredPlainly(SMALL_ENV, id, settings);
  }

  /** A resolve misses the cache, reads the instance and loads its definition. */
  lemma MissAndLoad(s: State, t: nat, slug: string) returns (s': State)
    requires Reached(s) && PcOf(s, t) == Idle && slug !in s.cache && slug in s.db.instances
    requires s.db.instances[slug].enabled && s.db.instances[slug].definitionId == "d"
    ensures Reached(s') && Moved(s, s', t, Loaded(slug, s.db.instances[slug], D(), Count(s, slug)))
    ensures s' == s.(pcs := s'.pcs)
  {
    var s1 := MissAndFind(s, t, slug);
    s' := Extend(s1, LoadDefinition(t), Goes(Loaded(slug, s.db.instances[slug], D(), Count(s, slug))));
  }

  lemma MissAndFind(s: State, t: nat, slug: string) returns (s': State)
    requires Reached(s) && PcOf(s, t) == Idle && slug !in s.cache && slug in s.db.instances
    requires s.db.instances[slug].enabled && s.db.instances[slug].definitionId == "d"
    ensures Reached(s') && Moved(s, s', t, Found(slug, s.db.instances[slug], Count(s, slug))) && s' == s.(pcs := s'.pcs)
  {
    var s1 := Extend(s, Lookup(t, slug), Goes(Missed(slug)));
    s' := Extend(s1, ReadInstance(t), Goes(Found(slug, s.db.instances[slug], Count(s, slug))));
  }

  /** The configuration of rows that hold no secret. */
  lemma PlainConfig(id: int, settings: map<string, string>)
    ensures ConfigOf(PLAIN_KEYRING, id, PlainRows(settings)) == Some(settings)
  {
    var rows := PlainRows(settings);
    assert forall n :: n in rows ==> Plain(PLAIN_KEYRING, id, rows[n]) == Some(settings[n]);
    assert ConfigOf(PLAIN_KEYRING, id, rows).value == settings;
  }

  lemma ReadEffect(s: State, t: nat, slug: string, inst: Instance, seen: nat, settings: map<string, string>)
    requires PcOf(s, t) == Loaded(slug, inst, D(), seen) && RowsOf(s.db, inst.id) == PlainRows(settings)
    ensures EffectOf(SMALL_ENV, s, ReadSettings(t))
         == Builds(slug, Engine(inst, D(), settings), seen, Owns(s.db, slug, inst.id))
  {
    PlainConfig(inst.id, settings);
    assert EffectOf(SMALL_ENV, s, ReadSettings(t)) == Reads(SMALL_ENV, s.db, slug, inst, D(), seen);
  }

  /** The last read and the install, with nothing cached yet. */
  lemma FinishBuild(s: State, t: nat, slug: string, inst: Instance, seen: nat, settings: map<string, string>)
    returns (s': State)
    requires Reached(s) && PcOf(s, t) == Loaded(slug, inst, D(), seen) && s.cache == map[]
    requires RowsOf(s.db, inst.id) == PlainRows(settings)
    ensures Reached(s') && s'.db == s.db && s'.changes == s.changes && Moved(s, s', t, Idle)
    ensures s'.cache == map[slug := Entry(Adapter(s.nextObj, Engine(inst, D(), settings)), seen,
                                          Owns(s.db, slug, inst.id), Count(s, slug), false)]
  {
    var engine := Engine(inst, D(), settings);
    ReadEffect(s, t, slug, inst, seen, settings);
    var s1 := Extend(s, ReadSettings(t), Builds(slug, engine, seen, Owns(s.db, slug, inst.id)));
    s' := InstallOne(s1, t, slug, Adapter(s.nextObj, engine), seen, Owns(s.db, slug, inst.id));
  }

  lemma InstallOne(s: State, t: nat, slug: string, adapter: Adapter, seen: nat, own: bool) returns (s': State)
    requires Reached(s) && PcOf(s, t) == Built(slug, adapter, seen, own) && s.cache == map[]
    ensures Reached(s') && s'.db == s.db && s'.changes == s.changes && Moved(s, s', t, Idle)
    ensures s'.cache == map[slug := Entry(adapter, seen, own, Count(s, slug), false)]
  {
    s' := Extend(s, Install(t), Caches(slug, Entry(adapter, seen, own, Count(s, slug), false)));
  }

  function DisabledIn(db: Db, slug: string): Db
    requires slug in db.instances
  {
    db.(instances := db.instances[slug := db.instances[slug].(enabled := false)])
  }

  /**
   A builder reads the enabled instance; the instance is then disabled and invalidated; the
   builder installs all the same.  Nothing is pending, yet a disabled indexer is served.
   */
  lemma StaleWithoutCleanBuild() returns (s: State)
    ensures Sound(SMALL_ENV.keyring) && Reachable(SMALL_ENV, s) && Settled(s, "a")
    ensures "a" in s.cache && !s.cache["a"].foreign && s.cache["a"].seen != s.cache["a"].at
    ensures Rebuilt(At(SMALL_ENV, s), s.db, "a") == Failure(Disabled)
  {
    var s0 := Start();
    var added := AddOne(s0, 1, "a", map[]);
    var loaded := MissAndLoad(added, 2, "a");
    assert PcOf(loaded, 1) == Idle;
    var disabled := CommitAndInvalidate(loaded, CommitEnabled(1, "a", false), "a", DisabledIn(loaded.db, "a"));
    assert PcOf(disabled, 2) == PcOf(loaded, 2);
    s := FinishBuild(disabled, 2, "a", PlainInstance(1, "a"), Count(added, "a"), map[]);
    forall t
      ensures PcOf(s, t) == Idle
    {
      assert t != 1 && t != 2 ==> PcOf(s, t) == PcOf(s0, t);
    }
  }

  /** Deletes an indexer. */
  lemma DeleteOne(s: State, slug: string) returns (s': State)
    requires Reached(s) && s.cache == map[] && PcOf(s, 1) == Idle && slug in s.db.instances
    ensures Done(s, s', 1, slug, Db(s.db.instances - {slug}, s.db.settings - {s.db.instances[slug].id}))
    ensures s'.cache == map[]
  {
    s' := CommitAndInvalidate(s, CommitDelete(1, slug), slug,
                              Db(s.db.instances - {slug}, s.db.settings - {s.db.instances[slug].id}));
  }

  /** The only indexer of a store, deleted. */
  lemma DeleteOnly(s: State, id: int, slug: string, settings: map<string, string>) returns (s': State)
    requires Reached(s) && s.cache == map[] && PcOf(s, 1) == Idle && s.db == With(EMPTY_DB, id, slug, settings)
    ensures Done(s, s', 1, slug, EMPTY_DB) && s'.cache == map[]
  {
    s' := DeleteOne(s, slug);
    assert s'.db.instances == map[] && s'.db.settings == map[];
  }

  const PAUSED_PC := Merged("a", 1, "x", "", map[])

  lemma PauseUpdate(s: State) returns (s': State)
    requires Reached(s) && s.cache == map[] && PcOf(s, 2) == Idle && s.db == With(EMPTY_DB, 1, "a", map[])
    ensures Reached(s') && s'.db == s.db && s'.cache == map[] && Moved(s, s', 2, PAUSED_PC)
  {
    var u := UpdateParams(Some("x"), None, map[]);
    var s1 := ReadForUpdate(s, 2, "a", u);
    MergesNothing(At(SMALL_ENV, s1), u);
    s' := MergeForUpdate(s1, 2, PAUSED_PC);
  }

  /** An update's merge. */
  lemma MergeForUpdate(s: State, t: nat, pc: Pc) returns (s': State)
    requires Reached(s) && PcOf(s, t).Merging?
    requires var at := PcOf(s, t); Merges(At(SMALL_ENV, s), at.slug, at.inst, at.u, at.existing, NO_NONCE) == Goes(pc)
    ensures Reached(s') && s'.db == s.db && s'.cache == s.cache && Moved(s, s', t, pc)
  {
    s' := Extend(s, LoadAndMerge(t, NO_NONCE), Goes(pc));
  }

  /** An update's two reads. */
  lemma ReadForUpdate(s: State, t: nat, slug: string, u: UpdateParams) returns (s': State)
    requires Reached(s) && PcOf(s, t) == Idle && slug in s.db.instances
    ensures Reached(s') && s'.db == s.db && s'.cache == s.cache
    ensures Moved(s, s', t, Merging(slug, s.db.instances[slug], u, RowsOf(s.db, s.db.instances[slug].id)))
  {
    var inst := s.db.instances[slug];
    var s1 := Extend(s, BeginUpdate(t, slug, u), Goes(Updating(slug, inst, u)));
    s' := Extend(s1, ReadExisting(t), Goes(Merging(slug, inst, u, RowsOf(s.db, inst.id))));
  }

  lemma MergesNothing(env: Env, u: UpdateParams)
    requires env == SMALL_ENV.(definitions := map["d" := D()]) && u == UpdateParams(Some("x"), None, map[])
    ensures Merges(env, "a", PlainInstance(1, "a"), u, PlainRows(map[]), NO_NONCE) == Goes(PAUSED_PC)
  {
    StoredPlainly(env, 1, map[]);
    assert Overlay(map[]) == map[] && PlainRows(map[]) == map[];
  }

  /** The one instance of a store, renamed. */
  function Renamed(db: Db): Db
    requires "b" in db.instances
  {
    db.(instances := db.instances["b" := db.instances["b"].(name := "x")])
  }

  lemma PausedUpdateRenames(db: Db)
    requires db == With(EMPTY_DB, 1, "b", map[])
    ensures UpdateTx(db, 1, "x", "", map[]) == Success(Renamed(db))
  {
    assert db.instances["b"].id == 1;
    assert HasInstance(db, 1);
    var none: Rows := map[];
    assert PlainRows(map[]) == none && db.settings[1 := none] == db.settings;
    assert UpdateTx(db, 1, "x", "", none).value.instances == Renamed(db).instances;
  }

  lemma RenameEffect(s: State)
    requires PcOf(s, 2) == PAUSED_PC && s.db == With(EMPTY_DB, 1, "b", map[])
    ensures EffectOf(SMALL_ENV, s, CommitUpdate(2)) == Commits("a", Renamed(s.db))
    ensures Changed(s, Renamed(s.db), s.definitions, "b")
  {
    PausedUpdateRenames(s.db);
    assert Renamed(s.db).instances["b"].name != s.db.instances["b"].name;
  }

  lemma ResumeUpdate(s: State) returns (s': State)
    requires Reached(s) && PcOf(s, 2) == PAUSED_PC && s.db == With(EMPTY_DB, 1, "b", map[])
    requires "b" in s.cache && "a" !in s.cache
    ensures Done(s, s', 2, "a", Renamed(s.db)) && "b" in s'.cache && s'.cache["b"] == s.cache["b"].(foreign := true)
  {
    RenameEffect(s);
    s' := CommitAndInvalidate(s, CommitUpdate(2), "a", Renamed(s.db));
  }

  /**
   An update of "a" pauses between its reads and its transaction; "a" is deleted and "b" added, and
   the database gives "b" the id that "a" had: one more than the largest in use, and none is.  The
   paused transaction then renames "b" and only invalidates "a": the engine cached for "b" was built
   cleanly and is stale.
   */
  lemma StaleByForeignCommit() returns (s: State)
    ensures Sound(SMALL_ENV.keyring) && Reachable(SMALL_ENV, s) && Settled(s, "b")
    ensures "b" in s.cache && s.cache["b"].foreign && s.cache["b"].seen == s.cache["b"].at
    ensures Rebuilt(At(SMALL_ENV, s), s.db, "b").Success?
    ensures Rebuilt(At(SMALL_ENV, s), s.db, "b") != Success(s.cache["b"].adapter.engine)
  {
    var s0 := Start();
    var added := AddOne(s0, 1, "a", map[]);
    var paused := PauseUpdate(added);
    assert PcOf(paused, 1) == Idle;
    var deleted := DeleteOnly(paused, 1, "a", map[]);
    var replaced := AddOne(deleted, 1, "b", map[]);
    assert PcOf(replaced, 2) == PAUSED_PC && PcOf(replaced, 3) == Idle;
    var loaded := MissAndLoad(replaced, 3, "b");
    var cached := FinishBuild(loaded, 3, "b", PlainInstance(1, "b"), Count(replaced, "b"), map[]);
    assert PcOf(cached, 2) == PAUSED_PC;
    s := ResumeUpdate(cached);
    RenamedIsServed(At(SMALL_ENV, s), s.db);
    forall t
      ensures PcOf(s, t) == Idle
    {
      assert t != 1 && t != 2 && t != 3 ==> PcOf(s, t) == PcOf(s0, t);
    }
  }

  lemma RenamedIsServed(env: Env, db: Db)
    requires env == SMALL_ENV.(definitions := map["d" := D()]) && db == Renamed(With(EMPTY_DB, 1, "b", map[]))
    ensures Rebuilt(env, db, "b") == Success(Engine(PlainInstance(1, "b").(name := "x"), D(), map[]))
  {
    PlainConfig(1, map[]);
  }

  /**
   "a" is cached, and its definition is edited: nothing is invalidated, and "a" is served with the
   definition it was built with.
   */
  lemma StaleByEdit() returns (s: State)
    ensures Sound(SMALL_ENV.keyring) && Reachable(SMALL_ENV, s) && Settled(s, "a")
    ensures "a" in s.cache && s.cache["a"].foreign && s.cache["a"].seen == s.cache["a"].at
    ensures Rebuilt(At(SMALL_ENV, s), s.db, "a").Success?
    ensures Rebuilt(At(SMALL_ENV, s), s.db, "a").value.definition != s.cache["a"].adapter.engine.definition
  {
    var s0 := Start();
    var added := AddOne(s0, 1, "a", map[]);
    var loaded := MissAndLoad(added, 2, "a");
    var cached := FinishBuild(loaded, 2, "a", PlainInstance(1, "a"), Count(added, "a"), map[]);
    s := EditOne(cached, "a", Definition("D", map[], "links"));
    PlainConfig(1, map[]);
    forall t
      ensures PcOf(s, t) == Idle
    {
      assert t != 1 && t != 2 ==> PcOf(s, t) == PcOf(s0, t);
    }
  }

  lemma EditOne(s: State, slug: string, definition: Definition) returns (s': State)
    requires Reached(s) && PcOf(s, 1) == Idle && s.db == With(EMPTY_DB, 1, slug, map[]) && definition != D()
    requires slug in s.cache
    ensures Reachable(SMALL_ENV, s') && s'.db == s.db && s'.definitions == map["d" := definition]
    ensures Moved(s, s', 1, Idle)
    ensures slug in s'.cache && s'.cache[slug] == s.cache[slug].(foreign := true)
  {
    EditEffect(s, definition);
    s' := ExtendByEdit(s, 1, "d", Some(definition), map["d" := definition]);
    EditMarks(s, s', slug, definition);
  }

  lemma ExtendByEdit(s: State, t: nat, name: string, definition: Option<Definition>,
                     definitions: map<string, Definition>)
    returns (s': State)
    requires Reached(s) && EffectOf(SMALL_ENV, s, Edit(t, name, definition)) == Edits(definitions)
    ensures Reachable(SMALL_ENV, s') && s' == Change(s, t, None, s.db, definitions)
  {
    ReachableNext(SMALL_ENV, s, Edit(t, name, definition));
    s' := Apply(s, t, Edits(definitions));
  }

  lemma EditEffect(s: State, definition: Definition)
    requires s.definitions == map["d" := D()] && PcOf(s, 1) == Idle
    ensures EffectOf(SMALL_ENV, s, Edit(1, "d", Some(definition))) == Edits(map["d" := definition])
  {
    assert s.definitions["d" := definition] == map["d" := definition];
  }

  lemma EditMarks(s: State, s': State, slug: string, definition: Definition)
    requires s.definitions == map["d" := D()] && s.db == With(EMPTY_DB, 1, slug, map[]) && definition != D()
    requires slug in s.cache && s' == Change(s, 1, None, s.db, map["d" := definition])
    ensures Moved(s, s', 1, Idle) && slug in s'.cache && s'.cache[slug] == s.cache[slug].(foreign := true)
  {
    ChangePcs(s, s', 1, None);
    assert BasisOf(s.db, s'.definitions, slug).definition == Some(definition);
    ChangeMarks(s, s', 1, None, slug);
  }

  const B_SETTINGS := map["cookie" := "b"]

  /** Only thread 2 is under way. */
  ghost predicate OnlySecond(s: State) {
    forall t :: t != 2 ==> PcOf(s, t) == Idle
  }

  /** A resolve of "a" reads the instance and loads its definition, and "a" is deleted. */
  lemma ReadThenDeleted() returns (s: State, seen: nat)
    ensures Sound(SMALL_ENV.keyring) && Reached(s) && s.db == EMPTY_DB && s.cache == map[] && OnlySecond(s)
    ensures PcOf(s, 2) == Loaded("a", PlainInstance(1, "a"), D(), seen)
  {
    var s0 := Start();
    var added := AddOne(s0, 1, "a", map[]);
    var loaded := MissAndLoad(added, 2, "a");
    assert PcOf(loaded, 1) == Idle;
    s := DeleteOnly(loaded, 1, "a", map[]);
    seen := Count(added, "a");
    forall t | t != 2
      ensures PcOf(s, t) == Idle
    {
      assert t != 1 ==> PcOf(s, t) == PcOf(s0, t);
    }
  }

  /**
   A resolve of "a" reads the instance; "a" is deleted, "b" is added under the id "a" had, and "a" is
   added again under another; the resolve then reads the settings of "b" and installs. Nothing is
   pending, and "a" is served with the configuration of "b".
   */
  lemma ServedWithOthersSettings() returns (s: State)
    ensures Sound(SMALL_ENV.keyring) && Reachable(SMALL_ENV, s) && Settled(s, "a")
    ensures "a" in s.cache && !s.cache["a"].own && s.cache["a"].adapter.engine.config == B_SETTINGS
    ensures var a, b := Rebuilt(At(SMALL_ENV, s), s.db, "a"), Rebuilt(At(SMALL_ENV, s), s.db, "b");
      a.Success? && a.value.config == map[] && b.Success? && b.value.config == B_SETTINGS
  {
    var deleted, seen := ReadThenDeleted();
    var replaced := AddOne(deleted, 1, "b", B_SETTINGS);
    var again := AddOne(replaced, 2, "a", map[]);
    assert PcOf(again, 2) == PcOf(deleted, 2);
    s := FinishBuild(again, 2, "a", PlainInstance(1, "a"), seen, B_SETTINGS);
    BothAreServed(At(SMALL_ENV, s), s.db);
    forall t
      ensures PcOf(s, t) == Idle
    {
      assert t != 1 && t != 2 ==> PcOf(s, t) == PcOf(deleted, t);
    }
  }

  lemma BothAreServed(env: Env, db: Db)
    requires env == SMALL_ENV.(definitions := map["d" := D()])
    requires db == With(With(EMPTY_DB, 1, "b", B_SETTINGS), 2, "a", map[])
    ensures Rebuilt(env, db, "a") == Success(Engine(PlainInstance(2, "a"), D(), map[]))
    ensures Rebuilt(env, db, "b") == Success(Engine(PlainInstance(1, "b"), D(), B_SETTINGS))
  {
    PlainConfig(2, map[]);
    PlainConfig(1, B_SETTINGS);
  }
}
