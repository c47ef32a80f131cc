/** Stored settings. */
module Settings {
  // How a value is classified, sealed, merged into what is already stored, shown to a client, and turned
  // back into the engine's configuration. A set of rows belongs to one instance and has at most one row
  // a name, so its abstract value is a map from setting names to rows. The methods walk Go maps and
  // slices in an arbitrary order; each is tied to a function of that abstract value, so no result
  // depends on the order.

  import opened Wrappers

  /** One row of `indexer_settings`. */
  datatype Setting = Setting(name: string, value: string, valueEncrypted: string, keyId: string, isSecret: bool)

  /** What a client is shown of a row. */
  datatype SettingView = SettingView(name: string, value: string, secret: bool)

  type Rows = map<string, Setting>
  type Config = map<string, string>

  /** The placeholder shown for a secret; on an update it means "keep the stored row". */
  const REDACTED := "<redacted>"

  /** The keyring.  Sealing draws a nonce and may fail; opening may fail. */
  datatype Keyring = Keyring(
    keyId: string,
    sealing: (int, string, string, int) -> Option<string>,
    opening: (int, string, string) -> Option<string>)
  {
    function Seal(id: int, name: string, plain: string, nonce: int): Option<string> {
      sealing(id, name, plain, nonce)
    }

    function Open(id: int, name: string, blob: string): Option<string> {
      opening(id, name, blob)
    }
  }

  /** Opening inverts sealing for the same instance and setting name, and a key always has an id. */
  ghost predicate Sound(k: Keyring) {
    && k.keyId != ""
    && forall id, name, plain, nonce :: Reopens(k, id, name, plain, k.Seal(id, name, plain, nonce))
  }

  predicate Reopens(k: Keyring, id: int, name: string, plain: string, blob: Option<string>) {
    blob.Some? ==> k.Open(id, name, blob.value) == Some(plain)
  }

  /** Which setting names are secret: the declared fields' own verdicts, and the verdict on any other name. */
  datatype Classifier = Classifier(declared: map<string, bool>, undeclared: string -> bool) {
    predicate IsSecret(name: string) {
      if name in declared then declared[name] else undeclared(name)
    }
  }

  /** What a write needs besides the values: the instance, the key, fresh nonces and the classification. */
  datatype Writer = Writer(id: int, keyring: Keyring, nonce: string -> int, classifier: Classifier)

  /** The storage contract checked on every insert. */
  predicate ValidSetting(s: Setting) {
    if s.isSecret then s.value == "" && s.keyId != "" else s.valueEncrypted == "" && s.keyId == ""
  }

  ghost predicate ValidRows(rows: Rows) {
    forall n :: n in rows ==> rows[n].name == n && ValidSetting(rows[n])
  }

  /** A list of rows read into a map, a later row of a name replacing an earlier one. */
  function ByName(list: seq<Setting>): Rows {
    if list == [] then map[] else
    var last := list[|list| - 1];
    ByName(list[..|list| - 1])[last.name := last]
  }

  ghost predicate DistinctNames(list: seq<Setting>) {
    forall i, j :: 0 <= i < j < |list| ==> list[i].name != list[j].name
  }

  /** `list` holds each row of `rows` exactly once, in some order. */
  ghost predicate Enumerates(list: seq<Setting>, rows: Rows) {
    DistinctNames(list) && ByName(list) == rows
  }

  lemma {:induction false} ByNameFinds(list: seq<Setting>, i: nat)
    requires DistinctNames(list) && i < |list|
    ensures list[i].name in ByName(list) && ByName(list)[list[i].name] == list[i]
  {
    if i < |list| - 1 {
      ByNameFinds(list[..|list| - 1], i);
    }
  }

  lemma {:induction false} ByNameNames(list: seq<Setting>, name: string)
    requires name in ByName(list)
    ensures exists i :: 0 <= i < |list| && list[i].name == name && ByName(list)[name] == list[i]
  {
    var init, last := list[..|list| - 1], list[|list| - 1];
    if name == last.name {
      assert list[|list| - 1].name == name;
    } else {
      ByNameNames(init, name);
      var i :| 0 <= i < |init| && init[i].name == name && ByName(init)[name] == init[i];
      assert list[i].name == name;
    }
  }

  // ----- Reading a configuration back

  /** The plaintext of one row. */
  function Plain(k: Keyring, id: int, s: Setting): Option<string> {
    if s.isSecret then k.Open(id, s.name, s.valueEncrypted) else Some(s.value)
  }

  /** The configuration the rows stand for; none when some secret cannot be opened. */
  function ConfigOf(k: Keyring, id: int, rows: Rows): Option<Config> {
    if forall n :: n in rows ==> Plain(k, id, rows[n]).Some?
    then Some(map n | n in rows :: Plain(k, id, rows[n]).value)
    else None
  }

  lemma ConfigStep(k: Keyring, id: int, rows: Rows, s: Setting)
    requires ConfigOf(k, id, rows).Some? && Plain(k, id, s).Some?
    ensures ConfigOf(k, id, rows[s.name := s]) == Some(ConfigOf(k, id, rows).value[s.name := Plain(k, id, s).value])
  {
    var more := rows[s.name := s];
    assert forall n :: n in more ==> Plain(k, id, more[n]).Some?;
    assert ConfigOf(k, id, more).value == ConfigOf(k, id, rows).value[s.name := Plain(k, id, s).value];
  }

  method DecryptConfig(k: Keyring, id: int, list: seq<Setting>) returns (r: Option<Config>)
    requires DistinctNames(list)
    ensures r == ConfigOf(k, id, ByName(list))
  {
    var cfg: Config := map[];
    for i := 0 to |list|
      invariant ConfigOf(k, id, ByName(list[..i])) == Some(cfg)
    {
      assert list[..i + 1][..i] == list[..i];
      var plain := Plain(k, id, list[i]);
      if plain.None? {
        ByNameFinds(list, i);
        return None;
      }
      ConfigStep(k, id, ByName(list[..i]), list[i]);
      cfg := cfg[list[i].name := plain.value];
    }
    assert list[..|list|] == list;
    r := Some(cfg);
  }

  // ----- Showing rows to a client

  function ShownAs(s: Setting): SettingView {
    SettingView(s.name, if s.isSecret then REDACTED else s.value, s.isSecret)
  }

  /** The name-to-value pairs a client sees, ready to be sent back unchanged. */
  function ShownValues(rows: Rows): map<string, string> {
    map n | n in rows :: ShownAs(rows[n]).value
  }

  // ----- Writing

  /** Classifies a value and seals it when it is secret. */
  function ToStored(w: Writer, name: string, val: string): Option<Setting> {
    if !w.classifier.IsSecret(name) then
      Some(Setting(name, val, "", "", false))
    else
      match w.keyring.Seal(w.id, name, val, w.nonce(name))
      case None => None
      case Some(blob) => Some(Setting(name, "", blob, w.keyring.keyId, true))
  }

  /** The incoming values that are not the placeholder. */
  function Overlay(incoming: map<string, string>): map<string, string> {
    map n | n in incoming && incoming[n] != REDACTED :: incoming[n]
  }

  /** The rows for a set of values, as a first write stores them. */
  function StoredRows(w: Writer, values: map<string, string>): Option<Rows> {
    if forall n :: n in values ==> ToStored(w, n, values[n]).Some?
    then Some(map n | n in values :: ToStored(w, n, values[n]).value)
    else None
  }

  /** The rows after an update: stored rows, overridden by the incoming values that are not redacted. */
  function MergedRows(w: Writer, existing: Rows, incoming: map<string, string>): Option<Rows> {
    match StoredRows(w, Overlay(incoming))
    case None => None
    case Some(written) => Some(existing + written)
  }

  lemma StoredStep(w: Writer, values: map<string, string>, name: string, val: string)
    requires StoredRows(w, values).Some? && ToStored(w, name, val).Some?
    ensures StoredRows(w, values[name := val])
         == Some(StoredRows(w, values).value[name := ToStored(w, name, val).value])
  {
    var more := values[name := val];
    assert forall n :: n in more ==> ToStored(w, n, more[n]).Some?;
    assert StoredRows(w, more).value == StoredRows(w, values).value[name := ToStored(w, name, val).value];
  }

  lemma OverlayStep(part: map<string, string>, name: string, val: string)
    requires name !in part
    ensures Overlay(part[name := val]) == if val == REDACTED then Overlay(part) else Overlay(part)[name := val]
  {
  }

  lemma OverrideStep<K, V>(m: map<K, V>, m': map<K, V>, k: K, v: V)
    ensures m + m'[k := v] == (m + m')[k := v]
  {
  }

  /** One more incoming value is skipped or overrides. */
  lemma MergeStep(w: Writer, existing: Rows, part: map<string, string>, name: string, val: string)
    requires MergedRows(w, existing, part).Some?
    requires name !in part && (val == REDACTED || ToStored(w, name, val).Some?)
    ensures MergedRows(w, existing, part[name := val])
         == if val == REDACTED then MergedRows(w, existing, part)
            else Some(MergedRows(w, existing, part).value[name := ToStored(w, name, val).value])
  {
    OverlayStep(part, name, val);
    if val != REDACTED {
      StoredStep(w, Overlay(part), name, val);
      OverrideStep(existing, StoredRows(w, Overlay(part)).value, name, ToStored(w, name, val).value);
    }
  }

  /** A failed value fails the whole merge, whatever else is incoming. */
  lemma MergeFails(w: Writer, existing: Rows, incoming: map<string, string>, name: string)
    requires name in incoming && incoming[name] != REDACTED && ToStored(w, name, incoming[name]).None?
    ensures MergedRows(w, existing, incoming).None?
  {
    assert name in Overlay(incoming);
  }

  /** The values visited so far, when some names are left. */
  function Visited(values: map<string, string>, todo: set<string>): map<string, string> {
    map n | n in values.Keys - todo :: values[n]
  }

  lemma VisitedStep(values: map<string, string>, todo: set<string>, name: string)
    requires name in values && name in todo
    ensures name !in Visited(values, todo)
    ensures Visited(values, todo - {name}) == Visited(values, todo)[name := values[name]]
  {
  }

  lemma VisitedAll(values: map<string, string>)
    ensures Visited(values, values.Keys) == map[] && Visited(values, {}) == values
  {
  }

  method MergeSettings(w: Writer, list: seq<Setting>, incoming: map<string, string>) returns (r: Option<seq<Setting>>)
    ensures r.Some? == MergedRows(w, ByName(list), incoming).Some?
    ensures r.Some? ==> Enumerates(r.value, MergedRows(w, ByName(list), incoming).value)
  {
    var byName: Rows := map[];
    for i := 0 to |list|
      invariant byName == ByName(list[..i])
    {
      assert list[..i + 1][..i] == list[..i];
      byName := byName[list[i].name := list[i]];
    }
    assert list[..|list|] == list;
    ghost var existing := byName;
    ghost var part: map<string, string> := map[];
    assert Overlay(part) == map[];
    assert StoredRows(w, map[]).value == map[];
    assert existing + map[] == existing;
    VisitedAll(incoming);
    var todo := incoming.Keys;
    while todo != {}
      invariant todo <= incoming.Keys
      invariant part == Visited(incoming, todo)
      invariant MergedRows(w, existing, part) == Some(byName)
      decreases todo
    {
      var name :| name in todo;
      VisitedStep(incoming, todo, name);
      todo := todo - {name};
      if incoming[name] != REDACTED {
        var s := ToStored(w, name, incoming[name]);
        if s.None? {
          MergeFails(w, existing, incoming, name);
          return None;
        }
        byName := byName[name := s.value];
      }
      MergeStep(w, existing, part, name, incoming[name]);
      part := part[name := incoming[name]];
    }
    MergedKeepsNames(w, list, incoming);
    var out := Listed(byName);
    r := Some(out);
  }

  lemma MergedKeepsNames(w: Writer, list: seq<Setting>, incoming: map<string, string>)
    requires MergedRows(w, ByName(list), incoming).Some?
    ensures var rows := MergedRows(w, ByName(list), incoming).value; forall n :: n in rows ==> rows[n].name == n
  {
    forall n | n in ByName(list) ensures ByName(list)[n].name == n {
      ByNameNames(list, n);
    }
  }

  /** Ranges over a map of rows, in an arbitrary order. */
  method Listed(rows: Rows) returns (out: seq<Setting>)
    requires forall n :: n in rows ==> rows[n].name == n
    ensures Enumerates(out, rows)
  {
    out := [];
    var todo := rows.Keys;
    while todo != {}
      invariant todo <= rows.Keys
      invariant DistinctNames(out)
      invariant forall i :: 0 <= i < |out| ==> out[i].name !in todo
      invariant ByName(out) == map n | n in rows.Keys - todo :: rows[n]
      decreases todo
    {
      var name :| name in todo;
      ghost var before := out;
      out := out + [rows[name]];
      assert out[..|out| - 1] == before;
      todo := todo - {name};
    }
  }

  // ----- Laws of showing and updating

  /** Every row a write produces meets the storage contract and carries its own name. */
  lemma StoredIsValid(w: Writer, name: string, val: string)
    requires Sound(w.keyring) && ToStored(w, name, val).Some?
    ensures var s := ToStored(w, name, val).value; var declared := w.classifier.declared;
      && s.isSecret == (if name in declared then declared[name] else w.classifier.undeclared(name))
      && (if s.isSecret then s.value == "" && s.keyId == w.keyring.keyId else s.value == val && s.valueEncrypted == "")
    ensures var s := ToStored(w, name, val).value; s.name == name && ValidSetting(s)
    ensures Plain(w.keyring, w.id, ToStored(w, name, val).value) == Some(val)
  {
    if w.classifier.IsSecret(name) {
      assert Reopens(w.keyring, w.id, name, val, w.keyring.Seal(w.id, name, val, w.nonce(name)));
    }
  }

  lemma FirstWrite(w: Writer, values: map<string, string>)
    requires Sound(w.keyring) && StoredRows(w, values).Some?
    ensures ValidRows(StoredRows(w, values).value)
    ensures ConfigOf(w.keyring, w.id, StoredRows(w, values).value) == Some(values)
  {
    var rows := StoredRows(w, values).value;
    forall n | n in rows
      ensures rows[n].name == n && ValidSetting(rows[n]) && Plain(w.keyring, w.id, rows[n]) == Some(values[n])
    {
      StoredIsValid(w, n, values[n]);
    }
    assert ConfigOf(w.keyring, w.id, rows).value == values;
  }

  lemma UpdateKeepsRowsValid(w: Writer, existing: Rows, incoming: map<string, string>)
    requires Sound(w.keyring) && ValidRows(existing) && MergedRows(w, existing, incoming).Some?
    ensures ValidRows(MergedRows(w, existing, incoming).value)
  {
    FirstWrite(w, Overlay(incoming));
  }

  lemma UnreadableRow(k: Keyring, id: int, rows: Rows, n: string)
    requires n in rows && Plain(k, id, rows[n]).None?
    ensures ConfigOf(k, id, rows).None?
  {
  }

  lemma ReadableUnion(k: Keyring, id: int, a: Rows, b: Rows)
    requires ConfigOf(k, id, b).Some? && ConfigOf(k, id, a - b.Keys).Some?
    ensures ConfigOf(k, id, a + b) == Some(ConfigOf(k, id, a - b.Keys).value + ConfigOf(k, id, b).value)
  {
    assert forall n :: n in a + b ==> n in b || (n in a - b.Keys && (a - b.Keys)[n] == (a + b)[n]);
    assert ConfigOf(k, id, a + b).value == ConfigOf(k, id, a - b.Keys).value + ConfigOf(k, id, b).value;
  }

  /** Splitting a set of rows splits its configuration. */
  lemma ConfigSplits(k: Keyring, id: int, a: Rows, b: Rows)
    requires ConfigOf(k, id, b).Some?
    ensures ConfigOf(k, id, a + b) == match ConfigOf(k, id, a - b.Keys)
                                      case None => None
                                      case Some(c) => Some(c + ConfigOf(k, id, b).value)
  {
    if ConfigOf(k, id, a - b.Keys).Some? {
      ReadableUnion(k, id, a, b);
    } else {
      var n :| n in a - b.Keys && Plain(k, id, (a - b.Keys)[n]).None?;
      UnreadableRow(k, id, a + b, n);
    }
  }

  /** After an update the configuration is what the untouched rows stand for, overlaid by the incoming values. */
  lemma UpdateOverlaysConfig(w: Writer, existing: Rows, incoming: map<string, string>)
    requires Sound(w.keyring) && MergedRows(w, existing, incoming).Some?
    ensures ConfigOf(w.keyring, w.id, MergedRows(w, existing, incoming).value)
         == match ConfigOf(w.keyring, w.id, existing - Overlay(incoming).Keys)
            case None => None
            case Some(kept) => Some(kept + Overlay(incoming))
  {
    var written := StoredRows(w, Overlay(incoming)).value;
    FirstWrite(w, Overlay(incoming));
    ConfigSplits(w.keyring, w.id, existing, written);
    assert written.Keys == Overlay(incoming).Keys;
  }

  /** Setting by setting: an incoming value is written unless it is the placeholder, and every other row stays. */
  lemma UpdatedSetting(w: Writer, existing: Rows, incoming: map<string, string>, n: string)
    requires Sound(w.keyring) && MergedRows(w, existing, incoming).Some?
    ensures var rows := MergedRows(w, existing, incoming).value;
      if n in incoming && incoming[n] != "<redacted>" then
        n in rows && Plain(w.keyring, w.id, rows[n]) == Some(incoming[n])
      else if n in existing then n in rows && rows[n] == existing[n]
      else n !in rows
  {
    if n in Overlay(incoming) {
      StoredIsValid(w, n, Overlay(incoming)[n]);
    }
  }

  /** In particular a readable configuration is overlaid whole. */
  lemma UpdateOverlaysReadableConfig(w: Writer, existing: Rows, incoming: map<string, string>)
    requires Sound(w.keyring) && MergedRows(w, existing, incoming).Some?
    requires ConfigOf(w.keyring, w.id, existing).Some?
    ensures ConfigOf(w.keyring, w.id, MergedRows(w, existing, incoming).value)
         == Some(ConfigOf(w.keyring, w.id, existing).value + Overlay(incoming))
  {
    UpdateOverlaysConfig(w, existing, incoming);
    ReadablePart(w.keyring, w.id, existing, Overlay(incoming).Keys);
    OverrideKept(ConfigOf(w.keyring, w.id, existing).value, Overlay(incoming));
  }

  lemma ReadablePart(k: Keyring, id: int, rows: Rows, dropped: set<string>)
    requires ConfigOf(k, id, rows).Some?
    ensures ConfigOf(k, id, rows - dropped) == Some(ConfigOf(k, id, rows).value - dropped)
  {
    var rest := rows - dropped;
    assert forall n :: n in rest ==> n in rows && rest[n] == rows[n];
    assert ConfigOf(k, id, rest).value == ConfigOf(k, id, rows).value - dropped;
  }

  lemma OverrideKept(m: Config, o: Config)
    ensures (m - o.Keys) + o == m + o
  {
  }

  /**
   Sending back exactly what was shown changes no configuration: secrets are kept, plain values
   are rewritten, and a plain value the writer now classifies as secret is sealed and opens to
   itself.  It also leaves an unreadable configuration unreadable.
   */
  lemma ShownBackChangesNothing(w: Writer, existing: Rows)
    requires Sound(w.keyring) && ValidRows(existing)
    requires MergedRows(w, existing, ShownValues(existing)).Some?
    ensures ConfigOf(w.keyring, w.id, MergedRows(w, existing, ShownValues(existing)).value)
         == ConfigOf(w.keyring, w.id, existing)
  {
    var shown := Overlay(ShownValues(existing));
    UpdateOverlaysConfig(w, existing, ShownValues(existing));
    assert shown.Keys <= existing.Keys;
    assert forall n :: n in shown ==> Plain(w.keyring, w.id, existing[n]) == Some(shown[n]);
    PlainRowsReadBack(w.keyring, w.id, existing, shown);
  }

  lemma PlainRowsReadBack(k: Keyring, id: int, rows: Rows, known: map<string, string>)
    requires known.Keys <= rows.Keys && forall n :: n in known ==> Plain(k, id, rows[n]) == Some(known[n])
    ensures ConfigOf(k, id, rows) == match ConfigOf(k, id, rows - known.Keys)
                                     case None => None
                                     case Some(kept) => Some(kept + known)
  {
    var rest := rows - known.Keys;
    if ConfigOf(k, id, rest).Some? {
      assert forall n :: n in rows ==> n in known || (n in rest && rest[n] == rows[n]);
      assert ConfigOf(k, id, rows).value == ConfigOf(k, id, rest).value + known;
    } else {
      var n :| n in rest && Plain(k, id, rest[n]).None?;
      assert n in rows;
    }
  }

  /** A later update that covers an earlier one leaves no trace of it, row for row. */
  lemma LaterUpdateAbsorbs(w: Writer, w': Writer, existing: Rows, first: map<string, string>,
                           second: map<string, string>)
    requires MergedRows(w, existing, first).Some?
    requires Overlay(first).Keys <= Overlay(second).Keys
    ensures MergedRows(w', MergedRows(w, existing, first).value, second) == MergedRows(w', existing, second)
  {
    if MergedRows(w', existing, second).Some? {
      CoveredOverride(existing, StoredRows(w, Overlay(first)).value, StoredRows(w', Overlay(second)).value);
    }
  }

  lemma CoveredOverride(m: Rows, a: Rows, b: Rows)
    requires a.Keys <= b.Keys
    ensures m + a + b == m + b
  {
  }

  /** What is shown of the incoming values once written: the placeholder for secrets, the value itself otherwise. */
  function ShownOverlay(c: Classifier, incoming: map<string, string>): map<string, string> {
    map n | n in Overlay(incoming) :: if c.IsSecret(n) then REDACTED else incoming[n]
  }

  lemma ShownAfterUpdate(w: Writer, existing: Rows, incoming: map<string, string>)
    requires MergedRows(w, existing, incoming).Some?
    ensures ShownValues(MergedRows(w, existing, incoming).value)
         == ShownValues(existing) + ShownOverlay(w.classifier, incoming)
  {
    ShownSplits(existing, StoredRows(w, Overlay(incoming)).value);
    ShownAfterWrite(w, incoming);
  }

  lemma ShownAfterWrite(w: Writer, incoming: map<string, string>)
    requires StoredRows(w, Overlay(incoming)).Some?
    ensures ShownValues(StoredRows(w, Overlay(incoming)).value) == ShownOverlay(w.classifier, incoming)
  {
    var rows := StoredRows(w, Overlay(incoming)).value;
    forall n | n in Overlay(incoming)
      ensures ShownAs(rows[n]).value == ShownOverlay(w.classifier, incoming)[n]
    {
      assert ToStored(w, n, Overlay(incoming)[n]) == Some(rows[n]);
    }
  }

  lemma ShownSplits(a: Rows, b: Rows)
    ensures ShownValues(a + b) == ShownValues(a) + ShownValues(b)
  {
  }

  // ----- When a secret is the placeholder itself

  /** A written row opens to the placeholder exactly when the placeholder was written. */
  lemma AddedOpensToPlaceholderIff(w: Writer, values: map<string, string>, n: string)
    requires Sound(w.keyring) && StoredRows(w, values).Some? && n in values
    ensures Plain(w.keyring, w.id, StoredRows(w, values).value[n]) == Some(REDACTED) <==> values[n] == REDACTED
  {
    StoredIsValid(w, n, values[n]);
  }

  /** A row opens to the placeholder after an update exactly when it is an untouched row that did before. */
  lemma UpdatedOpensToPlaceholderIff(w: Writer, existing: Rows, incoming: map<string, string>, n: string)
    requires Sound(w.keyring) && MergedRows(w, existing, incoming).Some?
    requires n in MergedRows(w, existing, incoming).value
    ensures Plain(w.keyring, w.id, MergedRows(w, existing, incoming).value[n]) == Some(REDACTED) <==>
      n !in Overlay(incoming) && n in existing && MergedRows(w, existing, incoming).value[n] == existing[n]
      && Plain(w.keyring, w.id, existing[n]) == Some(REDACTED)
  {
    if n in Overlay(incoming) {
      StoredIsValid(w, n, Overlay(incoming)[n]);
    }
  }

  /** The rows that updates leave, each with its own writer. */
  function AfterUpdates(rows: Rows, updates: seq<(Writer, map<string, string>)>): Option<Rows> {
    if updates == [] then Some(rows) else
    match AfterUpdates(rows, updates[..|updates| - 1])
    case None => None
    case Some(before) => MergedRows(updates[|updates| - 1].0, before, updates[|updates| - 1].1)
  }

  /** The updates are of one instance under one key; nonces and classification may differ. */
  ghost predicate SameInstance(w: Writer, updates: seq<(Writer, map<string, string>)>) {
    forall i :: 0 <= i < |updates| ==> updates[i].0.id == w.id && updates[i].0.keyring == w.keyring
  }

  /** No update writes the setting. */
  predicate NeverWritten(updates: seq<(Writer, map<string, string>)>, n: string) {
    forall i :: 0 <= i < |updates| ==> n !in Overlay(updates[i].1)
  }

  lemma NeverWrittenLast(updates: seq<(Writer, map<string, string>)>, n: string)
    requires updates != []
    ensures NeverWritten(updates, n) <==>
      NeverWritten(updates[..|updates| - 1], n) && n !in Overlay(updates[|updates| - 1].1)
  {
  }

  lemma MergedHas(w: Writer, existing: Rows, incoming: map<string, string>, n: string)
    requires MergedRows(w, existing, incoming).Some?
    ensures n in MergedRows(w, existing, incoming).value <==> n in existing || n in Overlay(incoming)
  {
  }

  /**
   For every instance over its life: a setting opens to the placeholder exactly when it was added as
   that and no update has written it since.
   */
  lemma {:induction false} OpensToPlaceholderIff(w: Writer, values: map<string, string>,
                                                 updates: seq<(Writer, map<string, string>)>, n: string)
    requires Sound(w.keyring) && StoredRows(w, values).Some? && SameInstance(w, updates)
    requires AfterUpdates(StoredRows(w, values).value, updates).Some?
    requires n in AfterUpdates(StoredRows(w, values).value, updates).value
    ensures var rows := AfterUpdates(StoredRows(w, values).value, updates).value;
      Plain(w.keyring, w.id, rows[n]) == Some(REDACTED) <==>
      n in values && values[n] == REDACTED && NeverWritten(updates, n)
  {
    if updates == [] {
      AddedOpensToPlaceholderIff(w, values, n);
    } else {
      var init, last := updates[..|updates| - 1], updates[|updates| - 1];
      var before := AfterUpdates(StoredRows(w, values).value, init).value;
      UpdatedOpensToPlaceholderIff(last.0, before, last.1, n);
      MergedHas(last.0, before, last.1, n);
      NeverWrittenLast(updates, n);
      if n in before {
        OpensToPlaceholderIff(w, values, init, n);
      }
    }
  }

  /** A keyring that seals nothing away. */
  function OpenKeyring(): Keyring {
    Keyring("k", (id, name, plain, nonce) => Some(plain), (id, name, blob) => Some(blob))
  }

  /** So the placeholder can be a secret: an add with it stores a row that opens to it. */
  lemma PlaceholderIsStored()
    ensures Sound(OpenKeyring())
    ensures var w := Writer(1, OpenKeyring(), n => 0, Classifier(map["apikey" := true], n => false));
      var rows := StoredRows(w, map["apikey" := REDACTED]);
      && rows.Some? && "apikey" in rows.value && rows.value["apikey"].isSecret
      && Plain(w.keyring, w.id, rows.value["apikey"]) == Some(REDACTED)
  {
  }
}
