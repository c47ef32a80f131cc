# harbrr: verified core

A model in Dafny of the parts of harbrr whose correctness is decided by their own code, with proofs
of what they promise. harbrr serves tracker indexers, defined in Cardigann YAML, to Torznab clients.

| files | what they model |
|---|---|
| `RegistryProtocol` | the engine cache over the transactional store and the definitions on disk, as interleaved steps of any number of threads |
| `Registry`, `Store`, `Settings` | the same registry as an object used serially, the store as maps with atomic transactions, and the settings that are classified, sealed, merged and shown |
| `Replacement`, `Splice` | the .NET replacement language, and the two loops that splice expansions into a text, by bytes and by runes |
| `XmlText`, `Utf8` | the sanitizer of XML text, and UTF-8 |
| `XmlTree`, `XmlNames` | the builder of a node tree from XML tokens, with its stack of namespace scopes, and which written names it keeps |
| `JsonPath`, `JsonSelector` | paths into JSON and the pseudo-selectors that filter rows and fields |
| `Categories`, `CategoryMapper`, `AdvertisedSet` | the standard table, the builder of the category map and the advertised set, and what that set is |
| `CategoryTree`, `CategoryConservation`, `CategoryQuery`, `CategoryDefinitions` | the caps tree rebuilt from the flat list, the lookups in both directions, and when the two agree with the flat map, for whole definitions |
| `FormEncoding`, `SearchRequest`, `Magnet` | ordered form encoding, the inputs of search requests, and magnet links |
| `SlashEscapes`, `DateLayout`, `DateMeaning` | the backslash-run rewriter, the layout translator, and what the rows of its table mean on dates |
| `RowMerge` | the merging of result rows, on linked nodes |
| `Canary` | the startup canary over sequences of starts |
| `Lists`, `Numbers`, `Sorting`, `Text`, `Wrappers` | shared ground |

Code that updates state is modelled by classes and methods with loops, each proved against a
function of its inputs; the laws are lemmas about those functions. `dafny verify dfyconfig.toml`
checks everything.

## Reading the model

- A Go string is a sequence of bytes where the code depends on them (`Utf8.Bytes`), and a sequence of
  characters where it only compares, cuts at or trims ASCII and white space. A Go map that is ranged over is
  visited in an arbitrary order.
- Libraries are inputs: the regular expression engines appear as ordered match lists that do not overlap, the
  XML decoder as a token list, templates as their results, encryption as a pair of functions of which
  opening inverts sealing for the same instance and name, SHA-1 as any function to 16 bits, and the
  case-insensitive comparison as any relation.
- `int` is Go's 64-bit integer only where that matters: tracker ids and JSON indexes are read with its
  range, and adding the custom offset wraps.
- In `RegistryProtocol` the fields `changes`, `seen`, `own`, `at` and `foreign` are history: no step
  reads them. A step is counted for a slug when it changes the instance, settings or definition that a
  build of the slug reads. `Registry` is the same code run serially, while no definition changes.

## Where the code and its documentation differ

- The cache is not unconditionally coherent. `RegistryProtocol.CachedIsCurrentIff` gives the exact
  condition, and three reachable runs show that each part of it is needed; in a fourth an indexer is
  served with another's configuration. Two of them rest on `id INTEGER PRIMARY KEY` without
  `AUTOINCREMENT` (`internal/database/migrations/0001_init.sql:32`), which lets SQLite give a new
  instance the id of a deleted one, one on a definition file edited while the process runs
  (`internal/indexer/cardigann/loader/loader.go:110-127`).
- `internal/secrets/redact.go:16-17` says that the text `<redacted>` cannot be stored as a secret. An
  update cannot, but an add stores it like any other value: `Settings.OpensToPlaceholderIff` says
  exactly when a setting holds it, and `Settings.PlaceholderIsStored` is a case.
- `internal/torznab/categorytree.go:25-30` relies on every advertised subcategory having its root in the
  tree, and lines 81-86 on four-digit ids for the order. Tracker ids that are not plain (`CategoryMapper.PlainId`:
  negative numbers, and numbers within the offset of the largest 64-bit one) give custom ids below the
  offset, and either can then fail. `CategoryDefinitions.DefinitionTreeIff` and
  `CategoryDefinitions.DefinitionReturnsIff` say exactly when, for every definition; plain ids are enough
  and not necessary.
- `internal/indexer/cardigann/selector/xml.go:23-25` says that qualified names are preserved. They are
  not where one URI has two prefixes, nor for the undeclared prefix `xml`: `XmlNames.NameKeptIff` is the
  exact condition.
- `internal/indexer/cardigann/dateparse/tokens.go:18-40` lists the rows of the table as equivalents. Some are not:
  the Go fractions have a period that .NET's do not, so `ss.fff` becomes `05..000`, whose last element
  reads no fraction written as `fff`. `DateMeaning.RowAgreesIff` says for each row on which dates it means the same.
- An info hash with one of six special bytes does not come back from its magnet (`Magnet.RoundTripIff`).

## Model

| member | source | states |
|---|---|---|
| RegistryProtocol.StepKeepsInv | internal/indexer/registry/registry.go:121-220 | Every step of every thread (cache lookup, each read, definition load, install, add, update, enable, delete, invalidate, abort) and every edit of a definition keeps the protocol invariant: the store is consistent, and every reader, builder and cache entry that has missed no change of what its slug's builds read holds what a build from the current store and definitions would make. |
| RegistryProtocol.RunKeepsInv | internal/indexer/registry/manage.go:59-187 | The invariant holds after every interleaved run of resolves, mutations and edits. |
| RegistryProtocol.CachedIsCurrentIff | internal/indexer/registry/registry.go:121-141 | In every reachable state where no mutation of a slug is between commit and invalidate, a cached engine has seen every step that changed what its slug's builds read if and only if none fell between its builder's first read and its install, and since then neither an edit of its definition nor a mutation addressed to another slug has changed it. |
| RegistryProtocol.CurrentIsFresh | internal/indexer/registry/registry.go:145-183 | Under that condition the cached engine equals a fresh build from the current store and definitions. |
| RegistryProtocol.CountsChanges | internal/indexer/registry/registry.go:225-238 | The counter the two statements above use is exactly the number of steps of the run that changed the instance, settings or definition a build of the slug reads. |
| RegistryProtocol.FirstToCacheWins | internal/indexer/registry/registry.go:121-141 | Two successful resolves of a slug with no invalidate of it between them return the same adapter object, however many builds race. |
| RegistryProtocol.BuildsAreNewObjects | internal/indexer/registry/registry.go:145-183 | A build makes an object that no cache entry and no other builder holds, so equal objects mean one build served both. |
| RegistryProtocol.BuildReads | internal/indexer/registry/registry.go:145-183 | In every reachable state, a build's configuration is that of whichever instance has the row id when the settings are read, and empty when none has; it is its own slug's exactly when the slug still has the id its first read gave. |
| RegistryProtocol.CachedIsOwn | internal/indexer/registry/registry.go:145-183 | In every reachable state, an engine built without a change in between has its own slug's configuration. |
| RegistryProtocol.StaleWithoutCleanBuild | internal/indexer/registry/registry.go:121-141 | The condition is needed: a reachable run in which a build reads, another thread disables the indexer and invalidates, and the build then installs, so that a disabled indexer is served with nothing pending. |
| RegistryProtocol.StaleByForeignCommit | internal/indexer/registry/manage.go:131-169 | So is the clause on other slugs: a reachable run in which an update pauses before its transaction, its instance is deleted, a new one takes over the row id, and the update rewrites that one while only invalidating its own slug. |
| RegistryProtocol.StaleByEdit | internal/indexer/cardigann/loader/loader.go:110-127 | And the clause on edits: a reachable run in which a definition changes on disk, in a part that is neither its name nor its settings, and nothing is invalidated. |
| RegistryProtocol.ServedWithOthersSettings | internal/indexer/registry/registry.go:145-183 | Worse than staleness: a reachable run with nothing pending in which an existing indexer is served with the configuration of another, which took over the row id between its builder's reads. |
| Store.RebuiltByView | internal/indexer/registry/registry.go:145-183 | What a build makes depends on the store only through the instance and settings of its slug. |
| Store.RebuiltIff | internal/indexer/registry/registry.go:145-183 | A build succeeds with an engine exactly when the slug has an enabled instance with a known definition, its settings decrypt to the engine's configuration, and the engine's checks accept them. |
| Store.AddKeepsValid | internal/indexer/registry/manage.go:59-97 | The add transaction keeps the store consistent (unique slugs and ids, every settings row owned and valid) and changes no other slug. |
| Store.UpdateKeepsValid | internal/indexer/registry/manage.go:131-169 | The update transaction keeps the store consistent and touches only the instance with its id, whatever slug that instance has by then. |
| Store.SetEnabledKeepsValid | internal/database/instances.go:154-162 | Enabling or disabling keeps the store consistent and changes no other slug. |
| Store.DeleteKeepsValid | internal/database/instances.go:166-172 | Deleting an instance cascades to its rows, keeps the store consistent and changes no other slug. |
| Store.AddedIsServed | internal/indexer/registry/manage.go:59-97 | An added indexer is served with exactly the settings it was added with, under its default name and enabled, or rejected by the engine. |
| Store.CheckAddIff | internal/indexer/registry/manage.go:59-72 | An add goes ahead for a well-formed, free slug and a known definition; it is a conflict when only the slug is taken, and invalid otherwise. |
| Store.DisabledIsNotServed | internal/indexer/registry/manage.go:172-178 | A disabled indexer is not served; enabling it again restores what was served. |
| Store.DeletedIsGone | internal/indexer/registry/manage.go:181-187 | A deleted indexer is not found, and its slug is free for an add. |
| Registry.Registry.Resolve | internal/indexer/registry/registry.go:121-141 | Run serially, a resolve returns what a registry without a cache would build, the cached object when there is one, and caches nothing on an error. |
| Registry.Registry.InstallFirst | internal/indexer/registry/registry.go:134-140 | The second locked section keeps an engine already cached and installs the new one otherwise. |
| Registry.Registry.Build | internal/indexer/registry/registry.go:145-183 | Two reads, decryption and the engine's checks give exactly the engine, or the first error, determined by the current store. |
| Registry.Registry.Invalidate | internal/indexer/registry/registry.go:216-220 | Drops the slug, and nothing else, from the cache. |
| Registry.Registry.Add | internal/indexer/registry/manage.go:59-97 | Adds or reports exactly as the checks and the transaction decide, leaves everything unchanged on an error, drops the slug from the cache, and keeps the cache coherent. |
| Registry.Registry.Get | internal/indexer/registry/manage.go:100-118 | Returns the instance and a view of each of its rows exactly once, in the order of their names: its name, whether it is secret, and its value or the placeholder. The values in the views are the shown values that the laws of updates speak of. |
| Registry.SortedEnumerates | internal/database/instances.go:79-106 | The settings query's order: sorting rows by name leaves them the same rows, in strictly ascending order of names. |
| Registry.Registry.Update | internal/indexer/registry/manage.go:131-169 | Writes the merged rows, and the name and base URL that are given, in one step, or nothing on an error, and keeps the cache coherent. |
| Registry.Registry.SetEnabled | internal/indexer/registry/manage.go:172-178 | Sets the flag or reports a missing slug, and keeps the cache coherent. |
| Registry.Registry.Delete | internal/indexer/registry/manage.go:181-187 | Deletes the instance with its rows or reports a missing slug, and keeps the cache coherent. |
| Registry.WriteSettings | internal/indexer/registry/manage.go:203-214 | Classifying and inserting the settings in any order writes exactly the rows their values determine, each valid, or fails when one cannot be sealed. |
| Registry.UpdateOf | internal/indexer/registry/manage.go:131-169 | Without interleaving, the update's transaction finds its instance, writes valid rows, and leaves every other slug as it was. |
| Registry.UpdateWrites | internal/indexer/registry/manage.go:274-283 | A successful update leaves the instance with the name and the base URL it gives, those it had where it gives none, and everything else as it was. |
| Registry.UpdateWithItsOwn | internal/indexer/registry/manage.go:274-283 | Giving an instance its own name and base URL leaves it as it is. |
| Registry.LaterUpdateWins | internal/indexer/registry/manage.go:274-283 | Of two updates in turn, each field has what the later one gives, else what the earlier one gives, else what it had. |
| Registry.UpdatedIsServed | internal/indexer/registry/manage.go:131-169 | An updated indexer is served with its old configuration overlaid by the incoming values, and its new name and base URL, or rejected by the engine. |
| Registry.ShownBackKeepsEngine | internal/indexer/registry/manage.go:100-169 | Sending a client's view of an instance back unchanged leaves the engine built from it unchanged. |
| Settings.DecryptConfig | internal/indexer/registry/registry.go:187-201 | The loop computes the configuration the rows stand for, whatever their order, and fails exactly when some secret does not open. |
| Settings.MergeSettings | internal/indexer/registry/manage.go:219-239 | Whatever order the incoming map is visited in, the result lists each row of "stored rows overridden by incoming values that are not the placeholder" exactly once, and fails exactly when one of those cannot be sealed. |
| Settings.StoredIsValid | internal/indexer/registry/manage.go:243-264 | A written row carries its name, is secret exactly when its declared field says so or, undeclared, its name does, is then sealed under the current key and holds no plain value, meets the storage contract and reads back as its value. |
| Settings.FirstWrite | internal/indexer/registry/manage.go:203-214 | Values written to a new instance give valid rows whose decrypted configuration is those values. |
| Settings.UpdateKeepsRowsValid | internal/database/instances.go:227-241 | An update of valid rows leaves valid rows. |
| Settings.UpdateOverlaysConfig | internal/indexer/registry/manage.go:219-239 | After an update the decrypted configuration is that of the untouched rows overlaid by the incoming values that are not the placeholder, and is unreadable exactly when an untouched row is. |
| Settings.UpdatedSetting | internal/indexer/registry/manage.go:219-239 | Setting by setting: an incoming value other than the text `<redacted>` is what the row then opens to; every other row stays as it is, and none is invented. |
| Settings.UpdateOverlaysReadableConfig | internal/indexer/registry/manage.go:219-239 | So a readable configuration is the old one overlaid. |
| Settings.ShownBackChangesNothing | internal/indexer/registry/manage.go:100-118 | Writing back exactly what is shown changes no configuration, even where a setting's classification has changed since it was stored. |
| Settings.LaterUpdateAbsorbs | internal/indexer/registry/manage.go:219-239 | A later update that covers an earlier one leaves no trace of it, row for row. |
| Settings.ShownAfterUpdate | internal/indexer/registry/manage.go:100-118 | What is shown after an update is what was shown before overlaid by the incoming values, secrets as the placeholder. |
| Settings.OpensToPlaceholderIff | internal/indexer/registry/manage.go:203-239 | For an add and any number of updates after it, each with its own classification and nonces: a setting opens to the text `<redacted>` if and only if the add gave it that value and no update has written it since. |
| Settings.UpdatedOpensToPlaceholderIff | internal/indexer/registry/manage.go:219-239 | For one update of any rows: if and only if it is the untouched stored row, and that opened to it. |
| Settings.PlaceholderIsStored | internal/indexer/registry/manage.go:243-252 | The case exists: adding a secret with that value stores a sealed row that opens to it. |
| Replacement.ExpandDotNetReplacement | internal/indexer/cardigann/regexadapter/replace.go:85-100 | The scanning loop writes the text the replacement's tokens stand for. |
| Replacement.WriteReplacementToken | internal/indexer/cardigann/regexadapter/replace.go:104-125 | Writes the text of the token at a dollar sign and moves past exactly its source. |
| Replacement.WriteBracedGroup | internal/indexer/cardigann/regexadapter/replace.go:147-161 | The same for a braced group, an unclosed brace being literal. |
| Replacement.WriteNumberedGroup | internal/indexer/cardigann/regexadapter/replace.go:169-181 | The same for a maximal run of digits. |
| Replacement.FindGroupByName | internal/indexer/cardigann/regexadapter/replace.go:60-70 | A name resolves to the first group of that name, and otherwise, when it is all digits, to the group of that number. |
| Replacement.AtoiDigits | internal/indexer/cardigann/regexadapter/replace.go:185-194 | The loop computes the decimal value, saturating past 2^20. |
| Replacement.SaturationIsHarmlessIff | internal/indexer/cardigann/regexadapter/replace.go:163-194 | For every match, digit runs of any length resolve as their true decimal value if and only if there are at most 2^20 groups. |
| Replacement.NumberedStands | internal/indexer/cardigann/regexadapter/replace.go:169-181 | For every match with at most 2^20 groups: a dollar sign and a maximal run of digits expand to the group of that number, or to themselves when there is none, in front of whatever follows. |
| Replacement.GroupNumberStands | internal/indexer/cardigann/regexadapter/replace.go:169-181 | In particular for every number written in decimal. |
| Replacement.BracedStands | internal/indexer/cardigann/regexadapter/replace.go:147-161 | A name in braces expands to the first group of that name; else, if it is all digits, to the group of that number; else to itself. |
| Replacement.UnclosedStands | internal/indexer/cardigann/regexadapter/replace.go:147-161 | An opening brace that is never closed stands for itself. |
| Replacement.SpecialsStand | internal/indexer/cardigann/regexadapter/replace.go:128-143 | Each special reference expands to what it names. |
| Replacement.DollarStands | internal/indexer/cardigann/regexadapter/replace.go:104-125 | Two dollar signs stand for one, and one that starts no reference for itself. |
| Replacement.NextTokenIsThere | internal/indexer/cardigann/regexadapter/replace.go:104-125 | Every step advances: the text starts with the source of the token read from it. |
| Replacement.NumberedIsThere | internal/indexer/cardigann/regexadapter/replace.go:169-181 | A numbered token is the longest run of digits. |
| Replacement.TokensAreLossless | internal/indexer/cardigann/regexadapter/replace.go:85-100 | The sources of the tokens, concatenated, are the replacement string. |
| Replacement.NoDollarIsLiteral | internal/indexer/cardigann/regexadapter/replace.go:85-100 | Text without a dollar sign expands to itself, for every match. |
| Replacement.DoubledExpandsToText | internal/indexer/cardigann/regexadapter/replace.go:104-125 | Doubling every dollar sign of any text and expanding gives that text back, for every match. |
| Replacement.ExpansionDependsOnLookups | internal/indexer/cardigann/regexadapter/replace.go:60-70 | The expansion depends on the group names only through which group each name finds. |
| Replacement.NameIndexFinds | internal/indexer/cardigann/regexadapter/replace.go:60-70 | Looking a name up finds the first group of that name, and nothing exactly when the name is empty or no group has it. |
| Splice.ReplaceRE2 | internal/indexer/cardigann/regexadapter/replace.go:230-245 | The byte-indexed loop replaces every match by its expansion and keeps the text between them. |
| Splice.ReplaceRegexp2 | internal/indexer/cardigann/regexadapter/replace.go:279-303 | The rune-indexed loop does the same over runes, returns the input when nothing matches, and reports a timeout instead of a truncated text. |
| Splice.Re2MatchView | internal/indexer/cardigann/regexadapter/replace.go:248-270 | The view of a byte match: the text around it, each group's text, empty for one that did not take part, and the last that did. |
| Splice.Regexp2MatchView | internal/indexer/cardigann/regexadapter/replace.go:200-226 | The view of a rune match, likewise. |
| Splice.SplicesAgree | internal/indexer/cardigann/regexadapter/replace.go:230-303 | On valid UTF-8, for every ordered list of matches that do not overlap, given to one loop as byte offsets and to the other as the corresponding rune offsets, the two loops produce the same text, with the groups named alike, or with each unnamed group named by its number for the second engine. |
| Splice.SameNamesResolveAlike | internal/indexer/cardigann/regexadapter/replace.go:60-70 | A group resolves alike whether an unnamed group has no name or its number for a name. |
| Splice.OffsetsAreTable | internal/indexer/cardigann/regexadapter/replace.go:279-303 | The byte offset of every rune cuts the encoded text where the rune slice is cut. |
| Splice.SurroundingsReassemble | internal/indexer/cardigann/regexadapter/replace.go:128-143 | The special references before, at and after a match make up the input, as the whole-input reference does. |
| Splice.LastCaptureIs | internal/indexer/cardigann/regexadapter/replace.go:248-270 | The last-group reference stands for the text of the capturing group after which none took part. |
| Splice.NumberedOnMatch | internal/indexer/cardigann/regexadapter/replace.go:248-270 | For a match by byte offsets, `$n` is the text between the offsets of group n, or nothing when it took no part. |
| Splice.LastGroupOnMatch | internal/indexer/cardigann/regexadapter/replace.go:248-270 | And `$+` that of the last numbered group that took part, or nothing when none did. |
| Splice.IdentityReplacements | internal/indexer/cardigann/regexadapter/replace.go:60-161 | For every match, `$&` and `$0` expand to the match, and `${0}` to the first group named "0", or to the match when no group is. |
| Splice.IdentitySplice | internal/indexer/cardigann/regexadapter/replace.go:230-245 | With `$&` or `$0` as the replacement every text comes out unchanged, whatever the groups are called. |
| Splice.BracedZeroSpliceIff | internal/indexer/cardigann/regexadapter/replace.go:60-70 | With `${0}`, for given group names, every text and list of matches comes out unchanged if and only if no group is named "0" or the whole match is. |
| Splice.BracedZeroLoses | internal/indexer/cardigann/regexadapter/replace.go:60-70 | For all other group names there is a text of one byte that comes out empty. |
| Splice.NamedZeroIsTaken | internal/indexer/cardigann/regexadapter/replace.go:60-70 | An example: the pattern `(?P<0>a)b` turns "ab" into "a", as a name is tried before a number. |
| XmlText.HasInvalidXmlChar | internal/torznab/xml.go:65-74 | Finds exactly whether some malformed byte or character of the stripped set is there. |
| XmlText.SanitizeXmlText | internal/torznab/xml.go:47-61 | The loop with its fast path computes the text without its malformed bytes and the characters of the stripped set. |
| XmlText.StripLoop | internal/torznab/xml.go:51-60 | The loop alone computes the same, so the early return is only a shortcut. |
| XmlText.SanitizedDecodes | internal/torznab/xml.go:47-105 | The output is valid UTF-8 and is exactly the decodable scalars of the input outside Jackett's set, in order. |
| XmlText.SanitizedIsLegal | internal/torznab/xml.go:76-105 | The output holds exactly the characters of the input that section 2.2 of XML 1.0 allows, without U+007F to U+009F and U+FEFF, in order: nothing illegal, and nothing else lost. |
| XmlText.FixedPoints | internal/torznab/xml.go:47-105 | A text is unchanged if and only if it is valid UTF-8 without characters of that set; sanitizing twice is sanitizing once. |
| XmlText.FastPathIsExact | internal/torznab/xml.go:47-50 | The early return is taken exactly when the loop would build the input itself. |
| Utf8.ValidIsEncoded | internal/torznab/xml.go:76-85 | The decoder the sanitizer relies on finds no malformed byte exactly in the encodings of scalar sequences (section 4 of RFC 3629). |
| Utf8.DecodeEncoded | internal/torznab/xml.go:76-85 | Decoding the encoding of a scalar gives it back, whatever follows; an encoded replacement character is not taken for a malformed byte. |
| Utf8.EncodedForms | internal/torznab/xml.go:76-85 | The encoding of a scalar has the length, the lead byte and the bits that section 3 of RFC 3629 gives it. |
| XmlTree.NamespaceDecls | internal/indexer/cardigann/selector/xml.go:81-98 | The declarations of an element, the last of a URI winning. |
| XmlTree.DeclaredByLast | internal/indexer/cardigann/selector/xml.go:81-98 | A URI has a prefix exactly when some attribute of the element declares it, and then the prefix of the last that does. |
| XmlTree.QualifyName | internal/indexer/cardigann/selector/xml.go:118-131 | The scan from the innermost scope outwards computes the qualified name. |
| XmlTree.QualifiedByInnermost | internal/indexer/cardigann/selector/xml.go:118-131 | A name in a declared namespace takes the prefix of the innermost scope that declares it. |
| XmlTree.UndeclaredIsLiteral | internal/indexer/cardigann/selector/xml.go:118-131 | A name no scope in force declares keeps its space literally. |
| XmlTree.ElementAttrs | internal/indexer/cardigann/selector/xml.go:102-111 | Attributes that are not declarations, in order, with qualified names. |
| XmlTree.AttrStands | internal/indexer/cardigann/selector/xml.go:102-111 | A node has one attribute for each that declares nothing, at its place among those, with its value and its qualified name. |
| XmlTree.Builder.StartElement | internal/indexer/cardigann/selector/xml.go:39-76 | Opens an element under the current node, and keeps one scope for every open element. |
| XmlTree.Builder.EndElement | internal/indexer/cardigann/selector/xml.go:39-76 | Closes the current element and its scope; an end with nothing open changes nothing. |
| XmlTree.Builder.CharData | internal/indexer/cardigann/selector/xml.go:39-76 | Appends a text node to the current node. |
| XmlTree.XmlToNode | internal/indexer/cardigann/selector/xml.go:39-76 | For every token stream, balanced or not, the tree built by moving a current node about and appending in place is the one a recursive descent over the tokens defines; a malformed document gives none. |
| XmlTree.ResumeAfterToken | internal/indexer/cardigann/selector/xml.go:39-76 | One token of the iterative builder is one step of the recursive definition, from any open elements. |
| XmlTree.RepresentedForest | internal/indexer/cardigann/selector/xml.go:39-76 | A node table that represents a list of open elements holds, once the tokens end, the forest they resume to. |
| XmlTree.SerializedIsStream | internal/indexer/cardigann/selector/xml.go:39-76 | For a balanced stream, writing the tree out again gives the element and text tokens in order. |
| XmlTree.RepairedParsesAlike | internal/indexer/cardigann/selector/xml.go:39-76 | A stream that is not balanced makes the tree of the balanced one without the end tags that close nothing and with those that are missing at its end. |
| XmlNames.TreeSaysStream | internal/indexer/cardigann/selector/xml.go:39-111 | For every stream, the tree written out says token by token what that balanced stream says: each element is called by its local name under the prefix of the innermost declaration of its URI, its own included; each attribute that declares nothing has its place, its value and its name, told the same way; and each text is where it was. |
| XmlTree.SiblingsDoNotLeak | internal/indexer/cardigann/selector/xml.go:81-131 | What a finished element declares does not change what its later siblings parse to (section 6.1 of Namespaces in XML 1.0). |
| XmlNames.NameKeptIff | internal/indexer/cardigann/selector/xml.go:23-25 | For every nesting of declarations: an element or attribute name comes back as it was written if and only if it is an unprefixed attribute, or the innermost element that declares the URI its prefix is bound to declares it last under that prefix. (A prefix bound to nothing is looked up as a URI.) |
| XmlNames.OnePrefixKeepsNames | internal/indexer/cardigann/selector/xml.go:23-25 | So every prefixed element name is kept where no URI is declared under two prefixes. |
| XmlNames.FirstPrefixIsLost | internal/indexer/cardigann/selector/xml.go:81-98 | And not otherwise: with two prefixes for one URI on an element, `a:x` comes back as `b:x`. |
| XmlNames.XmlPrefixIsExpanded | internal/indexer/cardigann/selector/xml.go:118-131 | And the reserved prefix `xml`, which needs no declaration (section 3 of Namespaces in XML 1.0), comes back as its URI unless that is declared. |
| JsonPath.SplitBrackets | internal/indexer/cardigann/selector/jsonpath.go:132-148 | The name before the first bracket, and the texts of the bracket pairs that follow it without a gap. |
| JsonPath.TokenizePath | internal/indexer/cardigann/selector/jsonpath.go:105-114 | The tokens of the dotted segments, in order. |
| JsonPath.AppendSegmentTokens | internal/indexer/cardigann/selector/jsonpath.go:118-127 | The tokens of one segment: its name, unless empty, then its subscripts. |
| JsonPath.ResolvePath | internal/indexer/cardigann/selector/jsonpath.go:74-91 | The loop walks the tokens of the path and fails at the first that leads nowhere. |
| JsonPath.TokensOfJoined | internal/indexer/cardigann/selector/jsonpath.go:74-127 | The tokens of `p.q` are those of `p` followed by those of `q`, when no white space meets the dot and `q` does not start with `$`. |
| JsonPath.PathsCompose | internal/indexer/cardigann/selector/jsonpath.go:74-175 | Under that condition, resolving `p.q` is resolving `p` and then `q` in the result, failing when either fails. |
| JsonPath.SubscriptIsSegment | internal/indexer/cardigann/selector/jsonpath.go:105-157 | `name[i]` and `name.i` resolve identically on every value, for a plain name and subscript. |
| JsonPath.NameLeads | internal/indexer/cardigann/selector/jsonpath.go:149-175 | A name that is no number leads to the field of an object, and nowhere from any other value. |
| JsonPath.NumberLeads | internal/indexer/cardigann/selector/jsonpath.go:149-175 | A number, as a segment or a subscript, leads to the item of an array with that index from the start, and nowhere when it is negative, past the end, or the value is no array. |
| JsonPath.ItemLeads | internal/indexer/cardigann/selector/jsonpath.go:118-175 | A name with a subscript leads to that item of that field. |
| JsonPath.SegmentReads | internal/indexer/cardigann/selector/jsonpath.go:118-148 | The steps of a name with any number of subscripts are the name and every subscript in turn. |
| JsonPath.RootLeads | internal/indexer/cardigann/selector/jsonpath.go:74-81 | The root mark, alone or in front of a segment, makes no difference. |
| JsonSelector.ClosingParen | internal/indexer/cardigann/selector/jsonpseudo.go:43-50 | The first parenthesis that ends the selector or is followed by a colon. |
| JsonSelector.ReadFilter | internal/indexer/cardigann/selector/jsonpseudo.go:17-38 | One filter from the text at a colon, or none when it is not one. |
| JsonSelector.ParseJsonSelector | internal/indexer/cardigann/selector/jsonpseudo.go:17-38 | The loop over the shrinking text reads the path and the filters in order, and stops at the first part that is no filter. |
| JsonSelector.FilterKeysAreShorter | internal/indexer/cardigann/selector/jsonpseudo.go:87-115 | Every filter's key is shorter than the selector it comes from, which is why nested evaluation ends. |
| JsonSelector.PrintedParseIsPrefix | internal/indexer/cardigann/selector/jsonpseudo.go:17-38 | For every selector, what was parsed, printed, is a prefix of it: nothing read is lost. |
| JsonSelector.RoundTripIff | internal/indexer/cardigann/selector/jsonpseudo.go:17-38 | A path and filters, printed and parsed, come back if and only if the path has no colon, no operation an opening parenthesis, and no key a closing parenthesis followed by a colon. |
| JsonSelector.ParsedIsClean | internal/indexer/cardigann/selector/jsonpseudo.go:17-38 | What the parser reads always meets that condition on its filters. |
| JsonSelector.PrintedSelectorMeans | internal/indexer/cardigann/selector/jsonpseudo.go:65-83 | A field selector resolves its path and gives it exactly when the value there passes every filter. |
| JsonSelector.NestedKeyMeans | internal/indexer/cardigann/selector/jsonpseudo.go:87-115 | A filter whose key is itself a selector holds exactly when that selector's path resolves and its filters pass. |
| JsonSelector.ResolveRowsArray | internal/indexer/cardigann/selector/jsonpath.go:16-42 | The rows a selector stands for, or none when its path is no array. |
| JsonSelector.RowsArePassing | internal/indexer/cardigann/selector/jsonpath.go:16-66 | The rows of a path and filters are the rows of the path that pass all of them, in order. |
| JsonSelector.HasKeeps | internal/indexer/cardigann/selector/jsonpseudo.go:89-90 | The rows of a path with `:has(k)` are, in order, exactly its rows in which `k` leads somewhere. |
| JsonSelector.NotKeeps | internal/indexer/cardigann/selector/jsonpseudo.go:91-92 | With `:not(k)`, exactly the others. |
| JsonSelector.ContainsKeeps | internal/indexer/cardigann/selector/jsonpseudo.go:93-98 | With `:contains(t)`, exactly those whose text has `t` at some index. |
| JsonSelector.UnknownKeeps | internal/indexer/cardigann/selector/jsonpseudo.go:99-101 | With any other operation, all of them. |
| JsonSelector.NestedKeeps | internal/indexer/cardigann/selector/jsonpseudo.go:108-115 | With a selector for a key, `has` and `not` go by whether its path leads to a value that passes its conditions. |
| JsonSelector.BareRowsAre | internal/indexer/cardigann/selector/jsonpath.go:16-58 | The rows of a bare path are the items of the array it leads to. |
| JsonSelector.CanonicalIs | internal/indexer/cardigann/selector/jsonpath.go:177-210 | The text of a scalar, and of an array as its items' texts joined by commas. |
| JsonSelector.RowsFilterInTurn | internal/indexer/cardigann/selector/jsonpath.go:16-66 | The rows for a path and filters F1 then F2 are the rows for the path and F1, filtered by F2, in order. |
| Categories.StandardIsGood | internal/indexer/cardigann/mapper/categories.go:28-100 | The standard table has ascending four-digit ids and holds the family root of each of its rows. |
| CategoryMapper.CustomIdIsCustomIff | internal/indexer/cardigann/mapper/mapper.go:225-232 | A synthesised id is a custom one if and only if the tracker id is no number, or is neither negative nor so large that adding the offset wraps. |
| CategoryMapper.CustomIdIs | internal/indexer/cardigann/mapper/mapper.go:225-232 | A tracker id that is a number gives the custom id that much past the offset, and any other its hash past it. |
| CategoryMapper.Builder.Advertise | internal/indexer/cardigann/mapper/mapper.go:202-209 | Files the category and its family root under their ids. |
| CategoryMapper.Builder.AddMapping | internal/indexer/cardigann/mapper/mapper.go:188-191 | Appends the entry and advertises the category. |
| CategoryMapper.Builder.AddCustom | internal/indexer/cardigann/mapper/mapper.go:194-197 | Appends the custom entry and files the custom category. |
| CategoryMapper.Builder.MapCategories | internal/indexer/cardigann/mapper/mapper.go:157-166 | Maps the entries of the category map in the order visited, or reports the first unknown name. |
| CategoryMapper.Builder.MapCategoryMappings | internal/indexer/cardigann/mapper/mapper.go:171-184 | Maps the listed entries in order, each with its custom category when it has a description, or reports the first unknown name. |
| CategoryMapper.Builder.SortedAdvertised | internal/indexer/cardigann/mapper/mapper.go:211-218 | Lists the advertised set ascending by id, whatever order its map is visited in. |
| CategoryMapper.OneListing | internal/indexer/cardigann/mapper/mapper.go:211-218 | A set has only one such list. |
| CategoryMapper.Build | internal/indexer/cardigann/mapper/mapper.go:125-153 | The capabilities of a definition, or the first unknown name. |
| AdvertisedSet.AdvertisedIff | internal/indexer/cardigann/mapper/mapper.go:157-209 | For every definition with plain ids: the advertised ids are exactly those an entry maps to and the roots of their families; standard categories are the table's, each with its root; a custom one carries the description its id was mapped with last. |
| AdvertisedSet.CategoriesFailIff | internal/indexer/cardigann/mapper/mapper.go:157-166 | Mapping the category map fails exactly when one of its names is unknown. |
| AdvertisedSet.MappingsFailIff | internal/indexer/cardigann/mapper/mapper.go:171-184 | Mapping the list fails exactly when one of its names is unknown. |
| CategoryDefinitions.EntriesIff | internal/indexer/cardigann/mapper/mapper.go:157-199 | The entries of every definition that maps are exactly those its pairs and mappings record: the tracker id, the description, and the row's id or, with a description, the custom id. |
| AdvertisedSet.OrderDoesNotShow | internal/indexer/cardigann/mapper/mapper.go:157-184 | Two visits of the same category map in different orders fail or succeed alike, advertise the same set and record the same entries, each as often. |
| CategoryTree.BuildCategoryTree | internal/torznab/categorytree.go:40-68 | Making nodes, indexing them by name, appending to the node an index lookup finds and sorting in place computes the tree of the list. |
| CategoryTree.SortCategoryTree | internal/torznab/categorytree.go:72-79 | Sorts every node's subcategories in place and arranges the nodes by their keys, stably. |
| CategoryConservation.TreeHoldsPlaced | internal/torznab/categorytree.go:40-68 | For every list whatsoever, a category occurs in the tree as often as in the list when it is a top-level one or its root is a standard top-level one, and not at all otherwise. |
| CategoryConservation.TreeHoldsHoused | internal/torznab/categorytree.go:40-68 | For every advertised set: its tree holds, once each and nothing else, the categories that are top-level or whose family root's name is that of an advertised standard category. |
| CategoryConservation.EachCategoryOnceIff | internal/torznab/categorytree.go:40-68 | So it holds every advertised category once if and only if all of them are such. |
| CategoryConservation.EachCategoryOnce | internal/torznab/categorytree.go:40-68 | What a definition with plain ids advertises always is. |
| CategoryConservation.SubcatsUnderTheirRoot | internal/torznab/categorytree.go:53-60 | For every list, a subcategory stands under the standard category its name starts with. |
| CategoryConservation.KeyArrangesIff | internal/torznab/categorytree.go:87-92 | The string key arranges two top-level categories as documented (standard ones by id, then custom ones by name, ties by id) if and only if they are not two standard ones whose decimal ids are in the other order. |
| CategoryConservation.KeyArranges | internal/torznab/categorytree.go:81-86 | Four-digit ids never are. |
| CategoryConservation.TreeByKey | internal/torznab/categorytree.go:72-92 | For every list ascending by id, the tree is in key order with ties by id, and each root's subcategories ascend by id. |
| CategoryConservation.TreeIsOrderedIff | internal/torznab/categorytree.go:72-92 | The whole tree is in the documented order if and only if the decimal ids of its standard roots are in the order of the ids. |
| CategoryConservation.TreeIsOrdered | internal/torznab/categorytree.go:72-92 | For what a definition with plain ids advertises they are. |
| CategoryDefinitions.DefinitionTreeIff | internal/torznab/categorytree.go:40-92 | All of this, with its exact conditions, for every definition that maps on the standard table, whatever its tracker ids. |
| CategoryDefinitions.DefinitionTree | internal/torznab/categorytree.go:40-92 | With plain ids the conditions hold. |
| CategoryDefinitions.NegativeIdIsDropped | internal/indexer/cardigann/mapper/mapper.go:171-184 | The first condition can fail: the tracker id -1 with a description holding a slash gives an advertised category that the tree drops. |
| CategoryDefinitions.NegativeIdIsMisplaced | internal/torznab/categorytree.go:87-92 | So can the second: the tracker id -50000 gives the key "50000", which sorts before the standard root 8000. |
| CategoryDefinitions.NegativeIdIsKept | internal/indexer/cardigann/mapper/mapper.go:225-232 | Neither fails for every id that is not plain: the tracker id -1 with a description without a slash does no harm. |
| CategoryQuery.AdvertisedParentOf | internal/indexer/cardigann/mapper/querycats.go:57-64 | The search finds the first advertised parent with an id. |
| CategoryQuery.ExpandQueryCategories | internal/indexer/cardigann/mapper/querycats.go:27-51 | The loops compute each queried id followed by the children of the advertised parent it is, first occurrences only. |
| CategoryQuery.TrackersForNewznab | internal/indexer/cardigann/mapper/querycats.go:72-96 | The loops compute the tracker ids of the entries that are not blank and map to a wanted id, in entry order, first occurrences only. |
| CategoryQuery.MapTorznabCapsToTrackers | internal/indexer/cardigann/mapper/querycats.go:13-18 | A query returns the tracker ids of its expansion; an empty one returns none. |
| CategoryQuery.ExpandedIff | internal/indexer/cardigann/mapper/querycats.go:27-64 | An id is in the expansion exactly when it is queried or is an advertised child of an advertised parent that is. |
| CategoryQuery.ReturnedIff | internal/indexer/cardigann/mapper/querycats.go:13-96 | A tracker id is returned exactly when an entry that is not blank maps it to such an id. |
| CategoryQuery.QueriedIff | internal/indexer/cardigann/mapper/querycats.go:27-64 | For every advertised set: a query covers an id if and only if it holds the id, or the id of an advertised parent below the custom offset whose name the standard subcategory advertised under the id starts with. |
| CategoryDefinitions.DefinitionReturnsIff | internal/indexer/cardigann/mapper/querycats.go:13-96 | For every definition that maps, whatever its tracker ids, and every query: exactly the tracker ids that are not blank and that some mapping gives such an id are returned. |
| CategoryDefinitions.OwnReturns | internal/indexer/cardigann/mapper/querycats.go:13-96 | So querying a mapping's own category returns its tracker id, for every definition. |
| CategoryDefinitions.OneIdReaches | internal/indexer/cardigann/mapper/querycats.go:39-48 | And querying another id alone reaches a mapping's category exactly when the guards of the expansion hold for the two. |
| CategoryQuery.ReturnedInEntryOrder | internal/indexer/cardigann/mapper/querycats.go:72-96 | Nothing is returned twice, and results come in the order of their first wanted entries. |
| CategoryQuery.WantedInOrder | internal/indexer/cardigann/mapper/querycats.go:72-96 | The wanted tracker ids are those of the entries that are not blank and map to a wanted id, in entry order. |
| CategoryQuery.BlankIff | internal/indexer/cardigann/mapper/mapper.go:259-262 | A tracker id is blank exactly when it is all white space. |
| CategoryQuery.Monotone | internal/indexer/cardigann/mapper/querycats.go:13-96 | A query with more ids, in any order and with any repetition, returns no less. |
| CategoryDefinitions.OwnAndRootReturn | internal/indexer/cardigann/mapper/querycats.go:13-96 | For every mapping of a definition with plain ids on the standard table, querying its category or its family's root returns its tracker id. |
| CategoryDefinitions.NegativeIdHidesFamily | internal/indexer/cardigann/mapper/mapper.go:225-232 | The restriction is needed for the root: the tracker id -92000 takes the id of the family Other, and querying that no longer returns the tracker ids mapped to its subcategories. |
| CategoryDefinitions.VisitsReturnTheSame | internal/indexer/cardigann/mapper/mapper.go:157-166 | Two visits of one category map list the same categories, and return the same tracker ids for every query. |
| CategoryDefinitions.VisitsReturnInTheirOrder | internal/indexer/cardigann/mapper/querycats.go:72-96 | In which order they are returned does depend on the visit: two visits of one map return "1", "2" and "2", "1" for one query. |
| CategoryQuery.MapTrackerCatToNewznab | internal/indexer/cardigann/mapper/mapper.go:92-103 | The ids the entries of a tracker id map to, in entry order; none for a blank one. |
| CategoryQuery.FoundInOrder | internal/indexer/cardigann/mapper/mapper.go:92-103 | They are those of its entries that are not blank, in order and as often as they stand. |
| CategoryQuery.ForwardThenBack | internal/indexer/cardigann/mapper/mapper.go:92-103 | An id found for a tracker id, queried alone, returns that tracker id up to case. |
| CategoryQuery.BackThenForward | internal/indexer/cardigann/mapper/querycats.go:72-96 | A tracker id a query returns maps to an id the query covers. |
| FormEncoding.EscapeInverse | internal/indexer/cardigann/search/request.go:245-256 | Unescaping undoes escaping, for every byte string (section 2.1 of RFC 3986, a space as a plus sign per section 17.13.4 of HTML 4.01). |
| FormEncoding.EscapeAlphabet | internal/indexer/cardigann/search/request.go:245-256 | Escaped text holds only unreserved bytes, percent signs and plus signs. |
| FormEncoding.EscapedBytes | internal/indexer/cardigann/search/request.go:245-256 | A text is escaped byte by byte: letters, digits and `-._~` as they are, a space as a plus sign, any other byte as a percent sign and two upper-case hexadecimal digits. |
| FormEncoding.PathEscapeInverse | internal/indexer/cardigann/search/request.go:110-112 | Path escaping emits no plus sign and is undone by unescaping. |
| FormEncoding.PathEscapedByte | internal/indexer/cardigann/search/request.go:110-112 | The same, with a space as `%20`. |
| FormEncoding.EncodeOrdered | internal/indexer/cardigann/search/request.go:245-256 | The loop writes the pairs in order, joined by ampersands. |
| FormEncoding.EncodedIs | internal/indexer/cardigann/search/request.go:245-256 | A pair is its key, an equals sign and its value, and pairs are joined by ampersands. |
| FormEncoding.FormRoundTrip | internal/indexer/cardigann/search/request.go:245-256 | Splitting and unescaping gives back the same pairs in the same order, for all keys and values. |
| FormEncoding.Url.AppendQuery | internal/indexer/cardigann/search/request.go:262-277 | Updates the query in place: untouched without pairs, the pairs alone when it was empty, and otherwise itself, an ampersand and the pairs. |
| FormEncoding.AppendedQueryParses | internal/indexer/cardigann/search/request.go:262-277 | The old query stays in front byte for byte, and the new one parses to its pairs followed by the added ones. |
| SearchRequest.SplitRaw | internal/indexer/cardigann/search/request.go:209-219 | The loop computes the pairs of a raw fragment, without those of empty keys. |
| SearchRequest.FragmentSplits | internal/indexer/cardigann/search/request.go:209-219 | A fragment spelt from pairs with plain keys and values splits into those pairs, in order. |
| SearchRequest.RawPart | internal/indexer/cardigann/search/request.go:209-219 | A part without a key adds nothing, and one without an equals sign is a key with an empty value. |
| SearchRequest.RawJoined | internal/indexer/cardigann/search/request.go:209-219 | Fragments joined by an ampersand add their pairs in turn. |
| SearchRequest.RenderInputs | internal/indexer/cardigann/search/request.go:188-205 | The pairs of the rendered inputs in definition order, blank ones dropped unless allowed, raw ones split; or the first that does not render. |
| SearchRequest.BuildInputs | internal/indexer/cardigann/search/request.go:152-175 | The inherited inputs, unless the path declines them, and then the path's own, as if they were one list. |
| SearchRequest.Inherits | internal/indexer/cardigann/search/request.go:152-175 | A path sends the search's inputs unless it says that it does not inherit them. |
| SearchRequest.InputIsSent | internal/indexer/cardigann/search/request.go:188-205 | Whatever stands around it, a raw input adds the pairs of its fragment, a blank one nothing unless empty inputs are allowed, and any other its key and text, in its place. |
| SearchRequest.InputFails | internal/indexer/cardigann/search/request.go:188-205 | The first input that does not render fails the request with its error. |
| SearchRequest.AssembleRequest | internal/indexer/cardigann/search/request.go:224-239 | A post carries the encoded pairs as its body, a get appends them to its query. |
| SearchRequest.RequestCarriesInputs | internal/indexer/cardigann/search/request.go:152-277 | End to end: the body of a post parses to exactly the inherited pairs and then the path's own, and so does the query of a get after whatever well-formed query the path had. |
| Magnet.InfoHashToMagnet | internal/indexer/cardigann/normalizer/synth.go:28-42 | The builder loop writes the hash as it is and the title and trackers form-encoded; nothing when the hash or the title is blank. |
| Magnet.MagnetSpells | internal/indexer/cardigann/normalizer/synth.go:28-42 | The magnet, spelt out. |
| Magnet.MagnetHolds | internal/indexer/cardigann/normalizer/synth.go:28-42 | A reader of the magnet of a plain hash finds the hash, the title and every tracker, in order. |
| Magnet.RoundTripIff | internal/indexer/cardigann/normalizer/synth.go:28-76 | Reading the hash back from its magnet gives it back if and only if there was none, or neither hash nor title is blank and the hash holds none of `#`, `%`, `&`, `+`, `:` and `;`. Every alphanumeric hash qualifies. |
| Magnet.ReadBackParts | internal/indexer/cardigann/normalizer/synth.go:48-76 | In every case, what is read back is nothing or a segment of what the hash unescapes to before it stops being the argument. |
| Magnet.Release.Synthesize | internal/indexer/cardigann/normalizer/normalizer.go:324-331 | Fills in the missing link from the other in place, gated on the indexer type in one direction. |
| Magnet.SynthesizedOnce | internal/indexer/cardigann/normalizer/normalizer.go:324-331 | Doing so twice is doing it once, for every release and indexer type. |
| Magnet.GivenIsKept | internal/indexer/cardigann/normalizer/normalizer.go:324-331 | A magnet already there and a hash that is not blank are kept, and a private indexer gets no magnet. |
| Magnet.HashIsRead | internal/indexer/cardigann/normalizer/normalizer.go:324-331 | A blank hash is filled in from a given magnet: what follows the last colon of its first `xt` argument. |
| Magnet.SynthesizedAgrees | internal/indexer/cardigann/normalizer/normalizer.go:324-331 | Where a magnet is synthesized, hash and magnet agree afterwards exactly for a plain hash. |
| SlashEscapes.RewriteSlashEscapes | internal/indexer/cardigann/loader/loader.go:75-93 | The loop that counts backslashes and truncates its output computes the rewritten text. |
| SlashEscapes.OddRunIsPending | internal/indexer/cardigann/loader/loader.go:75-93 | An odd run of backslashes is exactly a pair left open when reading pairwise from the left. |
| SlashEscapes.RewriteActsOnTokens | internal/indexer/cardigann/loader/loader.go:75-93 | The tokens of the output are the tokens of the input with each escaped slash made a plain one. |
| SlashEscapes.PairInPlace | internal/indexer/cardigann/loader/loader.go:75-93 | Where no backslash is open, an escaped slash becomes a slash and any other escape stays, and the texts around it are rewritten by themselves. |
| SlashEscapes.CharacterInPlace | internal/indexer/cardigann/loader/loader.go:75-93 | And so does any other character. |
| SlashEscapes.RewriteIsComplete | internal/indexer/cardigann/loader/loader.go:75-93 | No escaped slash remains, and rewriting twice is rewriting once. |
| SlashEscapes.UnchangedIff | internal/indexer/cardigann/loader/loader.go:75-93 | A text is unchanged exactly when it escapes no slash. |
| SlashEscapes.WrittenTokens | internal/indexer/cardigann/loader/loader.go:75-93 | Reading a text into tokens loses nothing. |
| SlashEscapes.ReadBack | internal/indexer/cardigann/loader/loader.go:75-93 | Every token list that a text can have is read back from its text. |
| DateLayout.NetTokensAreGood | internal/indexer/cardigann/dateparse/tokens.go:46-86 | Each letter's rows of the table stand together, from its longest form to its shortest, and without a gap. |
| DateLayout.MatchToken | internal/indexer/cardigann/dateparse/tokens.go:130-137 | The search returns the first row that prefixes the text. |
| DateLayout.MatchIsLongest | internal/indexer/cardigann/dateparse/tokens.go:130-137 | That row is the longest that does. |
| DateLayout.MatchTakes | internal/indexer/cardigann/dateparse/tokens.go:130-137 | A row is found exactly when the run of its letter is long enough, and it takes as many of it as the table has a form for. |
| DateLayout.TranslateLayout | internal/indexer/cardigann/dateparse/tokens.go:104-127 | The scanning loop computes the translation, on the standard table. |
| DateLayout.RowTranslates | internal/indexer/cardigann/dateparse/tokens.go:104-127 | A row's own run of its letter translates to its Go reference. |
| DateMeaning.RowAgreesIff | internal/indexer/cardigann/dateparse/tokens.go:18-86 | For every row of the table and every date: the Go element reads what the .NET specifier writes exactly when the row agrees on the date, which is always but for `yyy` (from year 1000), `y` (where the year ends in 10 to 99), `t` (never), fractions in `f` (never) and in `F` (only when there is nothing to write). |
| DateMeaning.LayoutAgreesIff | internal/indexer/cardigann/dateparse/tokens.go:104-127 | So for every layout that translates and every date, piece by piece, what .NET writes is read exactly when all its rows agree. |
| DateLayout.PiecesTile | internal/indexer/cardigann/dateparse/tokens.go:104-127 | What is matched or passed through tiles the input. |
| DateLayout.FailsIff | internal/indexer/cardigann/dateparse/tokens.go:104-127 | Translation fails exactly when the layout holds `g` or `Q`, or a maximal run of `z` whose length is 1 modulo 3. |
| DateLayout.LoneZMeans | internal/indexer/cardigann/dateparse/tokens.go:104-127 | The recursive form of that last condition means just that. |
| DateLayout.TranslationDistributes | internal/indexer/cardigann/dateparse/tokens.go:104-127 | Layouts that do not split a run translate piece by piece. |
| DateLayout.TranslationAroundSeparator | internal/indexer/cardigann/dateparse/tokens.go:104-127 | In particular around any literal separator. |
| RowMerge.Node.RemoveChild | internal/indexer/cardigann/selector/html.go:206-218 | Unlinking a child from the linked list leaves the others linked in order. |
| RowMerge.Node.AppendChild | internal/indexer/cardigann/selector/html.go:206-218 | Linking a detached node makes it the last child. |
| RowMerge.AppendChildren | internal/indexer/cardigann/selector/html.go:206-218 | Moving children one by one leaves the source without any and the destination with its own followed by the source's, in order. |
| RowMerge.MergeAfter | internal/indexer/cardigann/selector/html.go:184-202 | The strided loop returns the first row of every group, and leaves each row, kept or dropped, with the list of children the merge gives it. Rows need only be distinct: one may be another's child. |
| RowMerge.HeadCount | internal/indexer/cardigann/selector/html.go:184-202 | There are as many output rows as the number of rows divided by `after` + 1, rounded up. |
| RowMerge.HeadAt | internal/indexer/cardigann/selector/html.go:184-202 | Output row `g` is row `g` times `after` + 1. |
| RowMerge.KeptRow | internal/indexer/cardigann/selector/html.go:184-202 | So with `after` rows to take in, the kept row of index g is row g times `after` + 1. |
| RowMerge.AllKept | internal/indexer/cardigann/selector/html.go:184-202 | With none to take in, every row is kept. |
| RowMerge.GroupStartIs | internal/indexer/cardigann/selector/html.go:184-202 | A group starts at its number times the group size. |
| RowMerge.MergedAt | internal/indexer/cardigann/selector/html.go:184-202 | A kept row's list is the concatenation of its group's lists; a dropped row's is empty. |
| RowMerge.Conserved | internal/indexer/cardigann/selector/html.go:184-218 | No child is lost, duplicated or reordered: all the lists joined are what they were. |
| Canary.AppMeta.VerifyCanary | cmd/harbrr/serve.go:147-165 | One start: refuses when a row cannot be read, refuses or completes on a complete pair, and otherwise initialises. |
| Canary.AppMeta.InitCanary | cmd/harbrr/serve.go:168-180 | Writes the sealed text and then the key id, with a possible crash before, between or after. |
| Canary.StoredIdHasItsCanary | cmd/harbrr/serve.go:147-180 | After every sequence of starts, crashes included, a stored key id has a canary that an earlier start sealed under a key with that id. |
| Canary.CompletePairStays | cmd/harbrr/serve.go:147-180 | A complete pair is never overwritten by any later starts. |
| Canary.OtherKeysAreRefused | internal/secrets/canary.go:27-42 | Once a start has completed, no start whose key id differs ever does. |
| Canary.LaterStartsCompleteIff | internal/secrets/canary.go:27-42 | A later start completes exactly when it reads both rows, its key has the stored id, and its key opens the stored text to the known one. |
| Canary.SameKeyRestarts | internal/secrets/canary.go:19-42 | With the same key a later start that reads both rows always completes. |
| Canary.CrashDoesNotBind | cmd/harbrr/serve.go:168-180 | A crash before the second write does not bind the store to the crashed start's key: the next start takes over. A crash after it does: the next start leaves its pair and completes exactly with it. |

## Left out

- HTTP clients, cookies, login, routing, handlers, the server's lifecycle, logging and configuration loading.
- SQL text, time columns, file permissions and migrations: the store is maps with atomic transactions. A commit that reports an error but is durable is not modelled.
- Two concurrent updates of one instance: both may read before either writes, so one can be lost. The interleaved model allows such runs, but the laws of settings are stated for serial updates.
- The encryption, hashing and regular expression algorithms, the XML and YAML decoders, CSS matching and template evaluation.
- Sizes, durations and relative dates: floating point and calendar arithmetic.
- DateMeaning.LayoutAgreesIff: stated piece by piece; how Go cuts a whole translated layout into elements again is not modelled.
- The canonical text of JSON floating point numbers: numbers keep their text.
- Case-insensitive replacement and Unicode case mapping.
- Paging, deduplication, string filters and search-mode lookups, each a single pass over its input.
- FormEncoding.Url.AppendQuery: a URL that does not parse, and the parts of a URL other than its query.
- SearchRequest.AssembleRequest: headers, and the URL outside its query.
- XmlTree.XmlToNode: the nodes are an indexed table that only grows, where the original links them by pointers; aliasing of nodes is not captured.
- Categories.StandardIsGood: the rows are written family by family, the names of subcategories as root and rest; the rows and their order are those of the original table.
- Splice.SplicesAgree: where the second engine names unnamed groups by their numbers, names that are themselves numbers, and more groups than the saturation bound of 2^20, are excluded, because a number can then name another group. With equal names there is no restriction.
- The lookup by category description, which is the lookup by tracker id with another column.
- Resolving relative URLs.
