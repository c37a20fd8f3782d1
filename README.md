# Farm ESM bundle glue and runtime interop helpers, in Dafny

This project models two pieces of the Farm bundler.

**The ESM generator.** `EsmGenerate` in
`crates/plugin_bundle/src/resource_pot_to_bundle/targets/esm/generate.rs`
writes the `import` and `export` statements that join one bundle to the
bundles and external modules it depends on.

- `generate_export` sorts the re-exported names. It drops variables that tree
  shaking removed. It keeps one specifier per render name, and aliases a name
  only when it differs from its render name. It then adds the namespace
  specifier, `export * from`, and the default export, in either of its two
  forms.
- `generate_import` visits the import sources in the derived order of
  `ReferenceKind` and skips the sources that are bundles. It groups the rest by
  URL through `init_import_specify` and an `ImportItem` per URL. It filters each
  group's bindings through `used_named`. It ends with one `import` declaration
  per URL, sorted by URL.

**The runtime helpers.** The helpers inlined at the top of every emitted
script are modelled, as they appear in
`crates/compiler/tests/fixtures/script/native_top_level_await/output.js`:

- `_interop_require_default`
- `_export_star`
- `_interop_require_wildcard` and its two `WeakMap` caches
  (`_getRequireWildcardCache`)
- the `__commonJs` thunk
- the loop that tags and registers each module factory of a resource pot.

They work on a small model of JavaScript:

- a heap of objects whose own keys are kept in insertion order;
- data properties, plus the one kind of getter the helpers create, which
  reads the same key on another object;
- strict-mode assignment;
- module factories written as a short list of statements.

**Layout.**

| file | contents |
|---|---|
| `ordering.dfy` | string order, stable sorting by key, and the proof that a sorted enumeration is unique |
| `esm_types.dfy` | the bundler values |
| `esm_export.dfy`, `esm_import.dfy` | the two generator functions, each a method proved equal to a specification function, plus the lemmas about that function |
| `js_heap.dfy` | the JavaScript heap |
| `interop.dfy` | the interop helpers; the caches are fields of a `Realm` class |
| `commonjs.dfy` | the `__commonJs` thunk, a class whose captured `module` is a field |
| `register.dfy` | the registration loop |

**Two details of the code.**

- `index_is_entry` holds when a variable's module is known and is *not* an
  entry module. `EsmExport.IndexIsEntry` keeps that meaning under the code's
  name.
- A non-function module table makes the thunk call the function found under
  `Object.keys(mod)[0]`. For an empty table this key is `"undefined"`.

## Model

| member | source | states |
|---|---|---|
| `Ordering.SortByKey` | crates/plugin_bundle/src/resource_pot_to_bundle/targets/esm/generate.rs:35-37 | the result lists every element of the key set exactly once, in non-decreasing order of the sort key, whatever order the hash map yields its keys in |
| `Ordering.SortedEnumerationUnique` | crates/plugin_bundle/src/resource_pot_to_bundle/targets/esm/generate.rs:139-140 | two sorted enumerations of one set under a key that is injective on it are equal, so sorting the import sources and the URLs gives one fixed order |
| `Ordering.EnumerationSize` | crates/plugin_bundle/src/resource_pot_to_bundle/targets/esm/generate.rs:247-249 | a sequence that lists every element of a set exactly once is as long as the set is large |
| `Ordering.LexLeTotal` | crates/plugin_bundle/src/resource_pot_to_bundle/targets/esm/generate.rs:177-178 | the lexicographic order used for `String` sorting relates every two strings |
| `Ordering.LexLeAntisymmetric` | crates/plugin_bundle/src/resource_pot_to_bundle/targets/esm/generate.rs:247-249 | two strings each at most the other are equal, so URLs sort without ties |
| `Ordering.LexLeTransitive` | crates/plugin_bundle/src/resource_pot_to_bundle/targets/esm/generate.rs:247-249 | the string order is transitive |
| `Ordering.LexLeReflexive` | crates/plugin_bundle/src/resource_pot_to_bundle/targets/esm/generate.rs:177-178 | every string is at most itself |
| `Ordering.SortedList` | crates/plugin_bundle/src/resource_pot_to_bundle/targets/esm/generate.rs:247-249 | every finite set has a sorted enumeration; with an injective key it is the one every sort produces (by `SortedEnumerationUnique`) |
| `EsmExport.KeptKeys` | crates/plugin_bundle/src/resource_pot_to_bundle/targets/esm/generate.rs:46-60 | the exported keys that yield a specifier are drawn from the visited keys |
| `EsmExport.KeptKeysFacts` | crates/plugin_bundle/src/resource_pot_to_bundle/targets/esm/generate.rs:46-60 | kept keys come from the visited keys, survive tree shaking, avoid the render names already used, and have pairwise different render names |
| `EsmExport.KeptKeysSorted` | crates/plugin_bundle/src/resource_pot_to_bundle/targets/esm/generate.rs:35-60 | skipping keys keeps the order: the kept keys of sorted keys are sorted |
| `EsmExport.KeptKeysFirstLive` | crates/plugin_bundle/src/resource_pot_to_bundle/targets/esm/generate.rs:46-60 | a key is kept exactly when its variable is not removed and no earlier live key has the same render name (both directions) |
| `EsmExport.NamedExportSpecifiers` | crates/plugin_bundle/src/resource_pot_to_bundle/targets/esm/generate.rs:35-74 | the named specifiers are in ascending order of exported name, one per distinct render name, none for a removed variable; each exports the local render name, aliased to the exported name unless `index_is_entry` holds or the two names are equal |
| `EsmExport.ExportAllPlacement` | crates/plugin_bundle/src/resource_pot_to_bundle/targets/esm/generate.rs:87-96 | `export * from m` appears exactly when `source` is module `m`, the export asks for it and `m` is not CommonJS, and then it is the first statement |
| `EsmExport.NamedExportPlacement` | crates/plugin_bundle/src/resource_pot_to_bundle/targets/esm/generate.rs:117-127 | there is at most one `export { ... }`, last, present exactly when there are specifiers; it carries all of them, and `source` exactly when one was given |
| `EsmExport.DefaultExportForm` | crates/plugin_bundle/src/resource_pot_to_bundle/targets/esm/generate.rs:98-115 | a default export becomes an un-aliased specifier when `index_is_entry` holds and an `export default <render name>` statement otherwise; with no default there is neither |
| `EsmExport.CollectNamedSpecifiers` | crates/plugin_bundle/src/resource_pot_to_bundle/targets/esm/generate.rs:46-74 | the loop with `uniq_sets` returns exactly the specifiers of the kept keys, in order |
| `EsmExport.GenerateExport` | crates/plugin_bundle/src/resource_pot_to_bundle/targets/esm/generate.rs:26-130 | the keys are visited in a sorted enumeration of the named exports by exported name, and the statements are exactly the specification for that order |
| `EsmImport.RefOrderKeyIsDerivedOrder` | crates/plugin_bundle/src/resource_pot_to_bundle/targets/esm/generate.rs:139-140 | the sort key orders `ReferenceKind` as its derived `Ord` does: every bundle before every module, then by name or by module id |
| `EsmImport.RefOrderKeyInjective` | crates/plugin_bundle/src/resource_pot_to_bundle/targets/esm/generate.rs:139-140 | different import sources never tie in the sort |
| `EsmImport.AddNamedKeepsDistinct` | crates/plugin_bundle/src/resource_pot_to_bundle/targets/esm/generate.rs:180-208 | the named-import loop keeps the group's bindings one per used name, consistent with `used_named` |
| `EsmImport.AddNamespaceKeepsDistinct` | crates/plugin_bundle/src/resource_pot_to_bundle/targets/esm/generate.rs:210-217 | pushing the namespace specifier keeps that invariant |
| `EsmImport.AddDefaultKeepsDistinct` | crates/plugin_bundle/src/resource_pot_to_bundle/targets/esm/generate.rs:219-244 | the default import is skipped when its render name is already used, so the invariant holds after it |
| `EsmImport.AddSourceKeepsDistinct` | crates/plugin_bundle/src/resource_pot_to_bundle/targets/esm/generate.rs:143-245 | one source's processing keeps every group's invariant |
| `EsmImport.ImportGroupsKeepDistinct` | crates/plugin_bundle/src/resource_pot_to_bundle/targets/esm/generate.rs:143-245 | the whole loop keeps every group's invariant |
| `EsmImport.ImportGroupsUrls` | crates/plugin_bundle/src/resource_pot_to_bundle/targets/esm/generate.rs:143-175 | a URL has a group exactly when it had one already or some module source resolves to it (external id or slot name), even a source with nothing to import |
| `EsmImport.EmptySourcesKeepGroupEmpty` | crates/plugin_bundle/src/resource_pot_to_bundle/targets/esm/generate.rs:171-175 | a URL whose sources all import nothing keeps an empty specifier list |
| `EsmImport.BundleSourcesIgnored` | crates/plugin_bundle/src/resource_pot_to_bundle/targets/esm/generate.rs:146-147 | dropping every bundle source from the visited keys changes nothing |
| `EsmImport.AddNamedBindings` | crates/plugin_bundle/src/resource_pot_to_bundle/targets/esm/generate.rs:180-208 | named imports only append; each appended specifier binds the render name of one imported name, is keyed in `used_named` by that render name (uniq) or by the imported name, and has an alias only when it differs from the local name |
| `EsmImport.AddNamedComplete` | crates/plugin_bundle/src/resource_pot_to_bundle/targets/esm/generate.rs:180-208 | the named-import loop appends exactly, in order, the specifier of each entry whose used name is neither already in `used_named` nor the used name of an earlier entry, and `used_named` grows by exactly the entries' used names |
| `EsmImport.AddSpecifiersComplete` | crates/plugin_bundle/src/resource_pot_to_bundle/targets/esm/generate.rs:177-244 | one source appends its free named imports in order, then the namespace, then the default exactly when its render name is still free after the named imports, as `{name}` for a uniquely named module and as a default specifier otherwise; `used_named` grows by exactly those used names and the default's name |
| `EsmImport.DeclarationsPerGroup` | crates/plugin_bundle/src/resource_pot_to_bundle/targets/esm/generate.rs:247-264 | one `import` per group, strictly ascending by URL, each carrying its group's specifiers, and every group gets one |
| `EsmImport.FinalGroupsUrls` | crates/plugin_bundle/src/resource_pot_to_bundle/targets/esm/generate.rs:139-175 | the groups are exactly the URLs of the module sources in the import map |
| `EsmImport.ImportStatementsPerUrl` | crates/plugin_bundle/src/resource_pot_to_bundle/targets/esm/generate.rs:132-267 | the output is all `import` declarations, strictly sorted by URL, one exactly for each URL a module source resolves to |
| `EsmImport.ImportStatementsDistinctBindings` | crates/plugin_bundle/src/resource_pot_to_bundle/targets/esm/generate.rs:132-267 | no declaration binds the same used name twice |
| `EsmImport.ImportStatementsSideEffectOnly` | crates/plugin_bundle/src/resource_pot_to_bundle/targets/esm/generate.rs:171-175 | a URL whose sources are all empty still gets a bare `import "<url>"` |
| `EsmImport.InitImportSpecify` | crates/plugin_bundle/src/resource_pot_to_bundle/targets/esm/generate.rs:270-292 | the URL's group is returned, a fresh empty one when the URL was new, and the group map gains exactly that entry |
| `EsmImport.PushNamedImports` | crates/plugin_bundle/src/resource_pot_to_bundle/targets/esm/generate.rs:177-208 | the loop with `continue` computes the named-import specification |
| `EsmImport.PushNamespaceAndDefault` | crates/plugin_bundle/src/resource_pot_to_bundle/targets/esm/generate.rs:210-244 | namespace then default, where the early `continue` skips a used default name |
| `EsmImport.PushSpecifiers` | crates/plugin_bundle/src/resource_pot_to_bundle/targets/esm/generate.rs:177-244 | sorting the named keys and running the two pushes gives the specification's additions for one source |
| `EsmImport.ImportModule` | crates/plugin_bundle/src/resource_pot_to_bundle/targets/esm/generate.rs:169-244 | one module source's effect on the groups equals the specification: the group is created, then left as is for an empty import, else extended |
| `EsmImport.ImportSource` | crates/plugin_bundle/src/resource_pot_to_bundle/targets/esm/generate.rs:143-245 | one loop iteration: a bundle source leaves the groups alone; a module source is added under its URL |
| `EsmImport.ProcessSources` | crates/plugin_bundle/src/resource_pot_to_bundle/targets/esm/generate.rs:143-245 | the loop over the sources, in a given order, computes the group specification for that order |
| `EsmImport.FillGroups` | crates/plugin_bundle/src/resource_pot_to_bundle/targets/esm/generate.rs:139-245 | sorting the sources and running the loop gives the groups of the one sorted order, whatever order the hash map yields |
| `EsmImport.SortStrings` | crates/plugin_bundle/src/resource_pot_to_bundle/targets/esm/generate.rs:247-249 | sorting a set of strings gives its one sorted enumeration |
| `EsmImport.EmitDeclarations` | crates/plugin_bundle/src/resource_pot_to_bundle/targets/esm/generate.rs:247-264 | the groups sorted by URL become exactly the declaration sequence of the specification |
| `EsmImport.GenerateImport` | crates/plugin_bundle/src/resource_pot_to_bundle/targets/esm/generate.rs:132-267 | the statements equal the specification, which is independent of hash-map iteration order |
| `Interop.InteropRequireDefault` | crates/compiler/tests/fixtures/script/native_top_level_await/output.js:2-6 | an ES module is returned as is and the heap is unchanged; anything else gets a fresh `{default: obj}` and that allocation is the only change to the heap; the heap stays valid with old objects unchanged, and the result's `default` reads as the module's `default` or as the wrapped value |
| `Interop.WrapperIsNotEsModule` | crates/compiler/tests/fixtures/script/native_top_level_await/output.js:2-6 | the wrapper made for a value that is not an ES module has no truthy `__esModule` |
| `Interop.ExportStarOntoFacts` | crates/compiler/tests/fixtures/script/native_top_level_await/output.js:6-18 | `to` gains a getter for every key of `from` except `default` and those it already owns; existing properties, their order and well-formedness are kept |
| `Interop.ExportStarIsLive` | crates/compiler/tests/fixtures/script/native_top_level_await/output.js:9-14 | reading a re-exported key on `to` gives whatever `from[k]` holds at the time of the read |
| `Interop.CopyOwnFacts` | crates/compiler/tests/fixtures/script/native_top_level_await/output.js:29-35 | the copy holds every own key of the object except `default`, each with the object's own descriptor (a getter stays a getter), and keeps what it already held |
| `Interop.CopyOwnKeys` | crates/compiler/tests/fixtures/script/native_top_level_await/output.js:29-35 | the copied keys follow in the object's key order, without `default` |
| `Interop.NamespaceFacts` | crates/compiler/tests/fixtures/script/native_top_level_await/output.js:25-36 | the namespace has the object's keys minus `default`, in order, then `default` holding the object itself |
| `Interop.NamespaceReadsLikeObject` | crates/compiler/tests/fixtures/script/native_top_level_await/output.js:25-36 | every key other than `default` reads the same on the namespace as on the object, and `default` reads as the object |
| `Interop.Realm.GetRequireWildcardCache` | crates/compiler/tests/fixtures/script/native_top_level_await/output.js:39-45 | the first call creates two empty caches, later calls keep them; the node cache is returned for `nodeInterop`, the Babel cache otherwise |
| `Interop.Realm.ExportStar` | crates/compiler/tests/fixtures/script/native_top_level_await/output.js:6-18 | `to` becomes the specification's result, `from` is returned and nothing else changes |
| `Interop.Realm.InteropRequireWildcard` | crates/compiler/tests/fixtures/script/native_top_level_await/output.js:18-38 | an ES module passes through when `nodeInterop` is off; a primitive gets a fresh `{default}`; an object either hits the selected cache (the same namespace, no allocation) or gets a new namespace recorded in that cache only |
| `Interop.Realm.CachedNamespace` | crates/compiler/tests/fixtures/script/native_top_level_await/output.js:23-38 | a cache hit returns the cached namespace and leaves the heap alone; a miss builds the namespace and records it in the selected cache only |
| `Interop.Realm.CacheSet` | crates/compiler/tests/fixtures/script/native_top_level_await/output.js:37 | the selected cache gains the entry `obj` to namespace; the other cache and the heap are unchanged |
| `Interop.Realm.BuildNamespace` | crates/compiler/tests/fixtures/script/native_top_level_await/output.js:25-36 | the `for…in` copy loop allocates exactly the namespace object of the specification |
| `Interop.Realm.RequireWildcardTwice` | crates/compiler/tests/fixtures/script/native_top_level_await/output.js:23-24 | requiring the same object twice gives the identical namespace; a primitive gives two different wrappers |
| `CommonJs.ResolveFactory` | crates/compiler/tests/fixtures/script/native_top_level_await/output.js:55-59 | a function module is its own factory; otherwise the factory is looked up, and it is always the code of an existing function object |
| `CommonJs.FactoryTableUsesFirstKey` | crates/compiler/tests/fixtures/script/native_top_level_await/output.js:58 | a table runs the function under its first key; an empty table without an `"undefined"` key has no factory (TypeError) |
| `CommonJs.RunFactory` | crates/compiler/tests/fixtures/script/native_top_level_await/output.js:56 | running a factory allocates nothing |
| `CommonJs.RunFactoryAppend` | crates/compiler/tests/fixtures/script/native_top_level_await/output.js:56-58 | the factory statements run in sequence: `p + q` runs `p`, then `q` only when `p` completed normally |
| `CommonJs.RunFactoryKeepsModule` | crates/compiler/tests/fixtures/script/native_top_level_await/output.js:52-58 | statements that do not assign `module.exports` leave the module record unchanged |
| `CommonJs.SetUpKeepsFactory` | crates/compiler/tests/fixtures/script/native_top_level_await/output.js:52-56 | creating the module record changes no object allocated before it, so a function `mod` is still its own factory |
| `CommonJs.FirstCallReturnsExports` | crates/compiler/tests/fixtures/script/native_top_level_await/output.js:60 | a first call that completes normally returns `module.exports` as the factory left it; a named step of the proof of `CallTwice` |
| `CommonJs.RunFactoryRequireSelfAt` | crates/compiler/tests/fixtures/script/native_top_level_await/output.js:49-56 | in a run with an unchanged module record, a self require at statement `i` reads the original exports object as the earlier statements filled it and stores that object |
| `CommonJs.RunFactoryThrowsAfter` | crates/compiler/tests/fixtures/script/native_top_level_await/output.js:56-58 | a run of `prefix`, a `throw` and `rest` ends at the `throw`, with the heap `prefix` left |
| `CommonJs.FirstCallAbrupt` | crates/compiler/tests/fixtures/script/native_top_level_await/output.js:52-60 | a first call whose factory throws ends with that throw and the heap the factory left |
| `CommonJs.SelfRequireSeesPartialExports` | crates/compiler/tests/fixtures/script/native_top_level_await/output.js:49-56 | for any factory whose statement `i` requires its own module after statements that complete normally and leave `module.exports` alone, the value received is the exports object itself, and the rest of the factory runs as `exports[key] = exports`, so the earlier and the later exports show on that object |
| `CommonJs.ThrowKeepsPartialExports` | crates/compiler/tests/fixtures/script/native_top_level_await/output.js:52-56 | for any factory `prefix + [throw error] + rest` whose `prefix` completes normally, the first call throws `error` and the heap is the one `prefix` left, so the exports written before the throw stay |
| `CommonJs.CommonJsThunk.constructor` | crates/compiler/tests/fixtures/script/native_top_level_await/output.js:46-48 | a fresh thunk has no module record and has run nothing |
| `CommonJs.CommonJsThunk.Call` | crates/compiler/tests/fixtures/script/native_top_level_await/output.js:48-61 | later calls return the current `module.exports` and change neither the heap nor the run count; the first call equals the first-call specification, and the factory has run once when one was found and not at all when the lookup throws |
| `CommonJs.CommonJsThunk.CreateModuleRecord` | crates/compiler/tests/fixtures/script/native_top_level_await/output.js:52-54 | `module = {exports: {}}` allocates the exports object and then the record pointing at it, as the first-call specification does |
| `CommonJs.CommonJsThunk.AssignProperty` | crates/compiler/tests/fixtures/script/native_top_level_await/output.js:56 | one factory assignment succeeds exactly when strict-mode assignment does, and then updates the heap as it does |
| `CommonJs.CommonJsThunk.RunSteps` | crates/compiler/tests/fixtures/script/native_top_level_await/output.js:55-57 | executing the factory, with re-entrant calls for self requires, equals the specification |
| `CommonJs.CallTwice` | crates/compiler/tests/fixtures/script/native_top_level_await/output.js:49-51 | the second call leaves the heap and the run count as the first call left them, so the factory runs at most once; it completes normally with `module.exports`, which is the first call's value when that one completed |
| `ResourcePotRegister.RegisterFrom` | crates/compiler/tests/fixtures/script/native_top_level_await/output.js:68 | the loop makes no more `register` calls than there are keys |
| `ResourcePotRegister.RegisterFromCalls` | crates/compiler/tests/fixtures/script/native_top_level_await/output.js:68 | on any table the calls follow the keys one for one in key order, the loop completes exactly when every key got its call, and the only early end is the TypeError of a failed tagging |
| `ResourcePotRegister.RegisterFromTable` | crates/compiler/tests/fixtures/script/native_top_level_await/output.js:68 | on the bundler's table the loop completes and registers every key once, in order, with the factory under it, leaving the table unchanged |
| `ResourcePotRegister.RegisterFromTags` | crates/compiler/tests/fixtures/script/native_top_level_await/output.js:68 | the same loop tags every registered factory with the filename and keeps earlier tags |
| `ResourcePotRegister.RegisterKey` | crates/compiler/tests/fixtures/script/native_top_level_await/output.js:68 | one iteration tags `_[r]` and returns the `register` call, or throws without changing the heap |
| `ResourcePotRegister.RegisterResourcePot` | crates/compiler/tests/fixtures/script/native_top_level_await/output.js:68 | the loop's calls, completion and final heap equal the specification |

## Left out

**Not modelled.**

- The module system behind the runtime helpers is not part of this model.
  This covers `register`, `require`, `bootstrap`, `setPlugins` and the
  resource maps. `register` calls are recorded in order and assumed not to
  touch the heap.
- The computation of the script's own filename from `document` or
  `require("url")` is replaced by a parameter.
- `console.log`, promises, `setTimeout`, the asynchronous factory and
  top-level `await` are I/O or scheduling.
- Module factories are lists of four kinds of statement:
  - set an export;
  - assign `module.exports`;
  - require the module itself;
  - throw.

  Arbitrary code, and requires of other modules, are not modelled.
- `_getRequireWildcardCache` returns `null` when `WeakMap` is missing. That
  branch is left out: the two caches always exist, and a cache is a map from
  object identity to namespace.
- Several parts of JavaScript objects are not modelled:
  - prototypes and inherited enumerable keys;
  - non-enumerable properties;
  - setters, and writable or configurable flags;
  - the ascending order of array-index keys;
  - `NaN` and non-integer numbers;
  - `for…in` over a string.

  Own keys keep insertion order.
- `JsHeap.Get` follows at most a fixed `depth` of getters. A longer chain
  reads as `undefined`, and so does a cyclic chain, where JavaScript would
  throw a `RangeError`.
- Thrown errors keep only their kind (`TypeError`). `Object.keys` of `null`
  and a call of a non-function share that value.

**Modelled with a narrower contract.**

- `Interop.Realm.ExportStar` requires both arguments to be objects. The
  `TypeError` that `Object.keys` throws for `null` or `undefined` is not
  modelled.
- `EsmExport.GenerateExport` states its result for the sort order it used,
  which it returns alongside the statements. Rust's stable sort leaves ties between
  equal exported names in hash-map order. That order is arbitrary in the
  model too.
- `EsmImport.GenerateImport` requires an analyser for every internal module
  source. Without one, the `.unwrap()` in generate.rs panics.

**Bundler details reduced or taken as given.**

- `resource_pot_name` is unused by generate.rs and unused by the model.
- Module ids are ordered as their strings.
- `ExternalReferenceImport::is_empty` is not part of this model. It is taken
  to mean "no named, no namespace and no default import".
- `with_bundle_reference_slot_name`, `BundleVariable` and
  `ModuleAnalyzerManager` are given as functions. Their internals are not
  part of this model.
- The SWC syntax tree is reduced to the four declarations the generator
  builds. Spans and the `type_only`, `with` and `phase` fields are constant
  in generate.rs and dropped.
- The second flag of `export.all` is ignored, as generate.rs ignores it.
