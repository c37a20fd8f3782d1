/** `EsmGenerate::generate_import` and `init_import_specify`: the `import`
    declarations one bundle emits for everything it imports, one declaration
    per distinct URL. */
module EsmImport {
  import opened Options
  import opened Ordering
  import opened EsmTypes

  /** What `generate_import` consults besides the import table: the variable
      table, the module analyser, and `with_bundle_reference_slot_name`
      (which turns a resource pot id into the placeholder URL of its bundle). */
  datatype ImportEnv = ImportEnv(
    bv: BundleVariable,
    mgr: ModuleAnalyzerManager,
    slotName: string -> string)

  /** One URL group (`ImportItem`): the specifiers collected so far and the
      local names they already use. */
  datatype ImportItem = ImportItem(importSpecifies: seq<ImportSpecifier>, usedNamed: set<string>)

  const EmptyItem := ImportItem([], {})

  /** Orders strings by themselves. */
  function StringKey(s: string): string { s }

  /** The derived order of `ReferenceKind` (variant first, `Bundle` before
      `Module`, then the payload) as a string key. */
  function RefOrderKey(k: ReferenceKind): string {
    match k
    case Bundle(name) => ['B'] + name
    case Module(id) => ['M'] + id
  }

  /** `RefOrderKey` orders references as the derived `Ord` does. */
  lemma RefOrderKeyIsDerivedOrder(a: ReferenceKind, b: ReferenceKind)
    ensures LexLe(RefOrderKey(a), RefOrderKey(b)) <==>
      (a.Bundle? && b.Module?)
      || (a.Bundle? && b.Bundle? && LexLe(a.bundleName, b.bundleName))
      || (a.Module? && b.Module? && LexLe(a.id, b.id))
  {
    assert RefOrderKey(a)[1..] == (if a.Bundle? then a.bundleName else a.id);
    assert RefOrderKey(b)[1..] == (if b.Bundle? then b.bundleName else b.id);
  }

  lemma RefOrderKeyInjective(keys: set<ReferenceKind>)
    ensures InjectiveOn(keys, RefOrderKey)
  {
    forall x, y | x in keys && y in keys && RefOrderKey(x) == RefOrderKey(y)
      ensures x == y
    {
      assert RefOrderKey(x)[0] == RefOrderKey(y)[0];
      assert RefOrderKey(x)[1..] == RefOrderKey(y)[1..];
    }
  }

  /** The `.unwrap()` of generate.rs:162: every non-external module that is
      imported from has a module analyser. */
  ghost predicate AnalyzersPresent(importMap: map<ReferenceKind, ExternalReferenceImport>,
                                   mgr: ModuleAnalyzerManager)
  {
    forall k :: k in importMap && k.Module? && !mgr.isExternal(k.id) ==> mgr.resourcePotOf(k.id).Some?
  }

  /** The URL imports from module `m` are grouped under: the module id itself
      for an external module, otherwise the slot name of its resource pot. */
  function UrlOf(env: ImportEnv, m: ModuleId): string
    requires !env.mgr.isExternal(m) ==> env.mgr.resourcePotOf(m).Some?
  {
    if env.mgr.isExternal(m) then m else env.slotName(env.mgr.resourcePotOf(m).value)
  }

  /** `is_import_uniq_name`: a bundled module that is not an entry exports
      every variable under its bundle-unique render name. */
  predicate IsImportUniqName(env: ImportEnv, m: ModuleId) {
    !env.mgr.isExternal(m) && !env.mgr.isEntry(m)
  }

  /** The local name a named or default specifier occupies in its group:
      `imported` when present, else `local`. */
  function UsedName(spec: ImportSpecifier): string
    requires !spec.NamespaceImportSpec?
  {
    match spec
    case NamedImportSpec(local, imported) => imported.GetOr(local)
    case DefaultImportSpec(local) => local
  }

  /** The specifier for the named import `n`: it binds the render name of
      the imported variable, and names the export `n` unless the module is
      uniquely named or `n` already is that render name (generate.rs:180-194). */
  function NamedSpecFor(n: string, imp: ExternalReferenceImport, bv: BundleVariable, uniq: bool): ImportSpecifier
    requires n in imp.named
  {
    var localNamed := bv.renderName(imp.named[n]);
    NamedImportSpec(localNamed, if uniq || n == localNamed then None else Some(n))
  }

  /** Pushes one named import specifier per entry of `names`, in order,
      skipping those whose used name is already in the group
      (generate.rs:180-208). */
  function AddNamed(item: ImportItem, names: seq<string>, imp: ExternalReferenceImport,
                    bv: BundleVariable, uniq: bool): ImportItem
    requires forall n :: n in names ==> n in imp.named
    decreases |names|
  {
    if names == [] then item
    else
      var spec := NamedSpecFor(names[0], imp, bv, uniq);
      var item' := if UsedName(spec) in item.usedNamed then item
                   else ImportItem(item.importSpecifies + [spec], item.usedNamed + {UsedName(spec)});
      AddNamed(item', names[1..], imp, bv, uniq)
  }

  /** Pushes `* as ns` when the import source imports a namespace (generate.rs:210-217). */
  function AddNamespace(item: ImportItem, imp: ExternalReferenceImport, bv: BundleVariable): ImportItem {
    if imp.namespace.Some?
    then ImportItem(item.importSpecifies + [NamespaceImportSpec(bv.renderName(imp.namespace.value))],
                    item.usedNamed)
    else item
  }

  /** Pushes the default binding unless its render name is already used; for
      a uniquely named module it is imported as a named specifier
      (generate.rs:219-244). */
  function AddDefault(item: ImportItem, imp: ExternalReferenceImport, bv: BundleVariable,
                      uniq: bool): ImportItem
  {
    if imp.default.None? then item
    else
      var name := bv.renderName(imp.default.value);
      if name in item.usedNamed then item
      else ImportItem(item.importSpecifies + [if uniq then NamedImportSpec(name, None) else DefaultImportSpec(name)],
                      item.usedNamed + {name})
  }

  /** The group map after handling one source of the import table
      (one iteration of generate.rs:143-245). */
  ghost function AddSource(groups: map<string, ImportItem>, k: ReferenceKind,
                           importMap: map<ReferenceKind, ExternalReferenceImport>, env: ImportEnv)
    : map<string, ImportItem>
    requires k in importMap && AnalyzersPresent(importMap, env.mgr)
  {
    if k.Bundle? then groups
    else AddImport(groups, UrlOf(env, k.id), importMap[k], env.bv, IsImportUniqName(env, k.id))
  }

  /** The group of `url` after adding what one module source imports: an
      empty import still creates the group (a side-effect-only import). */
  ghost function AddImport(groups: map<string, ImportItem>, url: string, imp: ExternalReferenceImport,
                           bv: BundleVariable, uniq: bool): map<string, ImportItem>
  {
    var item := if url in groups then groups[url] else EmptyItem;
    if imp.IsEmpty() then groups[url := item]
    else
      var named := AddNamed(item, SortedList(imp.named.Keys, StringKey), imp, bv, uniq);
      groups[url := AddDefault(AddNamespace(named, imp, bv), imp, bv, uniq)]
  }

  /** The group map after handling the sources `keys` in order. */
  ghost function ImportGroups(keys: seq<ReferenceKind>, importMap: map<ReferenceKind, ExternalReferenceImport>,
                              env: ImportEnv, groups: map<string, ImportItem>): map<string, ImportItem>
    requires forall k :: k in keys ==> k in importMap
    requires AnalyzersPresent(importMap, env.mgr)
  {
    if keys == [] then groups
    else ImportGroups(keys[1..], importMap, env, AddSource(groups, keys[0], importMap, env))
  }

  /** The groups filled from the sorted import table. */
  ghost function FinalGroups(importMap: map<ReferenceKind, ExternalReferenceImport>, env: ImportEnv)
    : map<string, ImportItem>
    requires AnalyzersPresent(importMap, env.mgr)
  {
    ImportGroups(SortedList(importMap.Keys, RefOrderKey), importMap, env, map[])
  }

  /** One declaration per group, in ascending URL order (generate.rs:247-264). */
  ghost function Declarations(groups: map<string, ImportItem>): seq<ModuleItem> {
    var urls := SortedList(groups.Keys, StringKey);
    seq(|urls|, j requires 0 <= j < |urls| => ImportDecl(groups[urls[j]].importSpecifies, urls[j]))
  }

  /** The statements `generate_import` returns: the sources in sorted order
      fill the groups, then one declaration per URL in ascending URL order. */
  ghost function ImportStatements(importMap: map<ReferenceKind, ExternalReferenceImport>, env: ImportEnv)
    : seq<ModuleItem>
    requires AnalyzersPresent(importMap, env.mgr)
  {
    Declarations(FinalGroups(importMap, env))
  }

  // ---------------------------------------------------------------------
  // Properties of the specification

  /** No two named or default specifiers have the same used name. */
  ghost predicate DistinctBindings(specs: seq<ImportSpecifier>) {
    forall i, j :: 0 <= i < j < |specs| && !specs[i].NamespaceImportSpec? && !specs[j].NamespaceImportSpec? ==>
      UsedName(specs[i]) != UsedName(specs[j])
  }

  /** A group's named and default specifiers have pairwise different used
      names, all recorded in `usedNamed`. */
  ghost predicate UsedNamesDistinct(item: ImportItem) {
    && (forall i :: 0 <= i < |item.importSpecifies| && !item.importSpecifies[i].NamespaceImportSpec? ==>
          UsedName(item.importSpecifies[i]) in item.usedNamed)
    && DistinctBindings(item.importSpecifies)
  }

  ghost predicate AllGroupsDistinct(groups: map<string, ImportItem>) {
    forall u :: u in groups ==> UsedNamesDistinct(groups[u])
  }

  /** Pushing a specifier whose used name is fresh keeps the names distinct. */
  lemma PushFresh(item: ImportItem, spec: ImportSpecifier)
    requires UsedNamesDistinct(item) && !spec.NamespaceImportSpec? && UsedName(spec) !in item.usedNamed
    ensures UsedNamesDistinct(ImportItem(item.importSpecifies + [spec], item.usedNamed + {UsedName(spec)}))
  {
    var s := item.importSpecifies + [spec];
    assert forall i :: 0 <= i < |item.importSpecifies| ==> s[i] == item.importSpecifies[i];
  }

  lemma {:induction false} AddNamedKeepsDistinct(item: ImportItem, names: seq<string>, imp: ExternalReferenceImport,
                                                 bv: BundleVariable, uniq: bool)
    requires forall n :: n in names ==> n in imp.named
    requires UsedNamesDistinct(item)
    ensures UsedNamesDistinct(AddNamed(item, names, imp, bv, uniq))
    decreases |names|
  {
    if names != [] {
      var spec := NamedSpecFor(names[0], imp, bv, uniq);
      assert forall n :: n in names[1..] ==> n in names;
      if UsedName(spec) in item.usedNamed {
        AddNamedKeepsDistinct(item, names[1..], imp, bv, uniq);
      } else {
        PushFresh(item, spec);
        AddNamedKeepsDistinct(ImportItem(item.importSpecifies + [spec], item.usedNamed + {UsedName(spec)}),
                              names[1..], imp, bv, uniq);
      }
    }
  }

  lemma AddNamespaceKeepsDistinct(item: ImportItem, imp: ExternalReferenceImport, bv: BundleVariable)
    requires UsedNamesDistinct(item)
    ensures UsedNamesDistinct(AddNamespace(item, imp, bv))
  {
    var s := AddNamespace(item, imp, bv).importSpecifies;
    assert forall i :: 0 <= i < |item.importSpecifies| ==> s[i] == item.importSpecifies[i];
  }

  lemma AddDefaultKeepsDistinct(item: ImportItem, imp: ExternalReferenceImport, bv: BundleVariable, uniq: bool)
    requires UsedNamesDistinct(item)
    ensures UsedNamesDistinct(AddDefault(item, imp, bv, uniq))
  {
    if imp.default.Some? && bv.renderName(imp.default.value) !in item.usedNamed {
      var name := bv.renderName(imp.default.value);
      PushFresh(item, if uniq then NamedImportSpec(name, None) else DefaultImportSpec(name));
    }
  }

  lemma AddSourceKeepsDistinct(groups: map<string, ImportItem>, k: ReferenceKind,
                               importMap: map<ReferenceKind, ExternalReferenceImport>, env: ImportEnv)
    requires k in importMap && AnalyzersPresent(importMap, env.mgr)
    requires AllGroupsDistinct(groups)
    ensures AllGroupsDistinct(AddSource(groups, k, importMap, env))
  {
    if k.Module? {
      var url := UrlOf(env, k.id);
      var item := if url in groups then groups[url] else EmptyItem;
      var imp := importMap[k];
      if !imp.IsEmpty() {
        var uniq := IsImportUniqName(env, k.id);
        var names := SortedList(imp.named.Keys, StringKey);
        AddNamedKeepsDistinct(item, names, imp, env.bv, uniq);
        var named := AddNamed(item, names, imp, env.bv, uniq);
        AddNamespaceKeepsDistinct(named, imp, env.bv);
        AddDefaultKeepsDistinct(AddNamespace(named, imp, env.bv), imp, env.bv, uniq);
      }
    }
  }

  /** Within every group, no two named or default specifiers share a used
      name (the imported name when aliased, else the local one): the `used_named` set of each URL group rules out
      duplicates across all sources that share the URL. */
  lemma {:induction false} ImportGroupsKeepDistinct(keys: seq<ReferenceKind>,
                                                    importMap: map<ReferenceKind, ExternalReferenceImport>,
                                                    env: ImportEnv, groups: map<string, ImportItem>)
    requires forall k :: k in keys ==> k in importMap
    requires AnalyzersPresent(importMap, env.mgr)
    requires AllGroupsDistinct(groups)
    ensures AllGroupsDistinct(ImportGroups(keys, importMap, env, groups))
    decreases |keys|
  {
    if keys != [] {
      AddSourceKeepsDistinct(groups, keys[0], importMap, env);
      ImportGroupsKeepDistinct(keys[1..], importMap, env, AddSource(groups, keys[0], importMap, env));
    }
  }

  /** The used names of the named imports `names`. */
  ghost function NamedUsedNames(names: seq<string>, imp: ExternalReferenceImport, bv: BundleVariable, uniq: bool)
    : set<string>
    requires forall n :: n in names ==> n in imp.named
  {
    set n | n in names :: UsedName(NamedSpecFor(n, imp, bv, uniq))
  }

  /** `names[i]` takes a name: its used name is neither in `used` nor the
      used name of an earlier entry of `names`. */
  ghost predicate ClaimsName(used: set<string>, names: seq<string>, i: nat, imp: ExternalReferenceImport,
                             bv: BundleVariable, uniq: bool)
    requires i < |names| && forall n :: n in names ==> n in imp.named
  {
    var u := UsedName(NamedSpecFor(names[i], imp, bv, uniq));
    && u !in used
    && forall j :: 0 <= j < i ==> UsedName(NamedSpecFor(names[j], imp, bv, uniq)) != u
  }

  /** The specifiers of the entries of `names`, from the `i`-th on, that
      take a name, in the order of `names`. */
  ghost function FreeSpecs(used: set<string>, names: seq<string>, i: nat, imp: ExternalReferenceImport,
                           bv: BundleVariable, uniq: bool): seq<ImportSpecifier>
    requires i <= |names| && forall n :: n in names ==> n in imp.named
    decreases |names| - i
  {
    if i == |names| then []
    else (if ClaimsName(used, names, i, imp, bv, uniq) then [NamedSpecFor(names[i], imp, bv, uniq)] else [])
         + FreeSpecs(used, names, i + 1, imp, bv, uniq)
  }

  /** Dropping the first entry of `names` and adding its used name to
      `used` leaves the later entries' claims unchanged. */
  lemma {:induction false} FreeSpecsShift(used: set<string>, names: seq<string>, i: nat,
                                          imp: ExternalReferenceImport, bv: BundleVariable, uniq: bool)
    requires 1 <= i <= |names| && forall n :: n in names ==> n in imp.named
    ensures forall n :: n in names[1..] ==> n in imp.named
    ensures FreeSpecs(used, names, i, imp, bv, uniq)
         == FreeSpecs(used + {UsedName(NamedSpecFor(names[0], imp, bv, uniq))}, names[1..], i - 1, imp, bv, uniq)
    decreases |names| - i
  {
    assert forall n :: n in names[1..] ==> n in names;
    if i < |names| {
      var used' := used + {UsedName(NamedSpecFor(names[0], imp, bv, uniq))};
      assert forall j :: 0 <= j < |names| - 1 ==> names[1..][j] == names[j + 1];
      assert ClaimsName(used, names, i, imp, bv, uniq) == ClaimsName(used', names[1..], i - 1, imp, bv, uniq);
      FreeSpecsShift(used, names, i + 1, imp, bv, uniq);
    }
  }

  /** `AddNamed` appends exactly the specifiers of the entries that take a
      name, in order, and its used names grow by the used names of all
      entries (an entry that takes none has its name in the group already). */
  lemma AddNamedComplete(item: ImportItem, names: seq<string>, imp: ExternalReferenceImport,
                         bv: BundleVariable, uniq: bool)
    requires forall n :: n in names ==> n in imp.named
    ensures var r := AddNamed(item, names, imp, bv, uniq);
      && r.importSpecifies == item.importSpecifies + FreeSpecs(item.usedNamed, names, 0, imp, bv, uniq)
      && r.usedNamed == item.usedNamed + NamedUsedNames(names, imp, bv, uniq)
  {
    AddNamedSpecs(item, names, imp, bv, uniq);
    AddNamedUsed(item, names, imp, bv, uniq);
  }

  /** The claims of `names` are those of its first entry, then those of
      the rest once the first entry's used name is taken. */
  lemma FreeSpecsCons(used: set<string>, names: seq<string>, imp: ExternalReferenceImport,
                      bv: BundleVariable, uniq: bool)
    requires names != [] && forall n :: n in names ==> n in imp.named
    ensures forall n :: n in names[1..] ==> n in imp.named
    ensures var spec := NamedSpecFor(names[0], imp, bv, uniq);
      FreeSpecs(used, names, 0, imp, bv, uniq)
      == (if UsedName(spec) !in used then [spec] else []) + FreeSpecs(used + {UsedName(spec)}, names[1..], 0, imp, bv, uniq)
  {
    FreeSpecsShift(used, names, 1, imp, bv, uniq);
    assert ClaimsName(used, names, 0, imp, bv, uniq) == (UsedName(NamedSpecFor(names[0], imp, bv, uniq)) !in used);
  }

  /** One step of `AddNamed`: the first entry appends its specifier when
      its used name is free, and its used name is in the group afterwards. */
  lemma AddNamedCons(item: ImportItem, names: seq<string>, imp: ExternalReferenceImport,
                     bv: BundleVariable, uniq: bool)
    requires names != [] && forall n :: n in names ==> n in imp.named
    ensures forall n :: n in names[1..] ==> n in imp.named
    ensures var spec := NamedSpecFor(names[0], imp, bv, uniq);
      AddNamed(item, names, imp, bv, uniq)
      == AddNamed(ImportItem(item.importSpecifies + (if UsedName(spec) !in item.usedNamed then [spec] else []),
                             item.usedNamed + {UsedName(spec)}), names[1..], imp, bv, uniq)
  {
    assert forall n :: n in names[1..] ==> n in names;
    var spec := NamedSpecFor(names[0], imp, bv, uniq);
    if UsedName(spec) in item.usedNamed {
      assert item.importSpecifies + [] == item.importSpecifies;
      assert item.usedNamed + {UsedName(spec)} == item.usedNamed;
    }
  }

  lemma {:induction false} AddNamedSpecs(item: ImportItem, names: seq<string>, imp: ExternalReferenceImport,
                                         bv: BundleVariable, uniq: bool)
    requires forall n :: n in names ==> n in imp.named
    ensures AddNamed(item, names, imp, bv, uniq).importSpecifies
         == item.importSpecifies + FreeSpecs(item.usedNamed, names, 0, imp, bv, uniq)
    decreases |names|
  {
    if names != [] {
      var spec := NamedSpecFor(names[0], imp, bv, uniq);
      var u0 := UsedName(spec);
      var head := if u0 !in item.usedNamed then [spec] else [];
      var item' := ImportItem(item.importSpecifies + head, item.usedNamed + {u0});
      AddNamedCons(item, names, imp, bv, uniq);
      FreeSpecsCons(item.usedNamed, names, imp, bv, uniq);
      AddNamedSpecs(item', names[1..], imp, bv, uniq);
      assert item.importSpecifies + head + FreeSpecs(item'.usedNamed, names[1..], 0, imp, bv, uniq)
          == item.importSpecifies + (head + FreeSpecs(item'.usedNamed, names[1..], 0, imp, bv, uniq));
    }
  }

  lemma {:induction false} AddNamedUsed(item: ImportItem, names: seq<string>, imp: ExternalReferenceImport,
                                        bv: BundleVariable, uniq: bool)
    requires forall n :: n in names ==> n in imp.named
    ensures AddNamed(item, names, imp, bv, uniq).usedNamed == item.usedNamed + NamedUsedNames(names, imp, bv, uniq)
    decreases |names|
  {
    if names == [] {
      assert NamedUsedNames(names, imp, bv, uniq) == {};
    } else {
      var spec := NamedSpecFor(names[0], imp, bv, uniq);
      var u0 := UsedName(spec);
      var item' := if u0 in item.usedNamed then item
                   else ImportItem(item.importSpecifies + [spec], item.usedNamed + {u0});
      assert item'.usedNamed == item.usedNamed + {u0};
      assert forall n :: n in names[1..] ==> n in names;
      AddNamedUsed(item', names[1..], imp, bv, uniq);
      forall x ensures x in NamedUsedNames(names, imp, bv, uniq) <==> x == u0 || x in NamedUsedNames(names[1..], imp, bv, uniq) {
        if x in NamedUsedNames(names, imp, bv, uniq) {
          var n :| n in names && UsedName(NamedSpecFor(n, imp, bv, uniq)) == x;
          if n != names[0] {
            assert n in names[1..];
          }
        }
      }
    }
  }

  /** What one source that imports something appends to a group: the
      named imports that take a free name, in the order of `names`; then
      the namespace; then the default when its render name is still free
      after the named imports, as a named specifier for a uniquely named
      module and as a default specifier otherwise. The used names grow by
      exactly the named imports' used names and the default's render name. */
  lemma AddSpecifiersComplete(item: ImportItem, names: seq<string>, imp: ExternalReferenceImport,
                              bv: BundleVariable, uniq: bool)
    requires forall n :: n in names ==> n in imp.named
    ensures var namedUsed := item.usedNamed + NamedUsedNames(names, imp, bv, uniq);
      var r := AddDefault(AddNamespace(AddNamed(item, names, imp, bv, uniq), imp, bv), imp, bv, uniq);
      && r.importSpecifies
         == item.importSpecifies + FreeSpecs(item.usedNamed, names, 0, imp, bv, uniq)
            + (if imp.namespace.Some? then [NamespaceImportSpec(bv.renderName(imp.namespace.value))] else [])
            + (if imp.default.Some? && bv.renderName(imp.default.value) !in namedUsed
               then [if uniq then NamedImportSpec(bv.renderName(imp.default.value), None)
                     else DefaultImportSpec(bv.renderName(imp.default.value))]
               else [])
      && r.usedNamed == namedUsed + (if imp.default.Some? then {bv.renderName(imp.default.value)} else {})
  {
    AddNamedComplete(item, names, imp, bv, uniq);
  }

  /** The URL of a module source (and only module sources have one). */
  ghost predicate IsSourceUrl(keys: seq<ReferenceKind>, importMap: map<ReferenceKind, ExternalReferenceImport>,
                              env: ImportEnv, u: string)
    requires forall k :: k in keys ==> k in importMap
    requires AnalyzersPresent(importMap, env.mgr)
  {
    exists i :: 0 <= i < |keys| && keys[i].Module? && UrlOf(env, keys[i].id) == u
  }

  /** The groups are exactly the URLs of the module sources (bundle sources
      create none), including sources that import nothing. */
  lemma {:induction false} ImportGroupsUrls(keys: seq<ReferenceKind>,
                                            importMap: map<ReferenceKind, ExternalReferenceImport>,
                                            env: ImportEnv, groups: map<string, ImportItem>)
    requires forall k :: k in keys ==> k in importMap
    requires AnalyzersPresent(importMap, env.mgr)
    ensures forall u :: u in ImportGroups(keys, importMap, env, groups) <==>
      u in groups || IsSourceUrl(keys, importMap, env, u)
    decreases |keys|
  {
    if keys != [] {
      var g := AddSource(groups, keys[0], importMap, env);
      assert forall k :: k in keys[1..] ==> k in keys;
      ImportGroupsUrls(keys[1..], importMap, env, g);
      AddSourceUrls(groups, keys[0], importMap, env);
      forall u ensures IsSourceUrl(keys, importMap, env, u) <==>
        (keys[0].Module? && UrlOf(env, keys[0].id) == u) || IsSourceUrl(keys[1..], importMap, env, u)
      {
        SourceUrlCons(keys, importMap, env, u);
      }
    }
  }

  /** A source adds the group of its URL when it is a module, and no other. */
  lemma AddSourceUrls(groups: map<string, ImportItem>, k: ReferenceKind,
                      importMap: map<ReferenceKind, ExternalReferenceImport>, env: ImportEnv)
    requires k in importMap && AnalyzersPresent(importMap, env.mgr)
    ensures AddSource(groups, k, importMap, env).Keys ==
            groups.Keys + (if k.Module? then {UrlOf(env, k.id)} else {})
  {
  }

  lemma SourceUrlCons(keys: seq<ReferenceKind>, importMap: map<ReferenceKind, ExternalReferenceImport>,
                      env: ImportEnv, u: string)
    requires keys != [] && forall k :: k in keys ==> k in importMap
    requires AnalyzersPresent(importMap, env.mgr)
    ensures forall k :: k in keys[1..] ==> k in importMap
    ensures IsSourceUrl(keys, importMap, env, u) <==>
      (keys[0].Module? && UrlOf(env, keys[0].id) == u) || IsSourceUrl(keys[1..], importMap, env, u)
  {
    assert forall k :: k in keys[1..] ==> k in keys;
    if IsSourceUrl(keys, importMap, env, u) {
      var i :| 0 <= i < |keys| && keys[i].Module? && UrlOf(env, keys[i].id) == u;
      if i > 0 {
        assert keys[1..][i - 1] == keys[i];
      }
    }
    if IsSourceUrl(keys[1..], importMap, env, u) {
      var i :| 0 <= i < |keys[1..]| && keys[1..][i].Module? && UrlOf(env, keys[1..][i].id) == u;
      assert keys[i + 1] == keys[1..][i];
    }
  }

  /** A URL all of whose sources import nothing keeps an empty group, which
      yields the side-effect import `import "url"`. */
  lemma {:induction false} EmptySourcesKeepGroupEmpty(keys: seq<ReferenceKind>,
                                                      importMap: map<ReferenceKind, ExternalReferenceImport>,
                                                      env: ImportEnv, groups: map<string, ImportItem>, u: string)
    requires forall k :: k in keys ==> k in importMap
    requires AnalyzersPresent(importMap, env.mgr)
    requires u in groups ==> groups[u].importSpecifies == []
    requires forall k :: k in keys && k.Module? && UrlOf(env, k.id) == u ==> importMap[k].IsEmpty()
    ensures var g := ImportGroups(keys, importMap, env, groups);
      u in g ==> g[u].importSpecifies == []
    decreases |keys|
  {
    if keys != [] {
      assert forall k :: k in keys[1..] ==> k in keys;
      EmptySourcesKeepGroupEmpty(keys[1..], importMap, env, AddSource(groups, keys[0], importMap, env), u);
    }
  }

  /** The sources of `keys` that are modules, in order. */
  function ModuleSources(keys: seq<ReferenceKind>): (r: seq<ReferenceKind>)
    ensures forall k :: k in r ==> k in keys && k.Module?
  {
    if keys == [] then []
    else if keys[0].Module? then [keys[0]] + ModuleSources(keys[1..])
    else ModuleSources(keys[1..])
  }

  /** Bundle sources are skipped: dropping them changes nothing. */
  lemma {:induction false} BundleSourcesIgnored(keys: seq<ReferenceKind>,
                                                importMap: map<ReferenceKind, ExternalReferenceImport>,
                                                env: ImportEnv, groups: map<string, ImportItem>)
    requires forall k :: k in keys ==> k in importMap
    requires AnalyzersPresent(importMap, env.mgr)
    ensures ImportGroups(keys, importMap, env, groups)
         == ImportGroups(ModuleSources(keys), importMap, env, groups)
    decreases |keys|
  {
    if keys != [] {
      assert forall k :: k in keys[1..] ==> k in keys;
      var g := AddSource(groups, keys[0], importMap, env);
      BundleSourcesIgnored(keys[1..], importMap, env, g);
      if keys[0].Module? {
        var m := ModuleSources(keys);
        assert m[0] == keys[0] && m[1..] == ModuleSources(keys[1..]);
      }
    }
  }

  /** Every specifier `AddNamed` pushes binds the render name of the imported
      variable, and imports the export named by its key unless the module
      is uniquely named (then the export is the render name itself). */
  lemma {:induction false} AddNamedBindings(item: ImportItem, names: seq<string>, imp: ExternalReferenceImport,
                                            bv: BundleVariable, uniq: bool)
    requires forall n :: n in names ==> n in imp.named
    ensures var r := AddNamed(item, names, imp, bv, uniq);
      && item.importSpecifies <= r.importSpecifies
      && forall i :: |item.importSpecifies| <= i < |r.importSpecifies| ==>
           var spec := r.importSpecifies[i];
           && spec.NamedImportSpec?
           && exists n :: n in names && spec.local == bv.renderName(imp.named[n])
                && UsedName(spec) == (if uniq then spec.local else n)
                && (spec.imported.Some? ==> spec.imported.value != spec.local)
    decreases |names|
  {
    if names != [] {
      assert forall n :: n in names[1..] ==> n in names;
      var spec := NamedSpecFor(names[0], imp, bv, uniq);
      var item' := if UsedName(spec) in item.usedNamed then item
                   else ImportItem(item.importSpecifies + [spec], item.usedNamed + {UsedName(spec)});
      AddNamedBindings(item', names[1..], imp, bv, uniq);
    }
  }

  /** Some module source of the import table groups under URL `u`. */
  ghost predicate ImportedUrl(importMap: map<ReferenceKind, ExternalReferenceImport>, env: ImportEnv, u: string)
    requires AnalyzersPresent(importMap, env.mgr)
  {
    exists k :: k in importMap && k.Module? && UrlOf(env, k.id) == u
  }

  /** Some statement is the import declaration of URL `u`. */
  ghost predicate DeclaresUrl(stmts: seq<ModuleItem>, u: string) {
    exists j :: 0 <= j < |stmts| && stmts[j].ImportDecl? && stmts[j].importSrc == u
  }

  /** The `j`-th declaration is the one for the `j`-th URL in order. */
  lemma DeclarationsAt(groups: map<string, ImportItem>, urls: seq<string>)
    requires urls == SortedList(groups.Keys, StringKey)
    ensures forall u :: u in urls ==> u in groups
    ensures var decls := Declarations(groups);
      && |decls| == |urls|
      && forall j :: 0 <= j < |urls| ==> decls[j] == ImportDecl(groups[urls[j]].importSpecifies, urls[j])
  {
  }

  /** One declaration per group, in strictly ascending URL order, each
      carrying its group's specifiers. */
  lemma DeclarationsPerGroup(groups: map<string, ImportItem>)
    ensures var stmts := Declarations(groups);
      && (forall j :: 0 <= j < |stmts| ==>
            stmts[j].ImportDecl? && stmts[j].importSrc in groups
            && stmts[j].importSpecifiers == groups[stmts[j].importSrc].importSpecifies)
      && (forall i, j :: 0 <= i < j < |stmts| ==>
            LexLe(stmts[i].importSrc, stmts[j].importSrc) && stmts[i].importSrc != stmts[j].importSrc)
      && (forall u :: DeclaresUrl(stmts, u) <==> u in groups)
  {
    var urls := SortedList(groups.Keys, StringKey);
    var stmts := Declarations(groups);
    forall u ensures DeclaresUrl(stmts, u) <==> u in urls {
      if u in urls {
        var j :| 0 <= j < |urls| && urls[j] == u;
        assert stmts[j].importSrc == u;
      }
    }
  }

  /** The groups are exactly the URLs of the module sources. */
  lemma FinalGroupsUrls(importMap: map<ReferenceKind, ExternalReferenceImport>, env: ImportEnv)
    requires AnalyzersPresent(importMap, env.mgr)
    ensures forall u :: u in FinalGroups(importMap, env) <==> ImportedUrl(importMap, env, u)
  {
    var keys := SortedList(importMap.Keys, RefOrderKey);
    ImportGroupsUrls(keys, importMap, env, map[]);
    forall u ensures IsSourceUrl(keys, importMap, env, u) <==> ImportedUrl(importMap, env, u) {
      if ImportedUrl(importMap, env, u) {
        var k :| k in importMap && k.Module? && UrlOf(env, k.id) == u;
        assert k in keys;
        var i :| 0 <= i < |keys| && keys[i] == k;
      }
    }
  }

  /** One import declaration per distinct URL of a module source (bundle
      sources give none; sources that import nothing still do), in strictly
      ascending URL order. */
  lemma ImportStatementsPerUrl(importMap: map<ReferenceKind, ExternalReferenceImport>, env: ImportEnv)
    requires AnalyzersPresent(importMap, env.mgr)
    ensures var stmts := ImportStatements(importMap, env);
      && (forall j :: 0 <= j < |stmts| ==> stmts[j].ImportDecl?)
      && (forall i, j :: 0 <= i < j < |stmts| ==>
            LexLe(stmts[i].importSrc, stmts[j].importSrc) && stmts[i].importSrc != stmts[j].importSrc)
      && (forall u :: DeclaresUrl(stmts, u) <==> ImportedUrl(importMap, env, u))
  {
    DeclarationsPerGroup(FinalGroups(importMap, env));
    FinalGroupsUrls(importMap, env);
  }

  /** Within every declaration, named and default specifiers have pairwise
      different used names. */
  lemma ImportStatementsDistinctBindings(importMap: map<ReferenceKind, ExternalReferenceImport>, env: ImportEnv)
    requires AnalyzersPresent(importMap, env.mgr)
    ensures var stmts := ImportStatements(importMap, env);
      forall j :: 0 <= j < |stmts| ==> stmts[j].ImportDecl? && DistinctBindings(stmts[j].importSpecifiers)
  {
    var keys := SortedList(importMap.Keys, RefOrderKey);
    ImportGroupsKeepDistinct(keys, importMap, env, map[]);
    DeclarationsPerGroup(FinalGroups(importMap, env));
  }

  /** A URL whose sources all import nothing gets a declaration without
      specifiers: a side-effect import `import "url"`. */
  lemma ImportStatementsSideEffectOnly(importMap: map<ReferenceKind, ExternalReferenceImport>, env: ImportEnv,
                                       u: string)
    requires AnalyzersPresent(importMap, env.mgr)
    requires ImportedUrl(importMap, env, u)
    requires forall k :: k in importMap && k.Module? && UrlOf(env, k.id) == u ==> importMap[k].IsEmpty()
    ensures var stmts := ImportStatements(importMap, env);
      exists j :: 0 <= j < |stmts| && stmts[j] == ImportDecl([], u)
  {
    var keys := SortedList(importMap.Keys, RefOrderKey);
    var stmts := ImportStatements(importMap, env);
    DeclarationsPerGroup(FinalGroups(importMap, env));
    FinalGroupsUrls(importMap, env);
    assert DeclaresUrl(stmts, u);
    var j :| 0 <= j < |stmts| && stmts[j].ImportDecl? && stmts[j].importSrc == u;
    EmptySourcesKeepGroupEmpty(keys, importMap, env, map[], u);
  }

  // ---------------------------------------------------------------------
  // The generator

  /** `init_import_specify`: returns the group of `url`, inserting an empty
      one when there is none; no other group changes. */
  method InitImportSpecify(groups: map<string, ImportItem>, url: string)
    returns (groups': map<string, ImportItem>, item: ImportItem)
    ensures item == if url in groups then groups[url] else ImportItem([], {})
    ensures groups' == groups[url := item]
  {
    if url in groups {
      groups' := groups;
      item := groups[url];
    } else {
      groups' := groups[url := ImportItem([], {})];
      item := groups'[url];
    }
  }

  /** The loop over the sorted named imports of one source
      (generate.rs:177-208). */
  method PushNamedImports(item: ImportItem, orderedNamedKeys: seq<string>, imp: ExternalReferenceImport,
                          bv: BundleVariable, isImportUniqName: bool)
    returns (item': ImportItem)
    requires forall n :: n in orderedNamedKeys ==> n in imp.named
    ensures item' == AddNamed(item, orderedNamedKeys, imp, bv, isImportUniqName)
  {
    item' := item;
    for i := 0 to |orderedNamedKeys|
      invariant AddNamed(item', orderedNamedKeys[i..], imp, bv, isImportUniqName)
             == AddNamed(item, orderedNamedKeys, imp, bv, isImportUniqName)
    {
      assert orderedNamedKeys[i..][0] == orderedNamedKeys[i];
      assert orderedNamedKeys[i..][1..] == orderedNamedKeys[i + 1..];
      var imported := orderedNamedKeys[i];
      var local := imp.named[imported];
      var localNamed := bv.renderName(local);
      var alias := if isImportUniqName || imported == localNamed then None else Some(imported);
      var usedName := alias.GetOr(localNamed);
      if usedName in item'.usedNamed {
        continue;
      }
      item' := ImportItem(item'.importSpecifies + [NamedImportSpec(localNamed, alias)],
                          item'.usedNamed + {usedName});
    }
    assert orderedNamedKeys[|orderedNamedKeys|..] == [];
  }

  /** The namespace and default imports of one source
      (generate.rs:210-244); a default whose local name is already bound is
      skipped, which is where generate.rs's `continue` leaves the group. */
  method PushNamespaceAndDefault(item: ImportItem, imp: ExternalReferenceImport, bv: BundleVariable,
                                 isImportUniqName: bool)
    returns (item': ImportItem)
    ensures item' == AddDefault(AddNamespace(item, imp, bv), imp, bv, isImportUniqName)
  {
    item' := item;
    if imp.namespace.Some? {
      item' := ImportItem(item'.importSpecifies + [NamespaceImportSpec(bv.renderName(imp.namespace.value))],
                          item'.usedNamed);
    }
    if imp.default.Some? {
      var name := bv.renderName(imp.default.value);
      if name in item'.usedNamed {
        return;
      }
      var spec := if isImportUniqName then NamedImportSpec(name, None) else DefaultImportSpec(name);
      item' := ImportItem(item'.importSpecifies + [spec], item'.usedNamed + {name});
    }
  }

  /** Sorts strings in ascending order; distinct strings sort in one way
      only, so the result is the sorted list of the set. */
  method SortStrings(elems: set<string>) returns (sorted: seq<string>)
    ensures sorted == SortedList(elems, StringKey)
  {
    sorted := SortByKey(elems, StringKey);
    assert InjectiveOn(elems, StringKey);
    SortedEnumerationUnique(sorted, SortedList(elems, StringKey), elems, StringKey);
  }

  /** The specifiers one source that imports something adds to its group:
      the named imports in ascending order of the imported name, then the
      namespace and the default (generate.rs:173-244). */
  method PushSpecifiers(item: ImportItem, imp: ExternalReferenceImport, bv: BundleVariable, isImportUniqName: bool)
    returns (item': ImportItem)
    ensures item' == AddDefault(AddNamespace(AddNamed(item, SortedList(imp.named.Keys, StringKey), imp, bv,
                                                      isImportUniqName), imp, bv), imp, bv, isImportUniqName)
  {
    var orderedNamedKeys := SortStrings(imp.named.Keys);
    assert forall n :: n in orderedNamedKeys ==> n in imp.named;
    item' := PushNamedImports(item, orderedNamedKeys, imp, bv, isImportUniqName);
    item' := PushNamespaceAndDefault(item', imp, bv, isImportUniqName);
  }

  /** The body of the loop over the sorted sources for a module source
      (generate.rs:171-244), once its URL is known. */
  method ImportModule(groups: map<string, ImportItem>, url: string, imp: ExternalReferenceImport,
                      bv: BundleVariable, isImportUniqName: bool)
    returns (groups': map<string, ImportItem>)
    ensures groups' == AddImport(groups, url, imp, bv, isImportUniqName)
  {
    var item;
    groups', item := InitImportSpecify(groups, url);
    if imp.IsEmpty() {
      return;
    }
    item := PushSpecifiers(item, imp, bv, isImportUniqName);
    groups' := groups'[url := item];
  }

  /** One iteration of the loop over the sorted sources
      (generate.rs:143-245): a bundle source is skipped; a module source
      adds its specifiers to the group of its URL. */
  method ImportSource(groups: map<string, ImportItem>, source: ReferenceKind,
                      importMap: map<ReferenceKind, ExternalReferenceImport>, env: ImportEnv)
    returns (groups': map<string, ImportItem>)
    requires source in importMap && AnalyzersPresent(importMap, env.mgr)
    ensures groups' == AddSource(groups, source, importMap, env)
  {
    if source.Bundle? {
      return groups;
    }
    var m := source.id;
    var isImportUniqName := false;
    var url: string;
    if env.mgr.isExternal(m) {
      url := m;
    } else {
      if !env.mgr.isEntry(m) {
        isImportUniqName := true;
      }
      url := env.slotName(env.mgr.resourcePotOf(m).value);
    }
    groups' := ImportModule(groups, url, importMap[source], env.bv, isImportUniqName);
  }

  /** The loop over the sources in the order `keys` (generate.rs:143-245). */
  method ProcessSources(keys: seq<ReferenceKind>, importMap: map<ReferenceKind, ExternalReferenceImport>,
                        env: ImportEnv)
    returns (groups: map<string, ImportItem>)
    requires forall k :: k in keys ==> k in importMap
    requires AnalyzersPresent(importMap, env.mgr)
    ensures groups == ImportGroups(keys, importMap, env, map[])
  {
    groups := map[];
    for i := 0 to |keys|
      invariant ImportGroups(keys[i..], importMap, env, groups) == ImportGroups(keys, importMap, env, map[])
    {
      assert keys[i..][0] == keys[i] && keys[i..][1..] == keys[i + 1..];
      groups := ImportSource(groups, keys[i], importMap, env);
    }
    assert keys[|keys|..] == [];
  }

  /** The sources sorted by the derived order of `ReferenceKind`
      (generate.rs:139-140), then processed: one group per URL. */
  method FillGroups(importMap: map<ReferenceKind, ExternalReferenceImport>, env: ImportEnv)
    returns (groups: map<string, ImportItem>)
    requires AnalyzersPresent(importMap, env.mgr)
    ensures groups == FinalGroups(importMap, env)
  {
    var orderedImportKeys := SortByKey(importMap.Keys, RefOrderKey);
    RefOrderKeyInjective(importMap.Keys);
    SortedEnumerationUnique(orderedImportKeys, SortedList(importMap.Keys, RefOrderKey), importMap.Keys, RefOrderKey);
    groups := ProcessSources(orderedImportKeys, importMap, env);
  }

  /** The groups sorted by URL, one `import` declaration each
      (generate.rs:247-264). */
  method EmitDeclarations(groups: map<string, ImportItem>) returns (stmts: seq<ModuleItem>)
    ensures stmts == Declarations(groups)
  {
    var urls := SortStrings(groups.Keys);
    DeclarationsAt(groups, urls);
    ghost var decls := Declarations(groups);
    stmts := [];
    for j := 0 to |urls|
      invariant stmts == decls[..j]
    {
      stmts := stmts + [ImportDecl(groups[urls[j]].importSpecifies, urls[j])];
    }
    assert decls[..|urls|] == decls;
  }

  /** `generate_import`: sorts the sources, fills one group per URL, and
      emits the groups in ascending URL order. `resourcePotName` is unused,
      as in generate.rs. */
  method GenerateImport(bv: BundleVariable, importMap: map<ReferenceKind, ExternalReferenceImport>,
                        mgr: ModuleAnalyzerManager, resourcePotName: string, slotName: string -> string)
    returns (stmts: seq<ModuleItem>)
    requires AnalyzersPresent(importMap, mgr)
    ensures stmts == ImportStatements(importMap, ImportEnv(bv, mgr, slotName))
  {
    var generateImportSpecifies := FillGroups(importMap, ImportEnv(bv, mgr, slotName));
    stmts := EmitDeclarations(generateImportSpecifies);
  }
}
