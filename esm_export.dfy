/** `EsmGenerate::generate_export`: the `export` declarations one bundle
    emits for what it re-exports from one source. */
module EsmExport {
  import opened Options
  import opened Ordering
  import opened EsmTypes

  /** `index_is_entry(i)` of generate.rs: the variable's module is known and
      is NOT an entry module. (The name reads inverted; it is generate.rs's.) When
      it holds, the bundler already gave the variable a bundle-unique name, so
      the variable is exported under its render name, without an alias. */
  predicate IndexIsEntry(bv: BundleVariable, mgr: ModuleAnalyzerManager, i: VarIndex) {
    bv.moduleOf(i).Some? && !mgr.isEntry(bv.moduleOf(i).value)
  }

  /** The specifier for one named export `exported` whose local variable is
      `ex.named[exported]`. */
  function NamedSpecifierFor(ex: ExternalReferenceExport, bv: BundleVariable,
                             mgr: ModuleAnalyzerManager, exported: VarIndex): ExportSpecifier
    requires exported in ex.named
  {
    var local := ex.named[exported];
    var renderName := bv.renderName(local);
    var alias := if IndexIsEntry(bv, mgr, local) || renderName == bv.name(exported)
                 then None else Some(bv.name(exported));
    NamedExportSpec(renderName, alias)
  }

  /** The name a specifier makes visible to importers. */
  function ExportedAs(spec: ExportSpecifier): string {
    match spec
    case NamedExportSpec(orig, exported) => exported.GetOr(orig)
    case NamespaceExportSpec(name) => name
  }

  /** The exported keys, from `keys` in order, that produce a specifier when
      the render names in `taken` are already used: a key is dropped when its
      local variable was removed or its render name is taken. */
  function KeptKeys(keys: seq<VarIndex>, ex: ExternalReferenceExport, bv: BundleVariable,
                    taken: set<string>): (kept: seq<VarIndex>)
    requires forall k :: k in keys ==> k in ex.named
    ensures forall k :: k in kept ==> k in keys
  {
    if keys == [] then []
    else
      var local := ex.named[keys[0]];
      if bv.removed(local) || bv.renderName(local) in taken
      then KeptKeys(keys[1..], ex, bv, taken)
      else [keys[0]] + KeptKeys(keys[1..], ex, bv, taken + {bv.renderName(local)})
  }

  /** The named specifiers, one per kept key, in order. */
  function NamedSpecifiers(kept: seq<VarIndex>, ex: ExternalReferenceExport, bv: BundleVariable,
                           mgr: ModuleAnalyzerManager): seq<ExportSpecifier>
    requires forall k :: k in kept ==> k in ex.named
  {
    seq(|kept|, j requires 0 <= j < |kept| => NamedSpecifierFor(ex, bv, mgr, kept[j]))
  }

  /** All specifiers of the `export { ... }` clause: the named ones, then the
      namespace specifier, then the default variable when it is exported by
      its render name. */
  function ExportSpecifiers(keys: seq<VarIndex>, ex: ExternalReferenceExport, bv: BundleVariable,
                            mgr: ModuleAnalyzerManager): seq<ExportSpecifier>
    requires forall k :: k in keys ==> k in ex.named
  {
    var kept := KeptKeys(keys, ex, bv, {});
    NamedSpecifiers(kept, ex, bv, mgr)
    + (if ex.namespace.Some? then [NamespaceExportSpec(bv.name(ex.namespace.value))] else [])
    + (if ex.default.Some? && IndexIsEntry(bv, mgr, ex.default.value)
       then [NamedExportSpec(bv.renderName(ex.default.value), None)] else [])
  }

  /** `export * from source` is emitted for a module source that asked for it
      and is not CommonJS. */
  predicate EmitsExportAll(source: Option<ReferenceKind>, ex: ExternalReferenceExport,
                           mgr: ModuleAnalyzerManager)
  {
    source.Some? && source.value.Module? && ex.all && !mgr.isCommonJs(source.value.id)
  }

  /** The statements `generate_export` returns when it visits the named
      exports in the order `keys`. */
  function ExportStatements(source: Option<ReferenceKind>, ex: ExternalReferenceExport,
                            bv: BundleVariable, mgr: ModuleAnalyzerManager,
                            keys: seq<VarIndex>): seq<ModuleItem>
    requires forall k :: k in keys ==> k in ex.named
  {
    var specifiers := ExportSpecifiers(keys, ex, bv, mgr);
    (if EmitsExportAll(source, ex, mgr) then [ExportAll(source.value.id)] else [])
    + (if ex.default.Some? && !IndexIsEntry(bv, mgr, ex.default.value)
       then [ExportDefaultExpr(bv.renderName(ex.default.value))] else [])
    + (if specifiers != [] then [NamedExport(specifiers, source)] else [])
  }

  /** A key's local variable survives tree shaking and no earlier surviving
      key in `keys` (nor `taken`) has its render name. */
  ghost predicate IsFirstLive(keys: seq<VarIndex>, i: nat, ex: ExternalReferenceExport,
                              bv: BundleVariable, taken: set<string>)
    requires i < |keys| && forall k :: k in keys ==> k in ex.named
  {
    var rn := bv.renderName(ex.named[keys[i]]);
    && !bv.removed(ex.named[keys[i]])
    && rn !in taken
    && forall j :: 0 <= j < i ==> bv.removed(ex.named[keys[j]]) || bv.renderName(ex.named[keys[j]]) != rn
  }

  /** Kept keys come from `keys`, survive tree shaking, avoid `taken`, and
      have pairwise different render names. */
  lemma {:induction false} KeptKeysFacts(keys: seq<VarIndex>, ex: ExternalReferenceExport,
                                         bv: BundleVariable, taken: set<string>)
    requires forall k :: k in keys ==> k in ex.named
    ensures var kept := KeptKeys(keys, ex, bv, taken);
      && (forall k :: k in kept ==> k in keys)
      && (forall j :: 0 <= j < |kept| ==>
            !bv.removed(ex.named[kept[j]]) && bv.renderName(ex.named[kept[j]]) !in taken)
      && (forall i, j :: 0 <= i < j < |kept| ==>
            bv.renderName(ex.named[kept[i]]) != bv.renderName(ex.named[kept[j]]))
    decreases |keys|
  {
    if keys != [] {
      var local := ex.named[keys[0]];
      var rn := bv.renderName(local);
      assert forall k :: k in keys[1..] ==> k in keys;
      if bv.removed(local) || rn in taken {
        KeptKeysFacts(keys[1..], ex, bv, taken);
      } else {
        KeptKeysFacts(keys[1..], ex, bv, taken + {rn});
        var rest := KeptKeys(keys[1..], ex, bv, taken + {rn});
        assert forall j :: 1 <= j < |[keys[0]] + rest| ==> ([keys[0]] + rest)[j] == rest[j - 1];
      }
    }
  }

  /** Filtering keeps the order: the kept keys of sorted keys are sorted. */
  lemma {:induction false} KeptKeysSorted(keys: seq<VarIndex>, ex: ExternalReferenceExport,
                                          bv: BundleVariable, taken: set<string>)
    requires forall k :: k in keys ==> k in ex.named
    requires SortedBy(keys, bv.name)
    ensures SortedBy(KeptKeys(keys, ex, bv, taken), bv.name)
    decreases |keys|
  {
    if keys != [] {
      var local := ex.named[keys[0]];
      var rn := bv.renderName(local);
      assert forall k :: k in keys[1..] ==> k in keys;
      if bv.removed(local) || rn in taken {
        KeptKeysSorted(keys[1..], ex, bv, taken);
      } else {
        KeptKeysSorted(keys[1..], ex, bv, taken + {rn});
        var rest := KeptKeys(keys[1..], ex, bv, taken + {rn});
        forall j | 0 <= j < |rest| ensures LexLe(bv.name(keys[0]), bv.name(rest[j])) {
          assert rest[j] in keys[1..];
          var m :| 0 <= m < |keys[1..]| && keys[1..][m] == rest[j];
          assert keys[m + 1] == rest[j];
        }
        assert forall j :: 1 <= j < |[keys[0]] + rest| ==> ([keys[0]] + rest)[j] == rest[j - 1];
      }
    }
  }

  /** Only the first surviving key with a given render name is kept: a key is
      kept exactly when it is the first live one for its render name. */
  lemma {:induction false} KeptKeysFirstLive(keys: seq<VarIndex>, ex: ExternalReferenceExport,
                                             bv: BundleVariable, taken: set<string>)
    requires forall k :: k in keys ==> k in ex.named
    requires Distinct(keys)
    ensures forall i :: 0 <= i < |keys| ==>
      (keys[i] in KeptKeys(keys, ex, bv, taken) <==> IsFirstLive(keys, i, ex, bv, taken))
    decreases |keys|
  {
    if keys != [] {
      var local := ex.named[keys[0]];
      var rn := bv.renderName(local);
      var tail := keys[1..];
      assert forall k :: k in tail ==> k in keys;
      var taken' := if bv.removed(local) || rn in taken then taken else taken + {rn};
      KeptKeysFirstLive(tail, ex, bv, taken');
      KeptKeysFacts(tail, ex, bv, taken');
      assert keys[0] !in tail;
      var rest := KeptKeys(tail, ex, bv, taken');
      assert KeptKeys(keys, ex, bv, taken) == if taken' == taken then rest else [keys[0]] + rest;
      forall i | 0 < i < |keys|
        ensures keys[i] in KeptKeys(keys, ex, bv, taken) <==> IsFirstLive(keys, i, ex, bv, taken)
      {
        assert keys[i] == tail[i - 1] && keys[i] != keys[0];
        FirstLiveTail(keys, i, ex, bv, taken);
      }
    }
  }

  /** Past the first key, being first live in `keys` is being first live in
      the tail, with the first key's render name taken when it was kept. */
  lemma FirstLiveTail(keys: seq<VarIndex>, i: nat, ex: ExternalReferenceExport,
                      bv: BundleVariable, taken: set<string>)
    requires forall k :: k in keys ==> k in ex.named
    requires 0 < i < |keys|
    ensures forall k :: k in keys[1..] ==> k in ex.named
    ensures var local := ex.named[keys[0]];
      var rn := bv.renderName(local);
      var taken' := if bv.removed(local) || rn in taken then taken else taken + {rn};
      IsFirstLive(keys, i, ex, bv, taken) <==> IsFirstLive(keys[1..], i - 1, ex, bv, taken')
  {
    assert forall k :: k in keys[1..] ==> k in keys;
    assert forall j :: 1 <= j <= i ==> keys[j] == keys[1..][j - 1];
  }

  /** What the emitted named export specifiers say: in ascending order of the
      exported name, one per distinct render name, none for a removed
      variable, and each one binds the local render name under the exported
      name, or under the render name itself when `IndexIsEntry` holds; an
      alias is written only when it differs from the local name. */
  lemma NamedExportSpecifiers(keys: seq<VarIndex>, ex: ExternalReferenceExport,
                              bv: BundleVariable, mgr: ModuleAnalyzerManager)
    requires SortedEnumeration(keys, ex.named.Keys, bv.name)
    ensures var kept := KeptKeys(keys, ex, bv, {});
      && (forall k :: k in kept ==> k in ex.named)
      && var specs := NamedSpecifiers(kept, ex, bv, mgr);
      && SortedBy(kept, bv.name)
      && |specs| == |kept|
      && (forall j :: 0 <= j < |kept| ==>
            && kept[j] in ex.named
            && !bv.removed(ex.named[kept[j]])
            && specs[j].NamedExportSpec?
            && specs[j].orig == bv.renderName(ex.named[kept[j]])
            && ExportedAs(specs[j]) == (if IndexIsEntry(bv, mgr, ex.named[kept[j]])
                                       then bv.renderName(ex.named[kept[j]])
                                       else bv.name(kept[j]))
            && (specs[j].exported.Some? ==> specs[j].exported.value != specs[j].orig))
      && (forall i, j :: 0 <= i < j < |specs| ==> specs[i].orig != specs[j].orig)
  {
    assert forall k :: k in keys ==> k in ex.named;
    KeptKeysFacts(keys, ex, bv, {});
    KeptKeysSorted(keys, ex, bv, {});
  }

  /** `export * from m` is emitted exactly when `source` is the module
      `m`, the export asks for it and `m` is not CommonJS, and then it comes
      first. */
  lemma ExportAllPlacement(source: Option<ReferenceKind>, ex: ExternalReferenceExport,
                           bv: BundleVariable, mgr: ModuleAnalyzerManager, keys: seq<VarIndex>)
    requires forall k :: k in keys ==> k in ex.named
    ensures var stmts := ExportStatements(source, ex, bv, mgr, keys);
      && (forall m :: ExportAll(m) in stmts <==>
            source == Some(Module(m)) && ex.all && !mgr.isCommonJs(m))
      && (forall i :: 0 <= i < |stmts| && stmts[i].ExportAll? ==> i == 0)
  {
    var stmts := ExportStatements(source, ex, bv, mgr, keys);
    var rest := stmts[(if EmitsExportAll(source, ex, mgr) then 1 else 0)..];
    assert forall x :: x in rest ==> !x.ExportAll?;
  }

  /** At most one `export { ... }` is emitted, last, exactly when there are
      specifiers; it carries all of them, and `source` iff one was given. */
  lemma NamedExportPlacement(source: Option<ReferenceKind>, ex: ExternalReferenceExport,
                             bv: BundleVariable, mgr: ModuleAnalyzerManager, keys: seq<VarIndex>)
    requires forall k :: k in keys ==> k in ex.named
    ensures var stmts := ExportStatements(source, ex, bv, mgr, keys);
      var specs := ExportSpecifiers(keys, ex, bv, mgr);
      && (forall i :: 0 <= i < |stmts| && stmts[i].NamedExport? ==>
            i == |stmts| - 1 && stmts[i] == NamedExport(specs, source)
            && (stmts[i].exportSrc.Some? <==> source.Some?))
      && ((exists i :: 0 <= i < |stmts| && stmts[i].NamedExport?) <==> specs != [])
  {
    var stmts := ExportStatements(source, ex, bv, mgr, keys);
    var specs := ExportSpecifiers(keys, ex, bv, mgr);
    if specs != [] {
      assert stmts[|stmts| - 1].NamedExport?;
    }
  }

  /** The default export: an un-aliased specifier in the export clause when
      `IndexIsEntry` holds for it, an `export default` statement otherwise,
      and neither when there is no default. */
  lemma DefaultExportForm(source: Option<ReferenceKind>, ex: ExternalReferenceExport,
                          bv: BundleVariable, mgr: ModuleAnalyzerManager, keys: seq<VarIndex>)
    requires forall k :: k in keys ==> k in ex.named
    ensures var stmts := ExportStatements(source, ex, bv, mgr, keys);
      var specs := ExportSpecifiers(keys, ex, bv, mgr);
      && (forall n :: ExportDefaultExpr(n) in stmts <==>
            ex.default.Some? && !IndexIsEntry(bv, mgr, ex.default.value)
            && n == bv.renderName(ex.default.value))
      && (ex.default.Some? && IndexIsEntry(bv, mgr, ex.default.value) ==>
            specs != [] && specs[|specs| - 1] == NamedExportSpec(bv.renderName(ex.default.value), None))
  {
  }

  /** The loop of `generate_export` over the sorted named exports
      (generate.rs:46-74): skips removed variables, keeps the first key per
      render name in `uniq_sets`, and pushes one specifier per kept key. */
  method CollectNamedSpecifiers(orderedKeys: seq<VarIndex>, ex: ExternalReferenceExport,
                                bv: BundleVariable, mgr: ModuleAnalyzerManager)
    returns (specifiers: seq<ExportSpecifier>)
    requires forall k :: k in orderedKeys ==> k in ex.named
    ensures specifiers == NamedSpecifiers(KeptKeys(orderedKeys, ex, bv, {}), ex, bv, mgr)
  {
    specifiers := [];
    var uniqSets: set<string> := {};
    ghost var kept: seq<VarIndex> := [];
    for i := 0 to |orderedKeys|
      invariant forall k :: k in kept ==> k in ex.named
      invariant kept + KeptKeys(orderedKeys[i..], ex, bv, uniqSets) == KeptKeys(orderedKeys, ex, bv, {})
      invariant specifiers == NamedSpecifiers(kept, ex, bv, mgr)
    {
      assert orderedKeys[i..][0] == orderedKeys[i] && orderedKeys[i..][1..] == orderedKeys[i + 1..];
      var exported := orderedKeys[i];
      var local := ex.named[exported];
      ghost var rest := KeptKeys(orderedKeys[i + 1..], ex, bv, uniqSets);
      if bv.removed(local) {
        assert KeptKeys(orderedKeys[i..], ex, bv, uniqSets) == rest;
        continue;
      }
      var shouldReexportUniq := IndexIsEntry(bv, mgr, local);
      var namedRenderName := bv.renderName(local);
      var exportedName := bv.name(exported);
      if namedRenderName in uniqSets {
        assert KeptKeys(orderedKeys[i..], ex, bv, uniqSets) == rest;
        continue;
      }
      rest := KeptKeys(orderedKeys[i + 1..], ex, bv, uniqSets + {namedRenderName});
      assert KeptKeys(orderedKeys[i..], ex, bv, uniqSets) == [exported] + rest;
      assert kept + ([exported] + rest) == (kept + [exported]) + rest;
      uniqSets := uniqSets + {namedRenderName};
      var alias := if shouldReexportUniq || namedRenderName == exportedName then None else Some(exportedName);
      assert NamedSpecifiers(kept + [exported], ex, bv, mgr) == specifiers + [NamedExportSpec(namedRenderName, alias)];
      specifiers := specifiers + [NamedExportSpec(namedRenderName, alias)];
      kept := kept + [exported];
    }
    assert orderedKeys[|orderedKeys|..] == [];
  }

  /** `generate_export`: the named exports are visited in a stable sort of the
      map's keys by exported name; the result is exactly `ExportStatements`
      for that order. */
  method GenerateExport(source: Option<ReferenceKind>, ex: ExternalReferenceExport,
                        bv: BundleVariable, mgr: ModuleAnalyzerManager)
    returns (stmts: seq<ModuleItem>, keys: seq<VarIndex>)
    ensures SortedEnumeration(keys, ex.named.Keys, bv.name)
    ensures forall k :: k in keys ==> k in ex.named
    ensures stmts == ExportStatements(source, ex, bv, mgr, keys)
  {
    stmts := [];
    var orderedKeys := SortByKey(ex.named.Keys, bv.name);
    keys := orderedKeys;
    assert forall k :: k in keys ==> k in ex.named;
    var specifiers := CollectNamedSpecifiers(orderedKeys, ex, bv, mgr);
    ghost var named := specifiers;
    if ex.namespace.Some? {
      specifiers := specifiers + [NamespaceExportSpec(bv.name(ex.namespace.value))];
    }
    if source.Some? && source.value.Module? {
      if ex.all && !mgr.isCommonJs(source.value.id) {
        stmts := stmts + [ExportAll(source.value.id)];
      }
    }
    if ex.default.Some? {
      var name := bv.renderName(ex.default.value);
      if IndexIsEntry(bv, mgr, ex.default.value) {
        specifiers := specifiers + [NamedExportSpec(name, None)];
      } else {
        stmts := stmts + [ExportDefaultExpr(name)];
      }
    }
    assert specifiers == named
      + (if ex.namespace.Some? then [NamespaceExportSpec(bv.name(ex.namespace.value))] else [])
      + (if ex.default.Some? && IndexIsEntry(bv, mgr, ex.default.value)
         then [NamedExportSpec(bv.renderName(ex.default.value), None)] else []);
    if specifiers != [] {
      stmts := stmts + [NamedExport(specifiers, source)];
    }
  }
}
