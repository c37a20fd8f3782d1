/** The inputs and outputs of the ES-module statement generator of the
    bundle plugin (crates/plugin_bundle/src/resource_pot_to_bundle/targets/esm/generate.rs).
    The bundler's variable table and module analyser are not part of this
    model: they appear as records of functions, so every property proved
    below holds whatever those functions return. The SWC syntax tree is
    replaced by the few declaration and specifier forms the generator
    builds (ECMA-262, section 16.2, "Modules"). */
module EsmTypes {
  import opened Options

  /** A module id, compared as its string. */
  type ModuleId = string

  /** An index into the bundle's variable table. */
  type VarIndex = nat

  /** Where a reference points: another bundle, or a module. */
  datatype ReferenceKind = Bundle(bundleName: string) | Module(id: ModuleId)

  /** The variable table (`BundleVariable`): a variable's original name, its
      name after conflict renaming, whether tree shaking removed it, and the
      module that declares it, if known. */
  datatype BundleVariable = BundleVariable(
    name: VarIndex -> string,
    renderName: VarIndex -> string,
    removed: VarIndex -> bool,
    moduleOf: VarIndex -> Option<ModuleId>)

  /** The facts `ModuleAnalyzerManager` answers about a module;
      `resourcePotOf(m)` is `module_analyzer(m).map(|m| m.resource_pot_id)`. */
  datatype ModuleAnalyzerManager = ModuleAnalyzerManager(
    isEntry: ModuleId -> bool,
    isCommonJs: ModuleId -> bool,
    isExternal: ModuleId -> bool,
    resourcePotOf: ModuleId -> Option<string>)

  /** What one bundle re-exports from one source: named exports (exported
      variable to local variable), an optional namespace variable, an
      optional default variable, and whether `export *` was requested (the
      first component of the `all` pair in generate.rs). */
  datatype ExternalReferenceExport = ExternalReferenceExport(
    named: map<VarIndex, VarIndex>,
    namespace: Option<VarIndex>,
    default: Option<VarIndex>,
    all: bool)

  /** What one bundle imports from one source: named imports (imported name
      to local variable), an optional namespace variable and an optional
      default variable. */
  datatype ExternalReferenceImport = ExternalReferenceImport(
    named: map<string, VarIndex>,
    namespace: Option<VarIndex>,
    default: Option<VarIndex>)
  {
    /** Nothing is imported: such a source still yields `import "url"`. */
    predicate IsEmpty() {
      named == map[] && namespace.None? && default.None?
    }
  }

  /** `orig as exported` (or just `orig`) and `* as name` in an export clause. */
  datatype ExportSpecifier =
    | NamedExportSpec(orig: string, exported: Option<string>)
    | NamespaceExportSpec(name: string)

  /** `imported as local` (or just `local`), `* as local` and a default
      binding in an import clause. */
  datatype ImportSpecifier =
    | NamedImportSpec(local: string, imported: Option<string>)
    | NamespaceImportSpec(local: string)
    | DefaultImportSpec(local: string)

  /** The module items the generator emits. */
  datatype ModuleItem =
    | ExportAll(allSrc: ModuleId)
    | ExportDefaultExpr(ident: string)
    | NamedExport(exportSpecifiers: seq<ExportSpecifier>, exportSrc: Option<ReferenceKind>)
    | ImportDecl(importSpecifiers: seq<ImportSpecifier>, importSrc: string)
}
