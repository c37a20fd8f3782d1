/** `__commonJs(mod)` (crates/compiler/tests/fixtures/script/native_top_level_await/output.js:46-61):
    wraps a CommonJS module factory in a thunk that runs the factory on its
    first call and afterwards returns `module.exports`. The captured
    `module` variable is a field of the thunk; it is updated before the
    factory runs, so a call made while the factory runs (a require cycle
    back into this module) sees the exports filled so far. */
module CommonJs {
  import opened Options
  import opened JsHeap
  import opened Interop

  /** How a call ends: with a value, or by throwing one. */
  datatype Completion = Normal(value: JsValue) | Abrupt(error: JsValue)

  /** `{exports: <exportsId>}`. */
  function ModuleRecord(exportsId: ObjectId): JsObject {
    JsObject(["exports"], map["exports" := Data(Ref(exportsId))], None)
  }

  /** `Object.keys(mod)[0]` used as a property key: the first own key, or
      `"undefined"` when there is none. */
  function FirstKey(h: Heap, mod: JsValue): string {
    if mod.Ref? && mod.id in h.objects && h.objects[mod.id].keys != [] then h.objects[mod.id].keys[0]
    else "undefined"
  }

  /** The factory the thunk calls: `mod` itself when it is a function,
      otherwise `mod[Object.keys(mod)[0]]`; `None` when that value is not a
      function, in which case the call throws a TypeError. */
  function ResolveFactory(h: Heap, mod: JsValue, depth: nat): (r: Option<seq<FactoryStep>>)
    ensures mod.Ref? && mod.id in h.objects && h.objects[mod.id].IsFunction() ==> r == h.objects[mod.id].code
    ensures r.Some? ==> exists id :: id in h.objects && h.objects[id].code == r
  {
    if mod.Ref? && mod.id in h.objects && h.objects[mod.id].IsFunction() then h.objects[mod.id].code
    else
      var f := Get(h, mod, FirstKey(h, mod), depth);
      if f.Ref? && f.id in h.objects && h.objects[f.id].IsFunction() then h.objects[f.id].code else None
  }

  /** A module table `{"id": factory, ...}` runs the factory under its first
      key; a table without keys looks up the key `"undefined"`, and a value
      that is not a function is never run. */
  lemma FactoryTableUsesFirstKey(h: Heap, mod: JsValue, depth: nat)
    requires mod.Ref? && mod.id in h.objects && !h.objects[mod.id].IsFunction()
    ensures var o := h.objects[mod.id];
            o.keys != [] && o.keys[0] in o.props && o.props[o.keys[0]].Data? ==>
              var f := o.props[o.keys[0]].value;
              ResolveFactory(h, mod, depth) ==
                if f.Ref? && f.id in h.objects && h.objects[f.id].IsFunction() then h.objects[f.id].code else None
    ensures var o := h.objects[mod.id];
            o.keys == [] && "undefined" !in o.props ==> ResolveFactory(h, mod, depth) == None
  {
  }

  /** The assignment a statement other than `throw` performs: the target
      object, the key and the value. A require of this module from inside
      the factory gives the current `module.exports`, because `module` is
      already set. */
  function StepAssignment(h: Heap, step: FactoryStep, moduleId: ObjectId, exportsId: ObjectId, depth: nat)
    : (ObjectId, string, JsValue)
    requires !step.Throw?
  {
    match step
    case SetExport(k, v) => (exportsId, k, v)
    case AssignModuleExports(v) => (moduleId, "exports", v)
    case RequireSelf(k) => (exportsId, k, Get(h, Ref(moduleId), "exports", depth))
  }

  /** The effect of running the factory statements `steps` with the module
      record `moduleId` and the original exports object `exportsId`. */
  function RunFactory(h: Heap, steps: seq<FactoryStep>, moduleId: ObjectId, exportsId: ObjectId, depth: nat)
    : (r: (Completion, Heap))
    ensures r.1.objects.Keys == h.objects.Keys && r.1.next == h.next
    decreases |steps|
  {
    if steps == [] then (Normal(Undefined), h)
    else if steps[0].Throw? then (Abrupt(steps[0].error), h)
    else
      var a := StepAssignment(h, steps[0], moduleId, exportsId, depth);
      match Assign(h, Ref(a.0), a.1, a.2)
      case None => (Abrupt(TypeError), h)
      case Some(h') => RunFactory(h', steps[1..], moduleId, exportsId, depth)
  }

  /** The heap after `module = {exports: {}}`: the exports object is
      allocated at `h.next`, then the module record at `h.next + 1`. */
  function ModuleSetUp(h: Heap): Heap {
    Alloc(Alloc(h, EmptyObject).1, ModuleRecord(h.next)).1
  }

  /** The first call of the thunk: `module = {exports: {}}`, then the
      factory runs; the call returns `module.exports` as the factory left
      it, or throws what the factory threw. */
  function FirstCall(h: Heap, mod: JsValue, depth: nat): (r: (Completion, Heap))
  {
    var h2 := ModuleSetUp(h);
    match ResolveFactory(h2, mod, depth)
    case None => (Abrupt(TypeError), h2)
    case Some(steps) =>
      var (c, h3) := RunFactory(h2, steps, h.next + 1, h.next, depth);
      if c.Abrupt? then (c, h3) else (Normal(Get(h3, Ref(h.next + 1), "exports", depth)), h3)
  }

  /** A first call that returns normally returns `module.exports` as the
      factory left it, read from the module record allocated at
      `h.next + 1`. */
  lemma FirstCallReturnsExports(h: Heap, mod: JsValue, depth: nat)
    ensures var r := FirstCall(h, mod, depth);
      r.0.Normal? ==> r.0 == Normal(Get(r.1, Ref(h.next + 1), "exports", depth))
  {
  }

  /** Setting up the module record leaves every object of `h` as it was, so
      a function object of `h` is still its own factory. */
  lemma SetUpKeepsFactory(h: Heap, f: ObjectId, depth: nat)
    requires f in h.objects && f < h.next && h.objects[f].IsFunction()
    ensures ResolveFactory(ModuleSetUp(h), Ref(f), depth) == h.objects[f].code
  {
    assert ModuleSetUp(h).objects[f] == h.objects[f];
  }

  /** Running `p + q` runs `p`, then, when `p` completes normally, `q` on
      the heap `p` left; a throw in `p` skips `q`. */
  lemma {:induction false} RunFactoryAppend(h: Heap, p: seq<FactoryStep>, q: seq<FactoryStep>,
                                            moduleId: ObjectId, exportsId: ObjectId, depth: nat)
    ensures RunFactory(h, p + q, moduleId, exportsId, depth) ==
      var r := RunFactory(h, p, moduleId, exportsId, depth);
      if r.0.Normal? then RunFactory(r.1, q, moduleId, exportsId, depth) else r
    decreases |p|
  {
    if p == [] {
      assert p + q == q;
    } else {
      assert (p + q)[0] == p[0] && (p + q)[1..] == p[1..] + q;
      if !p[0].Throw? {
        var a := StepAssignment(h, p[0], moduleId, exportsId, depth);
        match Assign(h, Ref(a.0), a.1, a.2)
        case None =>
        case Some(h') => RunFactoryAppend(h', p[1..], q, moduleId, exportsId, depth);
      }
    }
  }

  /** Statements that never assign `module.exports` leave the module record
      as it was: they only write to the exports object. */
  lemma {:induction false} RunFactoryKeepsModule(h: Heap, steps: seq<FactoryStep>,
                                                 moduleId: ObjectId, exportsId: ObjectId, depth: nat)
    requires moduleId != exportsId && moduleId in h.objects
    requires forall j :: 0 <= j < |steps| ==> !steps[j].AssignModuleExports?
    ensures RunFactory(h, steps, moduleId, exportsId, depth).1.objects[moduleId] == h.objects[moduleId]
    decreases |steps|
  {
    if steps != [] && !steps[0].Throw? {
      var a := StepAssignment(h, steps[0], moduleId, exportsId, depth);
      assert a.0 == exportsId;
      match Assign(h, Ref(a.0), a.1, a.2)
      case None =>
      case Some(h') =>
        assert h'.objects[moduleId] == h.objects[moduleId];
        assert forall j :: 0 <= j < |steps[1..]| ==> steps[1..][j] == steps[j + 1];
        RunFactoryKeepsModule(h', steps[1..], moduleId, exportsId, depth);
    }
  }

  /** A run of `prefix`, a `throw`, then `rest` ends at the `throw` with its
      value and the heap `prefix` left, when `prefix` completes normally. */
  lemma RunFactoryThrowsAfter(h: Heap, prefix: seq<FactoryStep>, error: JsValue, rest: seq<FactoryStep>,
                              moduleId: ObjectId, exportsId: ObjectId, depth: nat)
    requires RunFactory(h, prefix, moduleId, exportsId, depth).0.Normal?
    ensures RunFactory(h, prefix + [Throw(error)] + rest, moduleId, exportsId, depth) ==
              (Abrupt(error), RunFactory(h, prefix, moduleId, exportsId, depth).1)
  {
    assert prefix + [Throw(error)] + rest == prefix + ([Throw(error)] + rest);
    RunFactoryAppend(h, prefix, [Throw(error)] + rest, moduleId, exportsId, depth);
  }

  /** A first call whose factory run throws ends with that throw and the
      heap the run left. */
  lemma FirstCallAbrupt(h: Heap, mod: JsValue, steps: seq<FactoryStep>, depth: nat, error: JsValue, h3: Heap)
    requires ResolveFactory(ModuleSetUp(h), mod, depth) == Some(steps)
    requires RunFactory(ModuleSetUp(h), steps, h.next + 1, h.next, depth) == (Abrupt(error), h3)
    ensures FirstCall(h, mod, depth) == (Abrupt(error), h3)
  {
    assert FirstCall(h, mod, depth) == RunFactory(ModuleSetUp(h), steps, h.next + 1, h.next, depth);
  }

  /** A factory `prefix + [throw error] + rest` whose statements before the
      `throw` complete makes the first call throw `error`; the heap keeps
      every export those statements wrote. */
  lemma ThrowKeepsPartialExports(h: Heap, f: ObjectId, prefix: seq<FactoryStep>, error: JsValue,
                                 rest: seq<FactoryStep>, depth: nat)
    requires f in h.objects && f < h.next && h.objects[f].code == Some(prefix + [Throw(error)] + rest)
    requires RunFactory(ModuleSetUp(h), prefix, h.next + 1, h.next, depth).0.Normal?
    ensures FirstCall(h, Ref(f), depth) ==
              (Abrupt(error), RunFactory(ModuleSetUp(h), prefix, h.next + 1, h.next, depth).1)
  {
    SetUpKeepsFactory(h, f, depth);
    RunFactoryThrowsAfter(ModuleSetUp(h), prefix, error, rest, h.next + 1, h.next, depth);
    FirstCallAbrupt(h, Ref(f), prefix + [Throw(error)] + rest, depth, error,
                    RunFactory(ModuleSetUp(h), prefix, h.next + 1, h.next, depth).1);
  }

  /** Statement `i` requiring this module, when no earlier statement
      reassigned `module.exports`, reads the original exports object as the
      earlier statements filled it and stores exactly that object. */
  lemma RunFactoryRequireSelfAt(h: Heap, steps: seq<FactoryStep>, i: nat,
                                moduleId: ObjectId, exportsId: ObjectId, depth: nat)
    requires i < |steps| && steps[i].RequireSelf?
    requires moduleId != exportsId && moduleId in h.objects && h.objects[moduleId] == ModuleRecord(exportsId)
    requires forall j :: 0 <= j < i ==> !steps[j].AssignModuleExports?
    ensures var pre := RunFactory(h, steps[..i], moduleId, exportsId, depth);
            pre.0.Normal? ==>
              Get(pre.1, Ref(moduleId), "exports", depth) == Ref(exportsId) &&
              RunFactory(h, steps, moduleId, exportsId, depth) ==
                RunFactory(pre.1, [SetExport(steps[i].key, Ref(exportsId))] + steps[i + 1..], moduleId, exportsId, depth)
  {
    var pre := RunFactory(h, steps[..i], moduleId, exportsId, depth);
    assert forall j :: 0 <= j < |steps[..i]| ==> steps[..i][j] == steps[j];
    RunFactoryKeepsModule(h, steps[..i], moduleId, exportsId, depth);
    assert steps == steps[..i] + steps[i..];
    RunFactoryAppend(h, steps[..i], steps[i..], moduleId, exportsId, depth);
    if pre.0.Normal? {
      assert pre.1.objects[moduleId] == ModuleRecord(exportsId);
      var q := [SetExport(steps[i].key, Ref(exportsId))] + steps[i + 1..];
      assert steps[i..][0] == steps[i] && steps[i..][1..] == steps[i + 1..];
      assert q[0] == SetExport(steps[i].key, Ref(exportsId)) && q[1..] == steps[i + 1..];
    }
  }

  /** A require of this module made by statement `i` of its own factory,
      with no earlier statement reassigning `module.exports`, sees the
      original exports object as the statements before it filled it: the
      statement stores exactly that object, and the run goes on from
      there. */
  lemma SelfRequireSeesPartialExports(h: Heap, f: ObjectId, steps: seq<FactoryStep>, i: nat, depth: nat)
    requires f in h.objects && f < h.next && h.objects[f].code == Some(steps)
    requires i < |steps| && steps[i].RequireSelf?
    requires forall j :: 0 <= j < i ==> !steps[j].AssignModuleExports?
    ensures ResolveFactory(ModuleSetUp(h), Ref(f), depth) == Some(steps)
    ensures var pre := RunFactory(ModuleSetUp(h), steps[..i], h.next + 1, h.next, depth);
            pre.0.Normal? ==>
              Get(pre.1, Ref(h.next + 1), "exports", depth) == Ref(h.next) &&
              RunFactory(ModuleSetUp(h), steps, h.next + 1, h.next, depth) ==
                RunFactory(pre.1, [SetExport(steps[i].key, Ref(h.next))] + steps[i + 1..], h.next + 1, h.next, depth)
  {
    SetUpKeepsFactory(h, f, depth);
    assert ModuleSetUp(h).objects[h.next + 1] == ModuleRecord(h.next);
    RunFactoryRequireSelfAt(ModuleSetUp(h), steps, i, h.next + 1, h.next, depth);
  }

  /** The thunk returned by `__commonJs(mod)`, with its captured `module`
      variable as `moduleRecord`; `factoryRuns` counts the factory's runs. */
  class CommonJsThunk {
    const realm: Realm
    const mod: JsValue
    var moduleRecord: Option<ObjectId>
    ghost var factoryRuns: nat

    /** The factory has run at most once, and not before `module` is set. */
    ghost predicate Valid()
      reads this, realm
    {
      && realm.Valid()
      && (moduleRecord.Some? ==> moduleRecord.value in realm.heap.objects)
      && factoryRuns <= 1
      && (moduleRecord.None? ==> factoryRuns == 0)
    }

    /** `__commonJs(mod)`. */
    constructor(realm: Realm, mod: JsValue)
      requires realm.Valid()
      ensures Valid() && this.realm == realm && this.mod == mod && moduleRecord.None?
    {
      this.realm := realm;
      this.mod := mod;
      moduleRecord := None;
      factoryRuns := 0;
    }

    /** Calls the thunk. The first call sets `module`, runs the factory and
        returns `module.exports` (or throws what the factory threw, leaving
        `module` set); a `mod` with no factory throws a TypeError without
        running anything. Every later call returns `module.exports` without
        running anything. */
    method Call() returns (c: Completion)
      requires Valid()
      modifies this, realm
      ensures Valid() && moduleRecord.Some?
      ensures realm.cachesCreated == old(realm.cachesCreated)
      ensures realm.babelCache == old(realm.babelCache) && realm.nodeCache == old(realm.nodeCache)
      ensures old(moduleRecord).Some? ==>
                && moduleRecord == old(moduleRecord) && realm.heap == old(realm.heap)
                && factoryRuns == old(factoryRuns)
                && c == Normal(Get(realm.heap, Ref(moduleRecord.value), "exports", realm.depth))
      ensures old(moduleRecord).None? ==>
                && moduleRecord == Some(old(realm.heap).next + 1)
                && (c, realm.heap) == FirstCall(old(realm.heap), mod, realm.depth)
                && factoryRuns == if ResolveFactory(ModuleSetUp(old(realm.heap)), mod, realm.depth).Some? then 1 else 0
      decreases if moduleRecord.None? then 1 else 0, 0
    {
      if moduleRecord.Some? {
        return Normal(Get(realm.heap, Ref(moduleRecord.value), "exports", realm.depth));
      }
      var moduleId, exportsId := CreateModuleRecord();
      moduleRecord := Some(moduleId);
      var factory := ResolveFactory(realm.heap, mod, realm.depth);
      if factory.None? {
        return Abrupt(TypeError);
      }
      factoryRuns := factoryRuns + 1;
      c := RunSteps(factory.value, moduleId, exportsId);
      if c.Normal? {
        c := Normal(Get(realm.heap, Ref(moduleId), "exports", realm.depth));
      }
    }

    /** `module = {exports: {}}`: allocates the exports object, then the
        module record that points at it. */
    method CreateModuleRecord() returns (moduleId: ObjectId, exportsId: ObjectId)
      requires realm.Valid()
      modifies realm
      ensures realm.Valid()
      ensures realm.cachesCreated == old(realm.cachesCreated)
      ensures realm.babelCache == old(realm.babelCache) && realm.nodeCache == old(realm.nodeCache)
      ensures exportsId == old(realm.heap).next && moduleId == exportsId + 1
      ensures realm.heap == ModuleSetUp(old(realm.heap))
    {
      AllocValid(realm.heap, EmptyObject);
      var e := Alloc(realm.heap, EmptyObject);
      realm.heap := e.1;
      AllocValid(realm.heap, ModuleRecord(e.0));
      var m := Alloc(realm.heap, ModuleRecord(e.0));
      realm.heap := m.1;
      moduleId, exportsId := m.0, e.0;
    }

    /** Runs the factory statements `steps` (the body of `mod(module,
        module.exports)`); a require of this module inside it is a real,
        re-entrant call of the thunk. */
    method RunSteps(steps: seq<FactoryStep>, moduleId: ObjectId, exportsId: ObjectId) returns (c: Completion)
      requires Valid() && moduleRecord == Some(moduleId) && exportsId in realm.heap.objects
      modifies this, realm
      ensures Valid() && moduleRecord == old(moduleRecord) && factoryRuns == old(factoryRuns)
      ensures realm.cachesCreated == old(realm.cachesCreated)
      ensures realm.babelCache == old(realm.babelCache) && realm.nodeCache == old(realm.nodeCache)
      ensures (c, realm.heap) == RunFactory(old(realm.heap), steps, moduleId, exportsId, realm.depth)
      decreases 0, |steps|
    {
      if steps == [] {
        return Normal(Undefined);
      }
      if steps[0].Throw? {
        return Abrupt(steps[0].error);
      }
      ghost var before := realm.heap;
      var target: ObjectId, key: string, value: JsValue;
      match steps[0] {
        case SetExport(k, v) =>
          target, key, value := exportsId, k, v;
        case AssignModuleExports(v) =>
          target, key, value := moduleId, "exports", v;
        case RequireSelf(k) =>
          var required := Call();
          target, key, value := exportsId, k, required.value;
      }
      assert (target, key, value) == StepAssignment(before, steps[0], moduleId, exportsId, realm.depth);
      var ok := AssignProperty(target, key, value);
      if !ok {
        return Abrupt(TypeError);
      }
      c := RunSteps(steps[1..], moduleId, exportsId);
    }

    /** The strict-mode assignment `target[key] = value` one factory
        statement performs; `false` when it throws a TypeError. */
    method AssignProperty(target: ObjectId, key: string, value: JsValue) returns (ok: bool)
      requires Valid()
      modifies realm
      ensures Valid()
      ensures realm.cachesCreated == old(realm.cachesCreated)
      ensures realm.babelCache == old(realm.babelCache) && realm.nodeCache == old(realm.nodeCache)
      ensures ok == Assign(old(realm.heap), Ref(target), key, value).Some?
      ensures realm.heap == if ok then Assign(old(realm.heap), Ref(target), key, value).value else old(realm.heap)
    {
      var updated := Assign(realm.heap, Ref(target), key, value);
      if updated.None? {
        return false;
      }
      AssignValid(realm.heap, Ref(target), key, value);
      realm.heap := updated.value;
      ok := true;
    }
  }

  /** Calling a thunk twice runs its factory at most once: the second
      call leaves the heap and the run count as the first call left them,
      returns `module.exports` normally, even when the first call threw,
      and returns the same value as the first call when that one returned. */
  method CallTwice(thunk: CommonJsThunk) returns (first: Completion, second: Completion)
    requires thunk.Valid()
    modifies thunk, thunk.realm
    ensures thunk.Valid() && thunk.moduleRecord.Some? && thunk.factoryRuns <= 1
    ensures old(thunk.moduleRecord).None? ==>
              && (first, thunk.realm.heap) == FirstCall(old(thunk.realm.heap), thunk.mod, thunk.realm.depth)
              && thunk.factoryRuns ==
                   if ResolveFactory(ModuleSetUp(old(thunk.realm.heap)), thunk.mod, thunk.realm.depth).Some? then 1 else 0
    ensures old(thunk.moduleRecord).Some? ==>
              thunk.realm.heap == old(thunk.realm.heap) && thunk.factoryRuns == old(thunk.factoryRuns)
    ensures second == Normal(Get(thunk.realm.heap, Ref(thunk.moduleRecord.value), "exports", thunk.realm.depth))
    ensures first.Normal? ==> second == first
  {
    ghost var h0 := thunk.realm.heap;
    first := thunk.Call();
    ghost var h1 := thunk.realm.heap;
    ghost var runs1 := thunk.factoryRuns;
    FirstCallReturnsExports(h0, thunk.mod, thunk.realm.depth);
    assert first.Normal? ==>
      first == Normal(Get(h1, Ref(thunk.moduleRecord.value), "exports", thunk.realm.depth));
    second := thunk.Call();
    assert thunk.realm.heap == h1 && thunk.factoryRuns == runs1;
  }
}
