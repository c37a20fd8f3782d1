/** The loop that hands a resource pot's module table to the module system
    (crates/compiler/tests/fixtures/script/native_top_level_await/output.js:68):
    for each key of the table, in `for…in` order, the factory under that
    key is tagged with the resource pot's filename and then registered
    under the key. The module system's `register` is not part of this
    model: each call is recorded, in order, as the loop's output. */
module ResourcePotRegister {
  import opened Options
  import opened JsHeap
  import opened Interop
  import opened CommonJs

  /** One `register(id, factory)` call. */
  datatype Registration = Registration(id: string, factory: JsValue)

  /** The property every factory is tagged with. */
  const ResourcePotKey: string := "__farm_resource_pot__"

  /** The keys `for (var r in table)` visits: the table's own keys as they
      were when the loop began; a primitive table has none. */
  function TableKeys(h: Heap, table: JsValue): seq<string> {
    if table.Ref? && table.id in h.objects then h.objects[table.id].keys else []
  }

  /** One iteration for the key `id`: `table[id].__farm_resource_pot__ =
      filename`, then the call `register(id, table[id])`; `None` when the
      assignment throws a TypeError. */
  function RegisterStep(h: Heap, table: JsValue, id: string, filename: string, depth: nat)
    : (r: Option<(Registration, Heap)>)
    ensures r.Some? ==> r.value.0.id == id
  {
    match Assign(h, Get(h, table, id, depth), ResourcePotKey, Str(filename))
    case None => None
    case Some(h1) => Some((Registration(id, Get(h1, table, id, depth)), h1))
  }

  /** The calls made, the completion and the heap after the loop has
      visited `keys`; a failed assignment ends the loop with a TypeError. */
  function RegisterFrom(h: Heap, table: JsValue, keys: seq<string>, filename: string, depth: nat)
    : (r: (seq<Registration>, Completion, Heap))
    ensures |r.0| <= |keys|
    decreases |keys|
  {
    if keys == [] then ([], Normal(Undefined), h)
    else
      match RegisterStep(h, table, keys[0], filename, depth)
      case None => ([], Abrupt(TypeError), h)
      case Some(step) =>
        var rest := RegisterFrom(step.1, table, keys[1..], filename, depth);
        ([step.0] + rest.0, rest.1, rest.2)
  }

  /** On any table, the loop makes at most one `register` call per key, in
      key order, and calls for every key exactly when it completes; the
      only way it ends early is the TypeError of a failed tagging. */
  lemma {:induction false} RegisterFromCalls(h: Heap, table: JsValue, keys: seq<string>, filename: string, depth: nat)
    ensures var r := RegisterFrom(h, table, keys, filename, depth);
      && (forall i :: 0 <= i < |r.0| ==> r.0[i].id == keys[i])
      && (r.1 == Normal(Undefined) || r.1 == Abrupt(TypeError))
      && (r.1.Normal? <==> |r.0| == |keys|)
    decreases |keys|
  {
    if keys != [] {
      match RegisterStep(h, table, keys[0], filename, depth)
      case None =>
      case Some(step) =>
        RegisterFromCalls(step.1, table, keys[1..], filename, depth);
        var rest := RegisterFrom(step.1, table, keys[1..], filename, depth);
        assert forall i :: 0 < i <= |rest.0| ==> ([step.0] + rest.0)[i] == rest.0[i - 1] && keys[i] == keys[1..][i - 1];
    }
  }

  /** The shape of the table the bundler emits: an object whose every own
      property is a data property holding another object (the factory),
      whose tag, if present, is a data property. */
  ghost predicate FactoryTable(h: Heap, table: ObjectId) {
    && table in h.objects
    && forall k :: k in h.objects[table].props ==>
         var p := h.objects[table].props[k];
         && p.Data? && p.value.Ref? && p.value.id in h.objects && p.value.id != table
         && (ResourcePotKey in h.objects[p.value.id].props ==> h.objects[p.value.id].props[ResourcePotKey].Data?)
  }

  /** `f` carries the tag `filename`. */
  ghost predicate Tagged(h: Heap, f: ObjectId, filename: string) {
    f in h.objects && ResourcePotKey in h.objects[f].props
    && h.objects[f].props[ResourcePotKey] == Data(Str(filename))
  }

  /** Tagging the factory under the key `id` of the bundler's table
      succeeds and registers that factory; the table, its shape and every
      earlier tag are kept, and the factory is tagged. */
  lemma TagFactory(h: Heap, table: ObjectId, id: string, filename: string, depth: nat)
    requires FactoryTable(h, table) && id in h.objects[table].props
    ensures var f := h.objects[table].props[id].value;
      var step := RegisterStep(h, Ref(table), id, filename, depth);
      && step.Some? && step.value.0 == Registration(id, f)
      && var h1 := step.value.1;
      && h1.objects.Keys == h.objects.Keys
      && h1.objects[table] == h.objects[table]
      && FactoryTable(h1, table)
      && Tagged(h1, f.id, filename)
      && (forall g :: Tagged(h, g, filename) ==> Tagged(h1, g, filename))
  {
    var f := h.objects[table].props[id].value;
    var h1 := Assign(h, f, ResourcePotKey, Str(filename)).value;
    assert h1.objects == h.objects[f.id := SetOwn(h.objects[f.id], ResourcePotKey, Data(Str(filename)))];
  }

  /** On the bundler's table the loop completes and registers every key
      once, in order, with the factory under it, leaving the table and its
      shape unchanged. */
  lemma {:induction false} RegisterFromTable(h: Heap, table: ObjectId, keys: seq<string>, filename: string, depth: nat)
    requires FactoryTable(h, table)
    requires forall k :: k in keys ==> k in h.objects[table].props
    ensures var r := RegisterFrom(h, Ref(table), keys, filename, depth);
      && r.1 == Normal(Undefined)
      && |r.0| == |keys|
      && (forall i :: 0 <= i < |keys| ==>
            r.0[i] == Registration(keys[i], h.objects[table].props[keys[i]].value))
      && r.2.objects.Keys == h.objects.Keys
      && r.2.objects[table] == h.objects[table]
      && FactoryTable(r.2, table)
    decreases |keys|
  {
    if keys != [] {
      TagFactory(h, table, keys[0], filename, depth);
      var h1 := RegisterStep(h, Ref(table), keys[0], filename, depth).value.1;
      assert forall k :: k in keys[1..] ==> k in keys;
      RegisterFromTable(h1, table, keys[1..], filename, depth);
      assert forall i :: 0 < i < |keys| ==> keys[i] == keys[1..][i - 1];
    }
  }

  /** The same loop tags every factory it registers with `filename` and
      keeps every tag set before. */
  lemma {:induction false} RegisterFromTags(h: Heap, table: ObjectId, keys: seq<string>, filename: string, depth: nat)
    requires FactoryTable(h, table)
    requires forall k :: k in keys ==> k in h.objects[table].props
    ensures var r := RegisterFrom(h, Ref(table), keys, filename, depth);
      && (forall i :: 0 <= i < |keys| ==> Tagged(r.2, h.objects[table].props[keys[i]].value.id, filename))
      && (forall f :: Tagged(h, f, filename) ==> Tagged(r.2, f, filename))
    decreases |keys|
  {
    if keys != [] {
      TagFactory(h, table, keys[0], filename, depth);
      var h1 := RegisterStep(h, Ref(table), keys[0], filename, depth).value.1;
      assert forall k :: k in keys[1..] ==> k in keys;
      RegisterFromTags(h1, table, keys[1..], filename, depth);
      assert forall i :: 0 < i < |keys| ==> keys[i] == keys[1..][i - 1];
    }
  }

  /** The loop `for (var r in _) { _[r].__farm_resource_pot__ = filename;
      register(r, _[r]) }`, returning the `register` calls it made. */
  method RegisterResourcePot(realm: Realm, table: JsValue, filename: string)
    returns (calls: seq<Registration>, c: Completion)
    requires realm.Valid()
    modifies realm
    ensures realm.Valid()
    ensures realm.cachesCreated == old(realm.cachesCreated)
    ensures realm.babelCache == old(realm.babelCache) && realm.nodeCache == old(realm.nodeCache)
    ensures (calls, c, realm.heap) == RegisterFrom(old(realm.heap), table, TableKeys(old(realm.heap), table), filename, realm.depth)
  {
    ghost var spec := RegisterFrom(realm.heap, table, TableKeys(realm.heap, table), filename, realm.depth);
    var keys := TableKeys(realm.heap, table);
    calls := [];
    assert keys[0..] == keys;
    assert [] + spec.0 == spec.0;
    for i := 0 to |keys|
      invariant realm.Valid()
      invariant realm.cachesCreated == old(realm.cachesCreated)
      invariant realm.babelCache == old(realm.babelCache) && realm.nodeCache == old(realm.nodeCache)
      invariant Prepend(calls, RegisterFrom(realm.heap, table, keys[i..], filename, realm.depth)) == spec
    {
      ghost var before := realm.heap;
      RegisterFromUnfold(before, table, keys, i, filename, realm.depth);
      var call := RegisterKey(realm, table, keys[i], filename);
      if call.None? {
        assert calls + [] == calls;
        return calls, Abrupt(TypeError);
      }
      PrependTwice(calls, call.value, RegisterFrom(realm.heap, table, keys[i + 1..], filename, realm.depth));
      calls := calls + [call.value];
    }
    assert keys[|keys|..] == [];
    assert calls + [] == calls;
    c := Normal(Undefined);
  }

  /** `calls` made before the rest of the loop, whose outcome is `r`. */
  function Prepend(calls: seq<Registration>, r: (seq<Registration>, Completion, Heap))
    : (seq<Registration>, Completion, Heap)
  {
    (calls + r.0, r.1, r.2)
  }

  /** The loop from the `i`-th key on is one step followed by the loop from
      the next key on. */
  lemma RegisterFromUnfold(h: Heap, table: JsValue, keys: seq<string>, i: nat, filename: string, depth: nat)
    requires i < |keys|
    ensures RegisterFrom(h, table, keys[i..], filename, depth) ==
      match RegisterStep(h, table, keys[i], filename, depth)
      case None => ([], Abrupt(TypeError), h)
      case Some(step) => Prepend([step.0], RegisterFrom(step.1, table, keys[i + 1..], filename, depth))
  {
    assert keys[i..][0] == keys[i] && keys[i..][1..] == keys[i + 1..];
  }

  lemma PrependTwice(calls: seq<Registration>, call: Registration, r: (seq<Registration>, Completion, Heap))
    ensures Prepend(calls, Prepend([call], r)) == Prepend(calls + [call], r)
  {
    assert calls + ([call] + r.0) == (calls + [call]) + r.0;
  }

  /** The body of the loop for the key `r`: tags `_[r]` and returns the
      `register` call, or `None` when the tagging throws. */
  method RegisterKey(realm: Realm, table: JsValue, r: string, filename: string)
    returns (call: Option<Registration>)
    requires realm.Valid()
    modifies realm
    ensures realm.Valid()
    ensures realm.cachesCreated == old(realm.cachesCreated)
    ensures realm.babelCache == old(realm.babelCache) && realm.nodeCache == old(realm.nodeCache)
    ensures match RegisterStep(old(realm.heap), table, r, filename, realm.depth)
            case None => call.None? && realm.heap == old(realm.heap)
            case Some(step) => call == Some(step.0) && realm.heap == step.1
  {
    var factory := Get(realm.heap, table, r, realm.depth);
    var tagged := Assign(realm.heap, factory, ResourcePotKey, Str(filename));
    if tagged.None? {
      return None;
    }
    AssignValid(realm.heap, factory, ResourcePotKey, Str(filename));
    realm.heap := tagged.value;
    call := Some(Registration(r, Get(realm.heap, table, r, realm.depth)));
  }
}
