/** The ES-module/CommonJS interop helpers inlined at the top of every
    emitted bundle (crates/compiler/tests/fixtures/script/native_top_level_await/output.js:2-45):
    `_interop_require_default`, `_export_star`, `_interop_require_wildcard`
    and `_getRequireWildcardCache`, over the heap of JsHeap. */
module Interop {
  import opened Options
  import opened Ordering
  import opened JsHeap

  /** `obj && obj.__esModule`. */
  predicate IsEsModule(h: Heap, obj: JsValue, depth: nat) {
    Truthy(obj) && Truthy(Get(h, obj, "__esModule", depth))
  }

  /** `{default: obj}`. */
  function DefaultWrapper(obj: JsValue): JsObject {
    JsObject(["default"], map["default" := Data(obj)], None)
  }

  /** `_interop_require_default(obj)`: an ES module is returned as it is,
      anything else is wrapped in a fresh `{default: obj}`; either way the
      result's `default` is what the importer's default binding sees. */
  function InteropRequireDefault(h: Heap, obj: JsValue, depth: nat): (r: (JsValue, Heap))
    ensures IsEsModule(h, obj, depth) ==> r == (obj, h)
    ensures !IsEsModule(h, obj, depth) ==> r.0 == Ref(h.next) && (h.Valid() ==> r.0.id !in h.objects)
    ensures !IsEsModule(h, obj, depth) ==> r.1 == Alloc(h, DefaultWrapper(obj)).1
    ensures h.Valid() ==> r.1.Valid() && forall id :: id in h.objects ==> id in r.1.objects && r.1.objects[id] == h.objects[id]
    ensures Get(r.1, r.0, "default", depth) ==
              if IsEsModule(h, obj, depth) then Get(h, obj, "default", depth) else obj
  {
    if IsEsModule(h, obj, depth) then (obj, h)
    else
      var (id, h') := Alloc(h, DefaultWrapper(obj));
      (Ref(id), h')
  }

  /** A wrapped value is never taken for an ES module: wrapping again wraps
      the wrapper. */
  lemma WrapperIsNotEsModule(h: Heap, obj: JsValue, depth: nat)
    requires !IsEsModule(h, obj, depth)
    ensures var r := InteropRequireDefault(h, obj, depth); !IsEsModule(r.1, r.0, depth)
  {
  }

  // ---------------------------------------------------------------------
  // _export_star

  /** The object `to` after `_export_star` has walked `keys` of `from`: each
      key other than `"default"` that `to` does not own yet becomes a getter
      reading `from[key]`. */
  function ExportStarOnto(to: JsObject, from: ObjectId, keys: seq<string>): JsObject
    decreases |keys|
  {
    if keys == [] then to
    else
      var k := keys[0];
      var to' := if k != "default" && k !in to.props then SetOwn(to, k, Getter(from)) else to;
      ExportStarOnto(to', from, keys[1..])
  }

  /** `_export_star` adds exactly the keys of `from` other than `"default"`
      that `to` lacked, each as a getter on `from`, after the keys `to`
      already had, and leaves every property `to` already had unchanged. */
  lemma {:induction false} ExportStarOntoFacts(to: JsObject, from: ObjectId, keys: seq<string>)
    ensures var r := ExportStarOnto(to, from, keys);
      && r.code == to.code
      && (forall k :: k in r.props <==> k in to.props || (k in keys && k != "default"))
      && (forall k :: k in to.props ==> r.props[k] == to.props[k])
      && (forall k :: k in r.props && k !in to.props ==> r.props[k] == Getter(from))
      && |to.keys| <= |r.keys| && r.keys[..|to.keys|] == to.keys
      && (to.WellFormed() ==> r.WellFormed())
    decreases |keys|
  {
    if keys != [] {
      var k := keys[0];
      var to' := if k != "default" && k !in to.props then SetOwn(to, k, Getter(from)) else to;
      ExportStarOntoFacts(to', from, keys[1..]);
      var r := ExportStarOnto(to', from, keys[1..]);
      assert r.keys[..|to.keys|] == r.keys[..|to'.keys|][..|to.keys|];
      forall x
        ensures x in keys <==> x == k || x in keys[1..]
      {
        assert keys == [k] + keys[1..];
      }
    }
  }

  /** After `_export_star(from, to)` a re-exported key of `to` is a live
      binding: it reads whatever `from` holds under that key, one getter
      further down. */
  lemma ExportStarIsLive(h: Heap, from: ObjectId, to: ObjectId, k: string, depth: nat)
    requires to in h.objects && from in h.objects
    requires k in h.objects[from].keys && k != "default" && k !in h.objects[to].props
    ensures var h' := Update(h, to, ExportStarOnto(h.objects[to], from, h.objects[from].keys));
            Get(h', Ref(to), k, depth + 1) == Get(h', Ref(from), k, depth)
  {
    ExportStarOntoFacts(h.objects[to], from, h.objects[from].keys);
  }

  // ---------------------------------------------------------------------
  // _interop_require_wildcard

  /** `s` without the occurrences of `x`, in order. */
  function Without(s: seq<string>, x: string): (r: seq<string>)
    ensures forall y :: y in r <==> y in s && y != x
    ensures Distinct(s) ==> Distinct(r)
  {
    if s == [] then []
    else if s[0] == x then Without(s[1..], x)
    else
      assert Distinct(s) ==> s[0] !in s[1..];
      [s[0]] + Without(s[1..], x)
  }

  /** The namespace object while the `for…in` loop has copied `keys` of `o`
      into `ns`: every key other than `"default"` gets `o`'s property
      itself, so a getter stays a getter and a data property is copied. */
  function CopyOwn(ns: JsObject, o: JsObject, keys: seq<string>): JsObject
    requires forall k :: k in keys ==> k in o.props
    decreases |keys|
  {
    if keys == [] then ns
    else
      var k := keys[0];
      var ns' := if k != "default" then SetOwn(ns, k, o.props[k]) else ns;
      CopyOwn(ns', o, keys[1..])
  }

  /** Copying `keys` gives `ns` the properties of `o` under those keys,
      except `"default"`, and keeps every property `ns` already had. */
  lemma {:induction false} CopyOwnFacts(ns: JsObject, o: JsObject, keys: seq<string>)
    requires forall k :: k in keys ==> k in o.props
    requires Distinct(keys) && forall k :: k in keys ==> k !in ns.props
    ensures var r := CopyOwn(ns, o, keys);
      && r.code == ns.code
      && (forall k :: k in r.props <==> k in ns.props || (k in keys && k != "default"))
      && (forall k :: k in r.props ==> r.props[k] == if k in ns.props then ns.props[k] else o.props[k])
    decreases |keys|
  {
    if keys != [] {
      var k := keys[0];
      var ns' := if k != "default" then SetOwn(ns, k, o.props[k]) else ns;
      assert keys == [k] + keys[1..];
      assert forall x :: x in keys[1..] ==> x in keys && x != k;
      CopyOwnFacts(ns', o, keys[1..]);
    }
  }

  /** The copied keys follow the keys `ns` had, in the order of `keys`,
      without `"default"`; a key already present is not repeated. */
  lemma {:induction false} CopyOwnKeys(ns: JsObject, o: JsObject, keys: seq<string>)
    requires forall k :: k in keys ==> k in o.props
    requires Distinct(keys) && forall k :: k in keys ==> k !in ns.props
    ensures CopyOwn(ns, o, keys).keys == ns.keys + Without(keys, "default")
    decreases |keys|
  {
    if keys != [] {
      var k := keys[0];
      var ns' := if k != "default" then SetOwn(ns, k, o.props[k]) else ns;
      assert forall x :: x in keys[1..] ==> x in keys && x != k;
      CopyOwnKeys(ns', o, keys[1..]);
      if k != "default" {
        assert Without(keys, "default") == [k] + Without(keys[1..], "default");
      }
    }
  }

  /** The namespace `_interop_require_wildcard` builds for the object `o`
      of `obj`: `o`'s own properties except `"default"`, then `default`
      holding `obj` itself. */
  function Namespace(o: JsObject, obj: JsValue): JsObject
    requires o.WellFormed()
  {
    SetOwn(CopyOwn(EmptyObject, o, o.keys), "default", Data(obj))
  }

  lemma NamespaceFacts(o: JsObject, obj: JsValue)
    requires o.WellFormed()
    ensures var ns := Namespace(o, obj);
      && ns.WellFormed() && !ns.IsFunction()
      && ns.keys == Without(o.keys, "default") + ["default"]
      && (forall k :: k in ns.props <==> k in o.props || k == "default")
      && (forall k :: k in o.props && k != "default" ==> ns.props[k] == o.props[k])
      && ns.props["default"] == Data(obj)
  {
    var copy := CopyOwn(EmptyObject, o, o.keys);
    CopyOwnFacts(EmptyObject, o, o.keys);
    CopyOwnKeys(EmptyObject, o, o.keys);
    assert copy.keys == Without(o.keys, "default");
    assert "default" !in copy.props;
    assert copy.WellFormed();
  }

  /** The namespace reads every key other than `"default"` as `obj` does
      (through the same getters), and reads `default` as `obj`. */
  lemma NamespaceReadsLikeObject(h: Heap, id: ObjectId, nsId: ObjectId, k: string, depth: nat)
    requires id in h.objects && h.objects[id].WellFormed()
    requires nsId in h.objects && h.objects[nsId] == Namespace(h.objects[id], Ref(id))
    ensures k != "default" ==> Get(h, Ref(nsId), k, depth) == Get(h, Ref(id), k, depth)
    ensures Get(h, Ref(nsId), "default", depth) == Ref(id)
  {
    NamespaceFacts(h.objects[id], Ref(id));
  }

  /** Which of the two WeakMaps `_getRequireWildcardCache` hands out. */
  datatype CacheId = BabelInteropCache | NodeInteropCache

  /** Every entry of an identity-keyed cache maps an object of `h` to an
      object of `h`. */
  ghost predicate CacheIn(h: Heap, c: map<ObjectId, ObjectId>) {
    forall id :: id in c ==> id in h.objects && c[id] in h.objects
  }

  /** The state the helpers share: the heap, and the two wildcard caches,
      which exist once `_getRequireWildcardCache` has run. Getter chains
      are followed `depth` deep. */
  class Realm {
    var heap: Heap
    var cachesCreated: bool
    var babelCache: map<ObjectId, ObjectId>
    var nodeCache: map<ObjectId, ObjectId>
    const depth: nat

    ghost predicate Valid()
      reads this
    {
      && heap.Valid()
      && CacheIn(heap, babelCache) && CacheIn(heap, nodeCache)
      && (!cachesCreated ==> babelCache == map[] && nodeCache == map[])
    }

    /** The cache `_getRequireWildcardCache(nodeInterop)` returns. */
    function CacheFor(nodeInterop: bool): map<ObjectId, ObjectId>
      reads this
    {
      if nodeInterop then nodeCache else babelCache
    }

    constructor(h: Heap, depth: nat)
      requires h.Valid()
      ensures Valid() && heap == h && this.depth == depth && !cachesCreated
    {
      heap := h;
      cachesCreated := false;
      babelCache := map[];
      nodeCache := map[];
      this.depth := depth;
    }

    /** `_getRequireWildcardCache(nodeInterop)`: the first call creates both
        caches and rebinds the helper so that later calls only select one;
        `nodeInterop` selects the node cache, otherwise the Babel cache. */
    method GetRequireWildcardCache(nodeInterop: bool) returns (c: CacheId)
      requires Valid()
      modifies this
      ensures Valid() && cachesCreated && heap == old(heap)
      ensures c == if nodeInterop then NodeInteropCache else BabelInteropCache
      ensures old(cachesCreated) ==> babelCache == old(babelCache) && nodeCache == old(nodeCache)
      ensures !old(cachesCreated) ==> babelCache == map[] && nodeCache == map[]
    {
      if !cachesCreated {
        babelCache := map[];
        nodeCache := map[];
        cachesCreated := true;
      }
      c := if nodeInterop then NodeInteropCache else BabelInteropCache;
    }

    /** `_export_star(from, to)`: walks the own keys of `from` as they were
        when the call began and returns `from`. */
    method ExportStar(from: JsValue, to: JsValue) returns (r: JsValue)
      requires Valid()
      requires from.Ref? && from.id in heap.objects && to.Ref? && to.id in heap.objects
      modifies this
      ensures Valid() && r == from
      ensures heap == Update(old(heap), to.id,
                             ExportStarOnto(old(heap).objects[to.id], from.id, old(heap).objects[from.id].keys))
      ensures cachesCreated == old(cachesCreated) && babelCache == old(babelCache) && nodeCache == old(nodeCache)
    {
      ghost var h0 := heap;
      var fromKeys := heap.objects[from.id].keys;
      for i := 0 to |fromKeys|
        invariant to.id in heap.objects && heap == Update(h0, to.id, heap.objects[to.id])
        invariant ExportStarOnto(heap.objects[to.id], from.id, fromKeys[i..])
               == ExportStarOnto(h0.objects[to.id], from.id, fromKeys)
        invariant Valid()
        invariant cachesCreated == old(cachesCreated) && babelCache == old(babelCache) && nodeCache == old(nodeCache)
      {
        assert fromKeys[i..][0] == fromKeys[i] && fromKeys[i..][1..] == fromKeys[i + 1..];
        var k := fromKeys[i];
        var target := heap.objects[to.id];
        if k != "default" && k !in target.props {
          UpdateValid(heap, to.id, SetOwn(target, k, Getter(from.id)));
          heap := Update(heap, to.id, SetOwn(target, k, Getter(from.id)));
        }
      }
      assert fromKeys[|fromKeys|..] == [];
      r := from;
    }

    /** `_interop_require_wildcard(obj, nodeInterop)`. */
    method InteropRequireWildcard(obj: JsValue, nodeInterop: bool) returns (r: JsValue)
      requires Valid() && (obj.Ref? ==> obj.id in heap.objects)
      modifies this
      ensures Valid() && (r.Ref? ==> r.id in heap.objects)
      // an ES module under Babel interop is returned as it is
      ensures !nodeInterop && IsEsModule(old(heap), obj, depth) ==>
                r == obj && heap == old(heap) && cachesCreated == old(cachesCreated)
                && babelCache == old(babelCache) && nodeCache == old(nodeCache)
      // a primitive is wrapped in a fresh `{default: obj}`; the caches are not touched
      ensures !(!nodeInterop && IsEsModule(old(heap), obj, depth)) && !obj.Ref? ==>
                r == Ref(old(heap).next) && heap == Alloc(old(heap), DefaultWrapper(obj)).1
                && cachesCreated == old(cachesCreated)
                && babelCache == old(babelCache) && nodeCache == old(nodeCache)
      // an object gets the namespace cached for it, built on the first request
      ensures !(!nodeInterop && IsEsModule(old(heap), obj, depth)) && obj.Ref? ==>
                var before := if old(cachesCreated) then old(CacheFor(nodeInterop)) else map[];
                var other := if old(cachesCreated) then old(CacheFor(!nodeInterop)) else map[];
                && cachesCreated && r.Ref?
                && (obj.id in before ==> r.id == before[obj.id] && heap == old(heap))
                && (obj.id !in before ==>
                      r.id == old(heap).next
                      && heap == Alloc(old(heap), Namespace(old(heap).objects[obj.id], obj)).1)
                && CacheFor(nodeInterop) == before[obj.id := r.id]
                && CacheFor(!nodeInterop) == other
    {
      if !nodeInterop && IsEsModule(heap, obj, depth) {
        return obj;
      }
      if !obj.Ref? {
        AllocValid(heap, DefaultWrapper(obj));
        var created := Alloc(heap, DefaultWrapper(obj));
        heap := created.1;
        return Ref(created.0);
      }
      r := CachedNamespace(obj, nodeInterop);
    }

    /** The object case of `_interop_require_wildcard` (output.js:23-38):
        the namespace cached for `obj`, or a new one, then cached. */
    method CachedNamespace(obj: JsValue, nodeInterop: bool) returns (r: JsValue)
      requires Valid() && obj.Ref? && obj.id in heap.objects
      modifies this
      ensures Valid() && r.Ref? && r.id in heap.objects
      ensures var before := if old(cachesCreated) then old(CacheFor(nodeInterop)) else map[];
              var other := if old(cachesCreated) then old(CacheFor(!nodeInterop)) else map[];
              && cachesCreated
              && (obj.id in before ==> r.id == before[obj.id] && heap == old(heap))
              && (obj.id !in before ==>
                    r.id == old(heap).next
                    && heap == Alloc(old(heap), Namespace(old(heap).objects[obj.id], obj)).1)
              && CacheFor(nodeInterop) == before[obj.id := r.id]
              && CacheFor(!nodeInterop) == other
    {
      var cache := GetRequireWildcardCache(nodeInterop);
      var entries := if cache == NodeInteropCache then nodeCache else babelCache;
      if obj.id in entries {
        return Ref(entries[obj.id]);
      }
      var newId := BuildNamespace(obj);
      CacheSet(nodeInterop, obj.id, newId);
      r := Ref(newId);
    }

    /** `cache.set(obj, newObj)` on the cache `nodeInterop` selects. */
    method CacheSet(nodeInterop: bool, objId: ObjectId, nsId: ObjectId)
      requires Valid() && cachesCreated && objId in heap.objects && nsId in heap.objects
      modifies this
      ensures Valid() && heap == old(heap) && cachesCreated
      ensures CacheFor(nodeInterop) == old(CacheFor(nodeInterop))[objId := nsId]
      ensures CacheFor(!nodeInterop) == old(CacheFor(!nodeInterop))
    {
      if nodeInterop {
        nodeCache := nodeCache[objId := nsId];
      } else {
        babelCache := babelCache[objId := nsId];
      }
    }

    /** The namespace-building part of `_interop_require_wildcard`
        (output.js:25-36): a fresh object receives the own properties of
        `obj` other than `default` in key order, then `default`. */
    method BuildNamespace(obj: JsValue) returns (newId: ObjectId)
      requires Valid() && obj.Ref? && obj.id in heap.objects
      modifies this
      ensures Valid() && newId == old(heap).next
      ensures heap == Alloc(old(heap), Namespace(old(heap).objects[obj.id], obj)).1
      ensures cachesCreated == old(cachesCreated) && babelCache == old(babelCache) && nodeCache == old(nodeCache)
    {
      var o := heap.objects[obj.id];
      AllocValid(heap, EmptyObject);
      var created := Alloc(heap, EmptyObject);
      newId := created.0;
      heap := created.1;
      ghost var h1 := heap;
      for i := 0 to |o.keys|
        invariant newId in heap.objects && heap == Update(h1, newId, heap.objects[newId])
        invariant heap.objects[obj.id] == o
        invariant CopyOwn(heap.objects[newId], o, o.keys[i..]) == CopyOwn(EmptyObject, o, o.keys)
        invariant Valid()
        invariant cachesCreated == old(cachesCreated) && babelCache == old(babelCache) && nodeCache == old(nodeCache)
      {
        assert o.keys[i..][0] == o.keys[i] && o.keys[i..][1..] == o.keys[i + 1..];
        var key := o.keys[i];
        if key != "default" {
          var desc := o.props[key];
          ghost var before := heap;
          if desc.Getter? {
            DefineOwn(newId, key, desc);
          } else {
            DefineOwn(newId, key, Data(Get(heap, obj, key, depth)));
          }
          UpdateTwice(h1, newId, before.objects[newId], heap.objects[newId]);
        }
      }
      assert o.keys[|o.keys|..] == [];
      // newObj.default = obj
      ghost var before := heap;
      DefineOwn(newId, "default", Data(obj));
      UpdateTwice(h1, newId, before.objects[newId], heap.objects[newId]);
      UpdateTwice(old(heap), newId, EmptyObject, heap.objects[newId]);
    }

    /** Defines (or overwrites) one own property of the object `id`. */
    method DefineOwn(id: ObjectId, key: string, p: Property)
      requires Valid() && id in heap.objects && (p.Getter? ==> p.from in heap.objects)
      modifies this
      ensures Valid()
      ensures heap == Update(old(heap), id, SetOwn(old(heap).objects[id], key, p))
      ensures cachesCreated == old(cachesCreated) && babelCache == old(babelCache) && nodeCache == old(nodeCache)
    {
      UpdateValid(heap, id, SetOwn(heap.objects[id], key, p));
      heap := Update(heap, id, SetOwn(heap.objects[id], key, p));
    }

    /** Requiring the same object twice with the same `nodeInterop` gives
        the identical result; a primitive is wrapped afresh each time. */
    method RequireWildcardTwice(obj: JsValue, nodeInterop: bool) returns (first: JsValue, second: JsValue)
      requires Valid() && (obj.Ref? ==> obj.id in heap.objects)
      modifies this
      ensures obj.Ref? ==> first == second
      ensures !obj.Ref? ==> first != second
    {
      ghost var h0 := heap;
      first := InteropRequireWildcard(obj, nodeInterop);
      if obj.Ref? && heap != h0 {
        GetAfterAlloc(h0, Namespace(h0.objects[obj.id], obj), obj, "__esModule", depth);
      }
      second := InteropRequireWildcard(obj, nodeInterop);
    }
  }
}
