/** The slice of JavaScript the runtime helpers inlined into every emitted
    bundle work on: primitive values, and objects held in a heap under
    their identity. An object keeps its own property keys in insertion
    order (ECMA-262, section 10.1.11, "OrdinaryOwnPropertyKeys", for
    string keys that are not array indices). A property is either a data
    property or an accessor whose getter reads the property of the same
    name on another object, which is the only kind of getter the helpers
    create. A function object carries the statements of a CommonJS module
    factory instead of arbitrary code. */
module JsHeap {
  import opened Options
  import opened Ordering

  /** The identity of an object (what `===` compares for objects). */
  type ObjectId = nat

  datatype JsValue =
    | Undefined
    | Null
    | Bool(b: bool)
    | Num(n: int)
    | Str(s: string)
    | Ref(id: ObjectId)

  /** The value thrown for a `TypeError`; only its kind is modelled. */
  const TypeError: JsValue := Str("TypeError")

  /** One statement of a CommonJS module factory `(module, exports) => {...}`. */
  datatype FactoryStep =
    | SetExport(key: string, value: JsValue)   // exports[key] = value
    | AssignModuleExports(value: JsValue)      // module.exports = value
    | RequireSelf(key: string)                 // exports[key] = require(<this module>)
    | Throw(error: JsValue)                    // throw error

  /** An own property: a data property, or an accessor whose getter
      returns `from[key]` for its own key (a live binding). */
  datatype Property = Data(value: JsValue) | Getter(from: ObjectId)

  /** An object: its own keys in order, its properties, and, for a function
      object, the factory it runs when called. */
  datatype JsObject = JsObject(keys: seq<string>, props: map<string, Property>, code: Option<seq<FactoryStep>>)
  {
    /** Keys are listed once each, and exactly the keys with a property. */
    ghost predicate WellFormed() {
      Distinct(keys) && forall k :: k in keys <==> k in props
    }

    /** `typeof o === "function"`. */
    predicate IsFunction() {
      code.Some?
    }
  }

  /** `{}` (or `{__proto__: null}`: prototypes are not modelled). */
  const EmptyObject: JsObject := JsObject([], map[], None)

  /** All objects, and the identity the next allocation receives. */
  datatype Heap = Heap(objects: map<ObjectId, JsObject>, next: ObjectId)
  {
    /** Every object has an identity below `next`, is well formed, and
        every getter reads from an allocated object. */
    ghost predicate Valid() {
      forall id :: id in objects ==>
        && id < next
        && objects[id].WellFormed()
        && forall k :: k in objects[id].props && objects[id].props[k].Getter? ==>
             objects[id].props[k].from in objects
    }
  }

  /** ToBoolean (ECMA-262, section 7.1.2); NaN is not modelled. */
  predicate Truthy(v: JsValue) {
    match v
    case Undefined => false
    case Null => false
    case Bool(b) => b
    case Num(n) => n != 0
    case Str(s) => s != []
    case Ref(_) => true
  }

  /** `v[key]`: a data property gives its value, a getter reads the same key
      on its source object, following at most `depth` getters; a primitive
      or a missing key gives `undefined`. */
  function Get(h: Heap, v: JsValue, key: string, depth: nat): (r: JsValue)
    ensures !v.Ref? ==> r == Undefined
    ensures v.Ref? && v.id in h.objects && key in h.objects[v.id].props && h.objects[v.id].props[key].Data? ==>
              r == h.objects[v.id].props[key].value
    decreases depth
  {
    if v.Ref? && v.id in h.objects && key in h.objects[v.id].props then
      match h.objects[v.id].props[key]
      case Data(x) => x
      case Getter(from) => if depth == 0 then Undefined else Get(h, Ref(from), key, depth - 1)
    else Undefined
  }

  /** Defines or overwrites one own property: an existing key keeps its
      position, a new key goes last. */
  function SetOwn(o: JsObject, key: string, p: Property): (r: JsObject)
    ensures r.props == o.props[key := p] && r.code == o.code
    ensures key in o.props ==> r.keys == o.keys
    ensures key !in o.props ==> r.keys == o.keys + [key]
    ensures o.WellFormed() ==> r.WellFormed()
  {
    if key in o.props then o.(props := o.props[key := p])
    else JsObject(o.keys + [key], o.props[key := p], o.code)
  }

  /** Allocates `o` under a fresh identity. */
  function Alloc(h: Heap, o: JsObject): (r: (ObjectId, Heap))
    ensures h.Valid() ==> r.0 !in h.objects
    ensures r.1.objects == h.objects[r.0 := o] && r.1.next > r.0
  {
    (h.next, Heap(h.objects[h.next := o], h.next + 1))
  }

  /** Replaces the object `id`. */
  function Update(h: Heap, id: ObjectId, o: JsObject): (r: Heap)
    ensures r.objects == h.objects[id := o] && r.next == h.next
  {
    h.(objects := h.objects[id := o])
  }

  lemma UpdateTwice(h: Heap, id: ObjectId, a: JsObject, b: JsObject)
    ensures Update(Update(h, id, a), id, b) == Update(h, id, b)
  {
    assert Update(Update(h, id, a), id, b).objects == Update(h, id, b).objects;
  }

  /** Every getter of `o` reads from an object of `h`. */
  ghost predicate GettersIn(h: Heap, o: JsObject) {
    forall k :: k in o.props && o.props[k].Getter? ==> o.props[k].from in h.objects
  }

  lemma AllocValid(h: Heap, o: JsObject)
    requires h.Valid() && o.WellFormed() && GettersIn(h, o)
    ensures Alloc(h, o).1.Valid()
  {
  }

  lemma UpdateValid(h: Heap, id: ObjectId, o: JsObject)
    requires h.Valid() && id in h.objects && o.WellFormed() && GettersIn(h, o)
    ensures Update(h, id, o).Valid()
  {
  }

  /** Allocating an object changes no read that starts from a value of the
      old heap. */
  lemma {:induction false} GetAfterAlloc(h: Heap, o: JsObject, v: JsValue, key: string, depth: nat)
    requires h.Valid() && (v.Ref? ==> v.id in h.objects)
    ensures Get(Alloc(h, o).1, v, key, depth) == Get(h, v, key, depth)
    decreases depth
  {
    var h' := Alloc(h, o).1;
    if v.Ref? && key in h.objects[v.id].props {
      assert h'.objects[v.id] == h.objects[v.id];
      match h.objects[v.id].props[key]
      case Data(_) =>
      case Getter(from) =>
        if depth > 0 {
          GetAfterAlloc(h, o, Ref(from), key, depth - 1);
        }
    }
  }

  /** Strict-mode assignment `target[key] = value`: a TypeError for a
      primitive target or a getter without setter; otherwise the data
      property is created or overwritten. */
  function Assign(h: Heap, target: JsValue, key: string, value: JsValue): (r: Option<Heap>)
    ensures r.Some? <==> target.Ref? && target.id in h.objects &&
                         (key in h.objects[target.id].props ==> h.objects[target.id].props[key].Data?)
    ensures r.Some? ==> r.value == Update(h, target.id, SetOwn(h.objects[target.id], key, Data(value)))
  {
    if !target.Ref? || target.id !in h.objects then None
    else
      var o := h.objects[target.id];
      if key in o.props && o.props[key].Getter? then None
      else Some(Update(h, target.id, SetOwn(o, key, Data(value))))
  }

  lemma AssignValid(h: Heap, target: JsValue, key: string, value: JsValue)
    requires h.Valid() && Assign(h, target, key, value).Some?
    ensures Assign(h, target, key, value).value.Valid()
  {
    var o := h.objects[target.id];
    UpdateValid(h, target.id, SetOwn(o, key, Data(value)));
  }
}
