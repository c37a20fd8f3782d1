/** Small shared vocabulary: an Option type, the lexicographic order on
    strings, and a stable insertion sort that turns a set of keys (a hash
    map's keys, collected in whatever order the map yields them) into a
    sequence sorted by a string-valued key. */
module Options {
  datatype Option<+T> = None | Some(value: T) {
    function GetOr(default: T): T {
      match this
      case Some(v) => v
      case None => default
    }
  }
}

module Ordering {

  /** `a` sorts before or equal to `b`, comparing character by character;
      a proper prefix sorts first. With Unicode scalar values as `char`, this
      is the order of `Ord for String` in Rust (byte-wise UTF-8). */
  predicate LexLe(a: string, b: string)
    decreases |a|
  {
    if a == [] then true
    else if b == [] then false
    else if a[0] != b[0] then a[0] < b[0]
    else LexLe(a[1..], b[1..])
  }

  lemma {:induction false} LexLeReflexive(a: string)
    ensures LexLe(a, a)
    decreases |a|
  {
    if a != [] {
      LexLeReflexive(a[1..]);
    }
  }

  lemma {:induction false} LexLeTotal(a: string, b: string)
    ensures LexLe(a, b) || LexLe(b, a)
    decreases |a|
  {
    if a != [] && b != [] && a[0] == b[0] {
      LexLeTotal(a[1..], b[1..]);
    }
  }

  lemma {:induction false} LexLeAntisymmetric(a: string, b: string)
    requires LexLe(a, b) && LexLe(b, a)
    ensures a == b
    decreases |a|
  {
    if a != [] && b != [] {
      LexLeAntisymmetric(a[1..], b[1..]);
      assert a == [a[0]] + a[1..] && b == [b[0]] + b[1..];
    }
  }

  lemma {:induction false} LexLeTransitive(a: string, b: string, c: string)
    requires LexLe(a, b) && LexLe(b, c)
    ensures LexLe(a, c)
    decreases |a|
  {
    if a != [] && b != [] && c != [] && a[0] == b[0] && b[0] == c[0] {
      LexLeTransitive(a[1..], b[1..], c[1..]);
    }
  }

  /** The elements of `s` are pairwise different. */
  ghost predicate Distinct<K(!new)>(s: seq<K>) {
    forall i, j :: 0 <= i < j < |s| ==> s[i] != s[j]
  }

  /** `s` is ordered by `key` (ties allowed). */
  ghost predicate SortedBy<K(!new)>(s: seq<K>, key: K -> string) {
    forall i, j :: 0 <= i < j < |s| ==> LexLe(key(s[i]), key(s[j]))
  }

  /** `s` lists every element of `elems` exactly once, ordered by `key`. */
  ghost predicate SortedEnumeration<K(!new)>(s: seq<K>, elems: set<K>, key: K -> string) {
    && Distinct(s)
    && (forall x :: x in s <==> x in elems)
    && SortedBy(s, key)
  }

  /** No two elements of `elems` share a key. */
  ghost predicate InjectiveOn<K(!new)>(elems: set<K>, key: K -> string) {
    forall x, y :: x in elems && y in elems && key(x) == key(y) ==> x == y
  }

  /** Inserting `x` at `p`, after every element whose key is at most `key(x)`
      and before every element whose key is greater, keeps `s` sorted. */
  lemma InsertSorted<K(!new)>(s: seq<K>, x: K, p: nat, key: K -> string)
    requires p <= |s| && SortedBy(s, key)
    requires forall i :: 0 <= i < p ==> LexLe(key(s[i]), key(x))
    requires forall j :: p <= j < |s| ==> LexLe(key(x), key(s[j]))
    ensures SortedBy(s[..p] + [x] + s[p..], key)
  {
    var t := s[..p] + [x] + s[p..];
    forall i, j | 0 <= i < j < |t|
      ensures LexLe(key(t[i]), key(t[j]))
    {
      if j < p {
        assert t[i] == s[i] && t[j] == s[j];
      } else if j == p {
        assert t[i] == s[i] && t[j] == x;
      } else if i == p {
        assert t[i] == x && t[j] == s[j - 1];
      } else if i < p {
        assert t[i] == s[i] && t[j] == s[j - 1];
      } else {
        assert t[i] == s[i - 1] && t[j] == s[j - 1];
      }
    }
  }

  /** Collects `elems` in an unspecified order (as iterating a hash map does)
      and stable-sorts the result by `key`: each element picked is inserted
      after all elements already placed whose key is not greater. */
  method SortByKey<K(!new)>(elems: set<K>, key: K -> string) returns (s: seq<K>)
    ensures SortedEnumeration(s, elems, key)
  {
    s := [];
    var rest := elems;
    while rest != {}
      invariant forall x :: x in elems <==> x in rest || x in s
      invariant forall x :: x in rest ==> x !in s
      invariant Distinct(s) && SortedBy(s, key)
      decreases rest
    {
      var x :| x in rest;
      rest := rest - {x};
      var p := |s|;
      while p > 0 && !LexLe(key(s[p - 1]), key(x))
        invariant 0 <= p <= |s|
        invariant forall j :: p <= j < |s| ==> !LexLe(key(s[j]), key(x))
      {
        p := p - 1;
      }
      forall j | p <= j < |s|
        ensures LexLe(key(x), key(s[j]))
      {
        LexLeTotal(key(x), key(s[j]));
      }
      forall i | 0 <= i < p
        ensures LexLe(key(s[i]), key(x))
      {
        if i < p - 1 {
          LexLeTransitive(key(s[i]), key(s[p - 1]), key(x));
        }
      }
      InsertSorted(s, x, p, key);
      var t := s[..p] + [x] + s[p..];
      assert forall y :: y in t <==> y in s || y == x;
      forall i, j | 0 <= i < j < |t|
        ensures t[i] != t[j]
      {
        if i < p && j > p {
          assert t[i] == s[i] && t[j] == s[j - 1];
        } else if i > p {
          assert t[i] == s[i - 1] && t[j] == s[j - 1];
        } else if j < p {
          assert t[i] == s[i] && t[j] == s[j];
        }
      }
      s := t;
    }
  }

  /** A sequence that lists every element of `elems` exactly once is as
      long as `elems` is large. */
  lemma {:induction false} EnumerationSize<K(!new)>(s: seq<K>, elems: set<K>)
    requires Distinct(s) && forall x :: x in s <==> x in elems
    ensures |s| == |elems|
    decreases |s|
  {
    if s == [] {
      assert elems == {};
    } else {
      var rest := elems - {s[0]};
      assert s[0] in elems;
      forall x ensures x in s[1..] <==> x in rest {
        if x in s[1..] {
          var k :| 1 <= k < |s| && s[k] == x;
        }
        if x in rest {
          var k :| 0 <= k < |s| && s[k] == x;
        }
      }
      EnumerationSize(s[1..], rest);
    }
  }

  /** A sorted enumeration of a set on which the key is injective is unique:
      sorting such keys gives the same sequence whatever order the hash map
      produced them in. */
  lemma {:induction false} SortedEnumerationUnique<K(!new)>(a: seq<K>, b: seq<K>, elems: set<K>, key: K -> string)
    requires InjectiveOn(elems, key)
    requires SortedEnumeration(a, elems, key) && SortedEnumeration(b, elems, key)
    ensures a == b
    decreases |a|
  {
    if a == [] {
      EnumerationSize(a, elems);
      EnumerationSize(b, elems);
    } else {
      assert a[0] in elems;
      assert b != [] by { assert a[0] in b; }
      assert b[0] in a;
      var i :| 0 <= i < |a| && a[i] == b[0];
      assert a[0] in b;
      var j :| 0 <= j < |b| && b[j] == a[0];
      assert LexLe(key(a[0]), key(b[0])) by {
        if i != 0 { } else { LexLeReflexive(key(a[0])); }
      }
      assert LexLe(key(b[0]), key(a[0])) by {
        if j != 0 { } else { LexLeReflexive(key(b[0])); }
      }
      LexLeAntisymmetric(key(a[0]), key(b[0]));
      assert a[0] == b[0];
      var rest := elems - {a[0]};
      forall x ensures x in a[1..] <==> x in rest {
        if x in a[1..] {
          var k :| 1 <= k < |a| && a[k] == x;
        }
        if x in rest {
          assert x in a;
          var k :| 0 <= k < |a| && a[k] == x;
        }
      }
      forall x ensures x in b[1..] <==> x in rest {
        if x in b[1..] {
          var k :| 1 <= k < |b| && b[k] == x;
        }
        if x in rest {
          assert x in b;
          var k :| 0 <= k < |b| && b[k] == x;
        }
      }
      SortedEnumerationUnique(a[1..], b[1..], rest, key);
      assert a == [a[0]] + a[1..] && b == [b[0]] + b[1..];
    }
  }

  /** `m` is a least element of `elems` under `key`. */
  ghost predicate IsLeast<K(!new)>(m: K, elems: set<K>, key: K -> string) {
    m in elems && forall y :: y in elems ==> LexLe(key(m), key(y))
  }

  /** Every non-empty finite set has a least element under `key`. */
  lemma {:induction false} LeastExists<K(!new)>(elems: set<K>, key: K -> string)
    requires elems != {}
    ensures exists m :: IsLeast(m, elems, key)
    decreases |elems|
  {
    var x :| x in elems;
    if elems == {x} {
      LexLeReflexive(key(x));
      assert IsLeast(x, elems, key);
    } else {
      LeastExists(elems - {x}, key);
      var m' :| IsLeast(m', elems - {x}, key);
      LexLeTotal(key(x), key(m'));
      if LexLe(key(m'), key(x)) {
        assert IsLeast(m', elems, key);
      } else {
        LexLeReflexive(key(x));
        forall y | y in elems ensures LexLe(key(x), key(y)) {
          if y != x {
            LexLeTransitive(key(x), key(m'), key(y));
          }
        }
        assert IsLeast(x, elems, key);
      }
    }
  }

  /** The sorted enumeration of `elems`, which is unique when `key` is
      injective on it (SortedEnumerationUnique). */
  ghost function SortedList<K(!new)>(elems: set<K>, key: K -> string): (s: seq<K>)
    ensures SortedEnumeration(s, elems, key)
    decreases |elems|
  {
    if elems == {} then []
    else
      LeastExists(elems, key);
      var m :| IsLeast(m, elems, key);
      var rest := SortedList(elems - {m}, key);
      var s := [m] + rest;
      assert forall x :: x in s <==> x in elems;
      s
  }
}
