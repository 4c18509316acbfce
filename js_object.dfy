/**
 * A plain JavaScript object whose property keys are strings that are not
 * array indices (every key here is an e-mail address, which contains '@').
 * For such keys OrdinaryOwnPropertyKeys (section 10.1.11.1 of ECMA-262)
 * lists the keys in the order of their creation, so the object is its
 * sequence of distinct keys together with the value of each key.
 */
module JsObject {

  datatype Obj<V> = Obj(keys: seq<string>, vals: map<string, V>)

  ghost predicate Distinct<T>(s: seq<T>) {
    forall i, j :: 0 <= i < j < |s| ==> s[i] != s[j]
  }

  /** The key list holds each property exactly once. */
  ghost predicate Valid<V>(o: Obj<V>) {
    && Distinct(o.keys)
    && (forall k :: k in o.vals <==> k in o.keys)
  }

  /** `{}` */
  function Empty<V>(): (r: Obj<V>)
    ensures Valid(r) && r.keys == [] && r.vals == map[]
  {
    Obj([], map[])
  }

  /**
   * The key list after creating the properties `xs` one after the other:
   * a key not seen yet goes to the end, a key already present stays where it is.
   */
  function AppendNew(ks: seq<string>, xs: seq<string>): (r: seq<string>)
    ensures forall x :: x in r <==> x in ks || x in xs
    ensures |ks| <= |r| && r[..|ks|] == ks
    ensures Distinct(ks) ==> Distinct(r)
    decreases |xs|
  {
    if xs == [] then ks
    else
      var r := AppendNew(ks, xs[..|xs| - 1]);
      var x := xs[|xs| - 1];
      if x in r then r else r + [x]
  }

  /** `o[k] = v`: the value is replaced; the key is appended only if it is new. */
  function Put<V>(o: Obj<V>, k: string, v: V): (r: Obj<V>)
    requires Valid(o)
    ensures Valid(r)
    ensures r.vals == o.vals[k := v]
    ensures r.keys == AppendNew(o.keys, [k])
  {
    if k in o.vals then Obj(o.keys, o.vals[k := v])
    else Obj(o.keys + [k], o.vals[k := v])
  }

  /** Copies the properties `ks` of `p` into `o`, in the order of `ks`. */
  function CopyProps<V>(o: Obj<V>, p: Obj<V>, ks: seq<string>): (r: Obj<V>)
    requires Valid(o)
    requires forall k :: k in ks ==> k in p.vals
    ensures Valid(r)
    ensures r.keys == AppendNew(o.keys, ks)
    ensures r.vals == o.vals + map k | k in ks :: p.vals[k]
    decreases |ks|
  {
    if ks == [] then o
    else
      var init, k := ks[..|ks| - 1], ks[|ks| - 1];
      assert ks == init + [k];
      var q := CopyProps(o, p, init);
      CopiedValues(o.vals, p.vals, init, k);
      Put(q, k, p.vals[k])
  }

  /** Copying one more key updates the copied values at that key. */
  lemma CopiedValues<V>(a: map<string, V>, b: map<string, V>, init: seq<string>, k: string)
    requires forall x :: x in init + [k] ==> x in b
    ensures (a + map x | x in init :: b[x])[k := b[k]] == a + map x | x in init + [k] :: b[x]
  {
    var m0 := map x | x in init :: b[x];
    var m1 := map x | x in init + [k] :: b[x];
    assert m1 == m0[k := b[k]];
  }

  /**
   * `{...o, ...p}`: the properties of `o`, then those of `p` in `p`'s own key
   * order. A key of `p` that `o` already has keeps its position in `o` and
   * takes `p`'s value; the other keys of `p` follow in `p`'s order.
   */
  function Spread<V>(o: Obj<V>, p: Obj<V>): (r: Obj<V>)
    requires Valid(o) && Valid(p)
    ensures Valid(r)
    ensures r.keys == AppendNew(o.keys, p.keys)
    ensures r.vals == o.vals + p.vals
  {
    CopiedAll(p);
    CopyProps(o, p, p.keys)
  }

  /** Copying every key of a well-formed object copies its whole value map. */
  lemma CopiedAll<V>(p: Obj<V>)
    requires Valid(p)
    ensures (map k | k in p.keys :: p.vals[k]) == p.vals
  {
    var m := map k | k in p.keys :: p.vals[k];
    assert m.Keys == p.vals.Keys;
    assert forall k :: k in m ==> m[k] == p.vals[k];
  }

  /** Spreading an object with no properties changes nothing. */
  lemma SpreadEmpty<V>(o: Obj<V>)
    requires Valid(o)
    ensures Spread(o, Empty()) == o
  {
    var e: Obj<V> := Empty();
    var r := Spread(o, e);
    assert r.keys == o.keys;
    assert r.vals == o.vals by {
      assert o.vals + e.vals == o.vals;
    }
  }

  /**
   * Spreading `p` after one more assignment to `p` is the same as assigning
   * to the spread object: `{...o, ...(q[k] = v, q)}` is `({...o, ...q})[k] = v`.
   */
  lemma SpreadPut<V>(o: Obj<V>, q: Obj<V>, k: string, v: V)
    requires Valid(o) && Valid(q)
    ensures Spread(o, Put(q, k, v)) == Put(Spread(o, q), k, v)
  {
    SpreadPutKeys(o, q, k, v);
    SpreadPutVals(o, q, k, v);
  }

  lemma SpreadPutKeys<V>(o: Obj<V>, q: Obj<V>, k: string, v: V)
    requires Valid(o) && Valid(q)
    ensures Spread(o, Put(q, k, v)).keys == Put(Spread(o, q), k, v).keys
  {
    var q' := Put(q, k, v);
    if k !in q.vals {
      assert q'.keys == q.keys + [k];
      assert q'.keys[..|q'.keys| - 1] == q.keys;
    }
  }

  lemma SpreadPutVals<V>(o: Obj<V>, q: Obj<V>, k: string, v: V)
    requires Valid(o) && Valid(q)
    ensures Spread(o, Put(q, k, v)).vals == Put(Spread(o, q), k, v).vals
  {
    UnionUpdate(o.vals, q.vals, k, v);
  }

  /** A map union whose right operand was updated is the updated union. */
  lemma UnionUpdate<V>(a: map<string, V>, b: map<string, V>, k: string, v: V)
    ensures a + b[k := v] == (a + b)[k := v]
  {
    var l, r := a + b[k := v], (a + b)[k := v];
    assert l.Keys == r.Keys;
    assert forall x :: x in l ==> l[x] == r[x];
  }

  /** The position of the first occurrence of `x` in `xs`. */
  ghost function FirstIndex(xs: seq<string>, x: string): (i: nat)
    requires x in xs
    ensures i < |xs| && xs[i] == x
    ensures forall j :: 0 <= j < i ==> xs[j] != x
  {
    if xs[0] == x then 0 else 1 + FirstIndex(xs[1..], x)
  }

  /**
   * Creating the properties `xs` in turn on an object without properties
   * lists each key once, in the order of its first occurrence in `xs`.
   */
  lemma {:induction false} FirstOccurrenceOrder(xs: seq<string>)
    ensures forall i, j :: 0 <= i < j < |AppendNew([], xs)| ==>
      FirstIndex(xs, AppendNew([], xs)[i]) < FirstIndex(xs, AppendNew([], xs)[j])
    decreases |xs|
  {
    if xs != [] {
      var init, x := xs[..|xs| - 1], xs[|xs| - 1];
      assert xs == init + [x];
      FirstOccurrenceOrder(init);
      var r, d := AppendNew([], init), AppendNew([], xs);
      assert d == if x in r then r else r + [x];
      forall i, j | 0 <= i < j < |d|
        ensures FirstIndex(xs, d[i]) < FirstIndex(xs, d[j])
      {
        assert d[i] == r[i] && d[i] in init;
        FirstIndexExtend(init, x, d[i]);
        if j < |r| {
          assert d[j] == r[j] && d[j] in init;
          FirstIndexExtend(init, x, d[j]);
        } else {
          assert d[j] == x && x !in init;
          assert FirstIndex(xs, x) == |init|;
        }
      }
    }
  }

  /** Appending an element does not move the first occurrence of one already present. */
  lemma FirstIndexExtend(s: seq<string>, x: string, y: string)
    requires y in s
    ensures FirstIndex(s + [x], y) == FirstIndex(s, y)
  {
    var a, b := FirstIndex(s + [x], y), FirstIndex(s, y);
    assert (s + [x])[b] == y;
    assert a <= b;
    assert s[a] == (s + [x])[a] == y;
  }
}
