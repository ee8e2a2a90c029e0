/**
 * Python dictionaries keep their keys in insertion order, and the rendered
 * markup follows that order, so a dictionary is modelled as a sequence of
 * key/value pairs rather than as a Dafny map.
 */
module OrderedDicts {
  import opened Outcomes

  type Dict<V> = seq<(string, V)>

  /** `list(d)`: the keys in insertion order. */
  function Keys<V>(d: Dict<V>): (ks: seq<string>)
    ensures |ks| == |d|
    ensures forall i :: 0 <= i < |d| ==> ks[i] == d[i].0
    decreases |d|
  {
    if d == [] then [] else [d[0].0] + Keys(d[1..])
  }

  /** `list(d.values())` */
  function Values<V>(d: Dict<V>): (vs: seq<V>)
    ensures |vs| == |d|
    ensures forall i :: 0 <= i < |d| ==> vs[i] == d[i].1
    decreases |d|
  {
    if d == [] then [] else [d[0].1] + Values(d[1..])
  }

  /** A well-formed dictionary never holds a key twice. */
  predicate UniqueKeys<V>(d: Dict<V>) {
    forall i, j :: 0 <= i < j < |d| ==> d[i].0 != d[j].0
  }

  /** `d.get(k)` */
  function Get<V>(d: Dict<V>, k: string): (r: Option<V>)
    ensures r.None? <==> k !in Keys(d)
    decreases |d|
  {
    if d == [] then None
    else if d[0].0 == k then Some(d[0].1)
    else Get(d[1..], k)
  }

  /** `d[k] = v`: an existing key keeps its position, a new key goes last. */
  function Put<V>(d: Dict<V>, k: string, v: V): (r: Dict<V>)
    ensures Keys(r) == if k in Keys(d) then Keys(d) else Keys(d) + [k]
    decreases |d|
  {
    if d == [] then [(k, v)]
    else if d[0].0 == k then [(k, v)] + d[1..]
    else
      var rest := Put(d[1..], k, v);
      assert Keys([d[0]] + rest) == [d[0].0] + Keys(rest);
      [d[0]] + rest
  }

  /** `d.update(e)`: the pairs of `e` written into `d` one after another. */
  function Update<V>(d: Dict<V>, e: Dict<V>): Dict<V>
    decreases |e|
  {
    if e == [] then d else Update(Put(d, e[0].0, e[0].1), e[1..])
  }

  /** `d.pop(k, None)`: the dictionary without `k`. */
  function Remove<V>(d: Dict<V>, k: string): (r: Dict<V>)
    ensures forall k' :: k' in Keys(r) <==> k' in Keys(d) && k' != k
    decreases |d|
  {
    if d == [] then []
    else if d[0].0 == k then Remove(d[1..], k)
    else
      var rest := Remove(d[1..], k);
      assert Keys([d[0]] + rest) == [d[0].0] + Keys(rest);
      [d[0]] + rest
  }

  /** After `d[k] = v`, `k` maps to `v` and every other key keeps its value. */
  lemma {:induction false} PutGet<V>(d: Dict<V>, k: string, v: V, k': string)
    ensures Get(Put(d, k, v), k') == if k' == k then Some(v) else Get(d, k')
    decreases |d|
  {
    if d != [] && d[0].0 != k {
      PutGet(d[1..], k, v, k');
    }
  }

  /** `d[k] = v` keeps the dictionary well formed. */
  lemma PutUnique<V>(d: Dict<V>, k: string, v: V)
    requires UniqueKeys(d)
    ensures UniqueKeys(Put(d, k, v))
  {
    var r := Put(d, k, v);
    var ks := Keys(r);
    assert forall i :: 0 <= i < |r| ==> r[i].0 == ks[i];
    if k in Keys(d) {
      assert ks == Keys(d);
    } else {
      assert ks == Keys(d) + [k];
    }
  }

  /** Removing a key leaves the other keys' values alone. */
  lemma {:induction false} RemoveGet<V>(d: Dict<V>, k: string, k': string)
    requires k' != k
    ensures Get(Remove(d, k), k') == Get(d, k')
    decreases |d|
  {
    if d != [] {
      RemoveGet(d[1..], k, k');
    }
  }

  /** After `d.update(e)` the keys are those of `d` (first, in their order) and then the new ones of `e`. */
  lemma {:induction false} UpdateKeys<V>(d: Dict<V>, e: Dict<V>)
    ensures Keys(d) <= Keys(Update(d, e))
    ensures forall k :: k in Keys(Update(d, e)) <==> k in Keys(d) || k in Keys(e)
    decreases |e|
  {
    if e != [] {
      var d' := Put(d, e[0].0, e[0].1);
      UpdateKeys(d', e[1..]);
      assert Keys(d) <= Keys(d');
    }
  }

  /** `d.update(e)` keeps the dictionary well formed. */
  lemma {:induction false} UpdateUnique<V>(d: Dict<V>, e: Dict<V>)
    requires UniqueKeys(d)
    ensures UniqueKeys(Update(d, e))
    decreases |e|
  {
    if e != [] {
      PutUnique(d, e[0].0, e[0].1);
      UpdateUnique(Put(d, e[0].0, e[0].1), e[1..]);
    }
  }

  /** After `d.update(e)` a key of `e` maps to its value in `e`; every other key keeps its value in `d`. */
  lemma {:induction false} UpdateGet<V>(d: Dict<V>, e: Dict<V>, k: string)
    requires UniqueKeys(e)
    ensures Get(Update(d, e), k) == if k in Keys(e) then Get(e, k) else Get(d, k)
    decreases |e|
  {
    if e != [] {
      var d' := Put(d, e[0].0, e[0].1);
      assert UniqueKeys(e[1..]);
      UpdateGet(d', e[1..], k);
      PutGet(d, e[0].0, e[0].1, k);
      if k == e[0].0 {
        assert k !in Keys(e[1..]) by {
          forall j | 0 <= j < |e[1..]| ensures Keys(e[1..])[j] != k {
            assert e[j + 1].0 != e[0].0;
          }
        }
      }
    }
  }

  /** Updating with one more pair is one more assignment. */
  lemma {:induction false} UpdateSnoc<V>(d: Dict<V>, e: Dict<V>, k: string, v: V)
    ensures Update(d, e + [(k, v)]) == Put(Update(d, e), k, v)
    decreases |e|
  {
    if e == [] {
      assert e + [(k, v)] == [(k, v)];
      assert [(k, v)][1..] == [];
    } else {
      assert (e + [(k, v)])[1..] == e[1..] + [(k, v)];
      UpdateSnoc(Put(d, e[0].0, e[0].1), e[1..], k, v);
    }
  }

  /** `d.update(e0)`, then `.update(e1)`, … for each dictionary of `es` in turn. */
  function UpdateAll<V>(d: Dict<V>, es: seq<Dict<V>>): Dict<V>
    decreases |es|
  {
    if es == [] then d else Update(UpdateAll(d, es[..|es| - 1]), es[|es| - 1])
  }

  /** Updating with one more dictionary. */
  lemma UpdateAllSnoc<V>(d: Dict<V>, es: seq<Dict<V>>, e: Dict<V>)
    ensures UpdateAll(d, es + [e]) == Update(UpdateAll(d, es), e)
  {
    assert (es + [e])[..|es|] == es;
  }

  /** A key is present afterwards exactly when `d` or one of the `es` holds it. */
  lemma {:induction false} UpdateAllKeys<V>(d: Dict<V>, es: seq<Dict<V>>, k: string)
    ensures k in Keys(UpdateAll(d, es)) <==> k in Keys(d) || exists j :: 0 <= j < |es| && k in Keys(es[j])
    decreases |es|
  {
    if es != [] {
      var last := |es| - 1;
      UpdateAllKeys(d, es[..last], k);
      UpdateKeys(UpdateAll(d, es[..last]), es[last]);
      assert es == es[..last] + [es[last]];
      HeldSomewhereSnoc(es[..last], es[last], k);
    }
  }

  /** A key held by one of `init + [e]` is held by one of `init`, or by `e`. */
  lemma HeldSomewhereSnoc<V>(init: seq<Dict<V>>, e: Dict<V>, k: string)
    ensures (exists j :: 0 <= j < |init + [e]| && k in Keys((init + [e])[j])) <==>
      (exists j :: 0 <= j < |init| && k in Keys(init[j])) || k in Keys(e)
  {
    var es := init + [e];
    if j :| 0 <= j < |es| && k in Keys(es[j]) {
      if j < |init| {
        assert init[j] == es[j];
      } else {
        assert es[j] == e;
      }
    }
    if j :| 0 <= j < |init| && k in Keys(init[j]) {
      assert init[j] == es[j];
    }
    if k in Keys(e) {
      assert es[|init|] == e;
    }
  }

  /** A key none of the `es` holds keeps its value in `d`. */
  lemma {:induction false} UpdateAllFirst<V>(d: Dict<V>, es: seq<Dict<V>>, k: string)
    requires forall j :: 0 <= j < |es| ==> UniqueKeys(es[j]) && k !in Keys(es[j])
    ensures Get(UpdateAll(d, es), k) == Get(d, k)
    decreases |es|
  {
    if es != [] {
      var last := |es| - 1;
      var init := es[..last];
      forall j | 0 <= j < last
        ensures UniqueKeys(init[j]) && k !in Keys(init[j])
      {
        assert init[j] == es[j];
      }
      UpdateAllFirst(d, init, k);
      UpdateGet(UpdateAll(d, init), es[last], k);
    }
  }

  /** A key takes its value from the last of the `es` that holds it. */
  lemma {:induction false} UpdateAllLast<V>(d: Dict<V>, es: seq<Dict<V>>, j: nat, k: string)
    requires j < |es| && k in Keys(es[j])
    requires forall j' :: 0 <= j' < |es| ==> UniqueKeys(es[j'])
    requires forall j' :: j < j' < |es| ==> k !in Keys(es[j'])
    ensures Get(UpdateAll(d, es), k) == Get(es[j], k)
    decreases |es|
  {
    var last := |es| - 1;
    var init := es[..last];
    UpdateGet(UpdateAll(d, init), es[last], k);
    if j < last {
      assert init[j] == es[j];
      forall j' | 0 <= j' < last
        ensures UniqueKeys(init[j']) && (j < j' ==> k !in Keys(init[j']))
      {
        assert init[j'] == es[j'];
      }
      UpdateAllLast(d, init, j, k);
    }
  }

  /** Updating well-formed dictionaries gives a well-formed dictionary. */
  lemma {:induction false} UpdateAllUnique<V>(d: Dict<V>, es: seq<Dict<V>>)
    requires UniqueKeys(d)
    ensures UniqueKeys(UpdateAll(d, es))
    decreases |es|
  {
    if es != [] {
      UpdateAllUnique(d, es[..|es| - 1]);
      UpdateUnique(UpdateAll(d, es[..|es| - 1]), es[|es| - 1]);
    }
  }

  /** `d[k] = v` leaves the value of every other key as it was. */
  lemma PutOthers<V>(d: Dict<V>, k: string, v: V)
    ensures forall k' :: k' != k ==> Get(Put(d, k, v), k') == Get(d, k')
  {
    forall k' | k' != k {
      PutGet(d, k, v, k');
    }
  }
}
