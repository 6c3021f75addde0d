/**
 Hit-count maps (the reporter's `#url_hits` and `#ip_address_requests`).

 `Inc` is the reporter's `#inc`: insert 0 for an unseen key, then add one.
 `Histogram` folds `Inc` over a sequence of keys and is the reference value of
 a count map; `Total` is the sum of a map's counts.
 */
module Counts {

  type CountMap = map<string, nat>

  /** The count of `key`, 0 when the key is absent (`map[key] === undefined`). */
  function CountOf(m: CountMap, key: string): nat
  {
    if key in m then m[key] else 0
  }

  /** `#inc`: add the key with count 0 if it is absent, then increment it. */
  function Inc(m: CountMap, key: string): (r: CountMap)
    ensures r.Keys == m.Keys + {key}
    ensures r[key] == CountOf(m, key) + 1
    ensures forall k :: k in m && k != key ==> r[k] == m[k]
  {
    var m0 := if key !in m then m[key := 0] else m;
    m0[key := m0[key] + 1]
  }

  /** The count map obtained by incrementing each key of `keys` in order. */
  function Histogram(keys: seq<string>): CountMap
  {
    if keys == [] then map[] else Inc(Histogram(keys[..|keys| - 1]), keys[|keys| - 1])
  }

  /** The sum of all counts of a map. */
  ghost function Total(m: CountMap): nat
    decreases |m|
  {
    if m == map[] then 0
    else
      var k :| k in m;
      assert |m - {k}| < |m| by { RemoveShrinks(m, k); }
      m[k] + Total(m - {k})
  }

  lemma RemoveShrinks(m: CountMap, k: string)
    requires k in m
    ensures (m - {k}).Keys == m.Keys - {k}
    ensures |m - {k}| == |m| - 1
  {
    assert (m - {k}).Keys == m.Keys - {k};
    assert |m.Keys - {k}| == |m.Keys| - 1;
  }

  /** Any key can be taken out first when summing: the total does not depend on the order. */
  lemma {:induction false} TotalRemove(m: CountMap, k: string)
    requires k in m
    ensures Total(m) == m[k] + Total(m - {k})
    decreases |m|
  {
    var j :| j in m && Total(m) == m[j] + Total(m - {j});
    if j != k {
      RemoveShrinks(m, j);
      RemoveShrinks(m, k);
      assert k in m - {j};
      TotalRemove(m - {j}, k);
      assert j in m - {k};
      TotalRemove(m - {k}, j);
      assert (m - {j}) - {k} == (m - {k}) - {j};
    }
  }

  /** Every `#inc` adds exactly one to the total. */
  lemma TotalInc(m: CountMap, key: string)
    ensures Total(Inc(m, key)) == Total(m) + 1
  {
    var r := Inc(m, key);
    TotalRemove(r, key);
    if key in m {
      TotalRemove(m, key);
      assert r - {key} == m - {key};
    } else {
      assert r - {key} == m;
    }
  }

  /** A histogram's total is the number of keys it was built from. */
  lemma {:induction false} HistogramTotal(keys: seq<string>)
    ensures Total(Histogram(keys)) == |keys|
  {
    if keys != [] {
      HistogramTotal(keys[..|keys| - 1]);
      TotalInc(Histogram(keys[..|keys| - 1]), keys[|keys| - 1]);
    }
  }

  /** A histogram has exactly the distinct keys of the sequence, each with its number of occurrences. */
  lemma {:induction false} HistogramCounts(keys: seq<string>)
    ensures Histogram(keys).Keys == set k | k in keys
    ensures forall k :: CountOf(Histogram(keys), k) == multiset(keys)[k]
  {
    if keys != [] {
      var init, last := keys[..|keys| - 1], keys[|keys| - 1];
      assert keys == init + [last];
      HistogramCounts(init);
      assert multiset(keys) == multiset(init) + multiset{last};
    }
  }

  /** The number of keys of a histogram is the number of distinct keys in the sequence. */
  lemma HistogramSize(keys: seq<string>)
    ensures |Histogram(keys)| == |set k | k in keys|
  {
    HistogramCounts(keys);
    assert Histogram(keys).Keys == set k | k in keys;
  }

  /** Folding one more key is one more `#inc`. */
  lemma HistogramSnoc(keys: seq<string>, key: string)
    ensures Histogram(keys + [key]) == Inc(Histogram(keys), key)
  {
    assert (keys + [key])[..|keys|] == keys;
  }

  /**
   The value of a property of the plain object `{}` that `#inc` updates: a
   number, or NaN once `++` has been applied to something that is not one.
   */
  datatype JsValue = Num(n: nat) | NaN

  /** The properties every plain object inherits from `Object.prototype`. */
  const InheritedKeys: set<string> := {
    "constructor", "__proto__", "toString", "toLocaleString", "valueOf",
    "hasOwnProperty", "isPrototypeOf", "propertyIsEnumerable",
    "__defineGetter__", "__defineSetter__", "__lookupGetter__", "__lookupSetter__"}

  /** A count map seen as the own properties of the JavaScript object. */
  function AsObject(m: CountMap): map<string, JsValue>
  {
    map k | k in m :: Num(m[k])
  }

  /**
   `#inc` on a plain object, as written: `map[key] === undefined` also sees the
   inherited properties, so for an inherited name the zero is never stored and
   `++` turns the inherited function into NaN, stored as an own property;
   `__proto__` is an accessor whose setter ignores the NaN, so nothing is stored.
   */
  function IncAsWritten(o: map<string, JsValue>, key: string): (r: map<string, JsValue>)
    ensures r.Keys <= o.Keys + {key}
    ensures forall k | k in o && k != key :: k in r && r[k] == o[k]
  {
    if key in o then
      match o[key]
      case Num(n) => o[key := Num(n + 1)]
      case NaN => o
    else if key == "__proto__" then o
    else if key in InheritedKeys then o[key := NaN]
    else o[key := Num(1)]
  }

  /** Away from the inherited names, `#inc` as written is `Inc`. */
  lemma IncAsWrittenAgrees(m: CountMap, key: string)
    requires key !in InheritedKeys
    ensures IncAsWritten(AsObject(m), key) == AsObject(Inc(m, key))
  {
  }

  /**
   The first request for URL `constructor` is counted as NaN instead of 1, and
   one for `__proto__` is not counted at all, so the counts no longer add up to
   the number of accepted lines; `Inc` counts both.
   */
  lemma InheritedKeyCounts()
    ensures IncAsWritten(AsObject(map[]), "constructor") == map["constructor" := NaN]
    ensures IncAsWritten(AsObject(map[]), "__proto__") == map[]
    ensures Inc(map[], "constructor") == map["constructor" := 1]
    ensures Inc(map[], "__proto__") == map["__proto__" := 1]
  {
    assert AsObject(map[]) == map[];
  }
}
