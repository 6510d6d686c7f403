/** Python's `dict` with string keys, where its order matters: the keys in insertion order beside the mapping.
    Assigning to a present key keeps its position; a new key goes to the end. */
module Dicts {

  datatype Dict<V> = Dict(keys: seq<string>, vals: map<string, V>)

  /** The keys are distinct and are exactly the mapped ones. */
  predicate Valid<V>(d: Dict<V>) {
    (forall i, j :: 0 <= i < j < |d.keys| ==> d.keys[i] != d.keys[j])
    && (forall k :: k in d.vals ==> k in d.keys)
    && (forall i :: 0 <= i < |d.keys| ==> d.keys[i] in d.vals)
  }

  function Empty<V>(): (d: Dict<V>)
    ensures Valid(d) && |d.keys| == 0
  {
    Dict([], map[])
  }

  /** `d[k] = v` */
  function Put<V>(d: Dict<V>, k: string, v: V): (r: Dict<V>)
    requires Valid(d)
    ensures Valid(r)
    ensures r.vals == d.vals[k := v]
    ensures k in d.vals ==> r.keys == d.keys
    ensures k !in d.vals ==> r.keys == d.keys + [k]
  {
    if k in d.vals then Dict(d.keys, d.vals[k := v]) else Dict(d.keys + [k], d.vals[k := v])
  }

  /** `{key: value for (key, value) in pairs}` */
  function FromPairs<V>(pairs: seq<(string, V)>): (d: Dict<V>)
    ensures Valid(d)
    decreases |pairs|
  {
    if |pairs| == 0 then Empty()
    else
      var last := pairs[|pairs| - 1];
      Put(FromPairs(pairs[..|pairs| - 1]), last.0, last.1)
  }

  /** The keys are exactly the keys of the pairs. */
  lemma {:induction false} FromPairsKeys<V>(pairs: seq<(string, V)>, k: string)
    ensures k in FromPairs(pairs).vals <==> exists i :: 0 <= i < |pairs| && pairs[i].0 == k
    decreases |pairs|
  {
    if |pairs| > 0 {
      var init := pairs[..|pairs| - 1];
      FromPairsKeys(init, k);
      assert forall i :: 0 <= i < |init| ==> init[i] == pairs[i];
    }
  }

  /** The last pair for a key gives its value. */
  lemma {:induction false} FromPairsLastWins<V>(pairs: seq<(string, V)>, i: nat)
    requires i < |pairs|
    requires forall j :: i < j < |pairs| ==> pairs[j].0 != pairs[i].0
    ensures pairs[i].0 in FromPairs(pairs).vals && FromPairs(pairs).vals[pairs[i].0] == pairs[i].1
    decreases |pairs|
  {
    if i < |pairs| - 1 {
      var init := pairs[..|pairs| - 1];
      assert init[i] == pairs[i];
      FromPairsLastWins(init, i);
    }
  }

  // ------------------------------------------------------------------------ dicts of lists

  /** The lists' lengths summed over the given keys. */
  function Lengths<V>(keys: seq<string>, m: map<string, seq<V>>): nat
    requires forall k :: k in keys ==> k in m
    decreases |keys|
  {
    if |keys| == 0 then 0
    else Lengths(keys[..|keys| - 1], m) + |m[keys[|keys| - 1]]|
  }

  function TotalLength<V>(d: Dict<seq<V>>): nat
    requires Valid(d)
  {
    Lengths(d.keys, d.vals)
  }

  /** `if k not in d: d[k] = []` then `d[k].append(x)` */
  function Append<V>(d: Dict<seq<V>>, k: string, x: V): (r: Dict<seq<V>>)
    requires Valid(d)
    ensures Valid(r)
    ensures k in r.vals && r.vals[k] == (if k in d.vals then d.vals[k] else []) + [x]
    ensures forall j :: j in d.vals && j != k ==> j in r.vals && r.vals[j] == d.vals[j]
    ensures r.vals.Keys == d.vals.Keys + {k}
    ensures r.keys == if k in d.vals then d.keys else d.keys + [k]
  {
    Put(d, k, (if k in d.vals then d.vals[k] else []) + [x])
  }

  lemma {:induction false} LengthsOutside<V>(keys: seq<string>, m: map<string, seq<V>>, k: string, v: seq<V>)
    requires forall j :: j in keys ==> j in m
    requires k !in keys
    ensures Lengths(keys, m[k := v]) == Lengths(keys, m)
    decreases |keys|
  {
    if |keys| > 0 {
      LengthsOutside(keys[..|keys| - 1], m, k, v);
    }
  }

  lemma {:induction false} LengthsInside<V>(keys: seq<string>, m: map<string, seq<V>>, k: string, v: seq<V>)
    requires forall j :: j in keys ==> j in m
    requires forall i, j :: 0 <= i < j < |keys| ==> keys[i] != keys[j]
    requires k in keys
    ensures Lengths(keys, m[k := v]) + |m[k]| == Lengths(keys, m) + |v|
    decreases |keys|
  {
    var init := keys[..|keys| - 1];
    if keys[|keys| - 1] == k {
      assert forall i :: 0 <= i < |init| ==> init[i] == keys[i];
      assert k !in init;
      LengthsOutside(init, m, k, v);
    } else {
      assert k in init;
      LengthsInside(init, m, k, v);
    }
  }

  /** Appending to a list of the dict adds one to the total length, whether the key is new or
      not. */
  lemma AppendAddsOne<V>(d: Dict<seq<V>>, k: string, x: V)
    requires Valid(d)
    ensures TotalLength(Append(d, k, x)) == TotalLength(d) + 1
  {
    if k in d.vals {
      var v := d.vals[k] + [x];
      assert Append(d, k, x) == Dict(d.keys, d.vals[k := v]);
      LengthsInside(d.keys, d.vals, k, v);
    } else {
      var keys := d.keys + [k];
      var m := d.vals[k := [x]];
      var empty: seq<V> := [];
      assert empty + [x] == [x];
      assert Append(d, k, x) == Dict(keys, m);
      assert keys[..|keys| - 1] == d.keys;
      assert Lengths(keys, m) == Lengths(d.keys, m) + 1;
      LengthsOutside(d.keys, d.vals, k, [x]);
    }
  }

  /** `d[k] = v` for each pair in turn. */
  function PutAll<V>(d: Dict<V>, pairs: seq<(string, V)>): (r: Dict<V>)
    requires Valid(d)
    ensures Valid(r)
    decreases |pairs|
  {
    if |pairs| == 0 then d else PutAll(Put(d, pairs[0].0, pairs[0].1), pairs[1..])
  }

  /** Building from `a + b` is building from `a` and then putting the pairs of `b`. */
  lemma {:induction false} FromPairsAppend<V>(a: seq<(string, V)>, b: seq<(string, V)>)
    ensures FromPairs(a + b) == PutAll(FromPairs(a), b)
    decreases |b|
  {
    if |b| == 0 {
      assert a + b == a;
    } else {
      assert (a + [b[0]])[..|a|] == a;
      assert a + b == (a + [b[0]]) + b[1..];
      FromPairsAppend(a + [b[0]], b[1..]);
    }
  }
}
