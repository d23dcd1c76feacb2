/**
 * Decoded JSON values and Python dictionaries.
 *
 * A Python dict remembers insertion order: it is modelled as its keys in that
 * order together with the value stored under each key. Assigning `d[k] = v`
 * keeps the position of an existing key or appends a new one, and
 * `d.update(o)` assigns the pairs of `o` one after the other.
 */
module JsonDict {
  import opened Wrappers

  /** A value as `json.loads` returns it (numbers of either kind as reals). */
  datatype Json =
    | Null
    | Bool(b: bool)
    | Num(x: real)
    | Str(s: string)
    | Arr(items: seq<Json>)
    | Obj(fields: Dict)

  /** A dict: its keys in insertion order and the value under each key. */
  datatype Dict = Dict(keys: seq<string>, values: map<string, Json>)

  /** No key occurs twice in `ks`. */
  ghost predicate Distinct(ks: seq<string>) {
    forall i, j :: 0 <= i < j < |ks| ==> ks[i] != ks[j]
  }

  /** Every real dict: each key listed once, and listed exactly when it has a value. */
  ghost predicate Valid(d: Dict) {
    Distinct(d.keys) && forall k :: k in d.values <==> k in d.keys
  }

  /** `d.get(k)`: the value stored under `k`, or None. */
  function Get(d: Dict, k: string): (r: Option<Json>)
    ensures r.Some? <==> k in d.values
    ensures r.Some? ==> r.value == d.values[k]
    ensures Valid(d) ==> (r.Some? <==> k in d.keys)
  {
    if k in d.values then Some(d.values[k]) else None
  }

  /** The values of `d` in key order (`d.values()`). */
  function Entries(d: Dict): (es: seq<Json>)
    requires forall k :: k in d.keys ==> k in d.values
    ensures |es| == |d.keys| && forall i :: 0 <= i < |d.keys| ==> es[i] == d.values[d.keys[i]]
  {
    seq(|d.keys|, i requires 0 <= i < |d.keys| => d.values[d.keys[i]])
  }

  /** `d[k] = v`: an existing key keeps its position, a new one goes last. */
  function Set(d: Dict, k: string, v: Json): (r: Dict)
    ensures Valid(d) ==> Valid(r)
    ensures Get(r, k) == Some(v) && forall k' :: k' != k ==> Get(r, k') == Get(d, k')
    ensures Valid(d) ==> r.keys == if k in d.keys then d.keys else d.keys + [k]
  {
    Dict(if k in d.values then d.keys else d.keys + [k], d.values[k := v])
  }

  /** Assigns, in the order of `ks`, the value `src` holds for each key. */
  function AssignAll(d: Dict, ks: seq<string>, src: map<string, Json>): (r: Dict)
    ensures Valid(d) ==> Valid(r)
    ensures Valid(d) ==> |r.keys| >= |d.keys| && r.keys[..|d.keys|] == d.keys
    decreases |ks|
  {
    if ks == [] then d
    else
      var d' := if ks[0] in src then Set(d, ks[0], src[ks[0]]) else d;
      assert Valid(d) ==> d'.keys[..|d.keys|] == d.keys;
      AssignAll(d', ks[1..], src)
  }

  /** `d.update(o)`. */
  function Update(d: Dict, o: Dict): (r: Dict)
    ensures Valid(d) ==> Valid(r)
    ensures Valid(d) ==> |r.keys| >= |d.keys| && r.keys[..|d.keys|] == d.keys
  {
    AssignAll(d, o.keys, o.values)
  }

  /** After `d.update(o)` a key holds the value of `o` if `o` has it, and its old value otherwise. */
  lemma {:induction false} AssignAllGet(d: Dict, ks: seq<string>, src: map<string, Json>, k: string)
    ensures Get(AssignAll(d, ks, src), k) == if k in ks && k in src then Some(src[k]) else Get(d, k)
    decreases |ks|
  {
    if ks != [] {
      var d' := if ks[0] in src then Set(d, ks[0], src[ks[0]]) else d;
      AssignAllGet(d', ks[1..], src, k);
      assert k in ks <==> k == ks[0] || k in ks[1..];
    }
  }

  /** The lookups after `d.update(o)`, for a dict `o`. */
  lemma UpdateGet(d: Dict, o: Dict, k: string)
    requires Valid(o)
    ensures Get(Update(d, o), k) == if k in o.values then Get(o, k) else Get(d, k)
  {
    AssignAllGet(d, o.keys, o.values, k);
  }

  /** Assigning keys that are all new and listed once appends them in order. */
  lemma {:induction false} AssignAllAppends(d: Dict, ks: seq<string>, src: map<string, Json>)
    requires Valid(d) && Distinct(ks)
    requires forall k :: k in ks ==> k in src && k !in d.keys
    ensures AssignAll(d, ks, src).keys == d.keys + ks
    decreases |ks|
  {
    if ks != [] {
      var d' := Set(d, ks[0], src[ks[0]]);
      var tail := ks[1..];
      assert d'.keys == d.keys + [ks[0]];
      assert Distinct(tail) by {
        forall i, j | 0 <= i < j < |tail| ensures tail[i] != tail[j] {
          assert tail[i] == ks[i + 1] && tail[j] == ks[j + 1];
        }
      }
      forall k | k in tail ensures k in src && k !in d'.keys {
        var i :| 0 <= i < |tail| && tail[i] == k;
        assert ks[i + 1] == k && ks[0] != ks[i + 1];
      }
      AssignAllAppends(d', tail, src);
      AppendHead(d.keys, ks);
    }
  }

  /** Appending the head of `s`, then its tail, appends `s`. */
  lemma AppendHead(a: seq<string>, s: seq<string>)
    requires s != []
    ensures a + [s[0]] + s[1..] == a + s
  {
  }

  /** The keys of `ks` not listed in `present`, in the order of `ks`, a repeated one only once. */
  function NewKeys(ks: seq<string>, present: seq<string>): (r: seq<string>)
    ensures forall k :: k in r <==> k in ks && k !in present
    decreases |ks|
  {
    if ks == [] then []
    else if ks[0] in present then NewKeys(ks[1..], present)
    else [ks[0]] + NewKeys(ks[1..], present + [ks[0]])
  }

  /** Assigning keys in order appends, in that order, those the dict does not have yet. */
  lemma {:induction false} AssignAllOrder(d: Dict, ks: seq<string>, src: map<string, Json>)
    requires Valid(d)
    requires forall k :: k in ks ==> k in src
    ensures AssignAll(d, ks, src).keys == d.keys + NewKeys(ks, d.keys)
    decreases |ks|
  {
    if ks != [] {
      var d' := Set(d, ks[0], src[ks[0]]);
      assert AssignAll(d, ks, src) == AssignAll(d', ks[1..], src);
      AssignAllOrder(d', ks[1..], src);
      if ks[0] !in d.keys {
        AppendOne(d.keys, ks[0], NewKeys(ks[1..], d'.keys));
      }
    }
  }

  /** Appending `x` and then `t` appends `[x] + t`. */
  lemma AppendOne(a: seq<string>, x: string, t: seq<string>)
    ensures a + [x] + t == a + ([x] + t)
  {
  }

  /**
   * `d.update(o)` keeps the keys of `d` in place and appends those of `o`
   * that `d` lacks, in the order of `o`.
   */
  lemma UpdateOrder(d: Dict, o: Dict)
    requires Valid(d) && Valid(o)
    ensures Update(d, o).keys == d.keys + NewKeys(o.keys, d.keys)
  {
    AssignAllOrder(d, o.keys, o.values);
  }

  /** Updating with a dict whose keys are all new appends its keys in order. */
  lemma UpdateAppends(d: Dict, o: Dict)
    requires Valid(d) && Valid(o)
    requires forall k :: k in o.keys ==> k !in d.keys
    ensures Update(d, o).keys == d.keys + o.keys
  {
    AssignAllAppends(d, o.keys, o.values);
  }

  /** A dict has as many keys as values, which is `len(d)`. */
  lemma {:induction false} KeyCount(d: Dict)
    requires Valid(d)
    ensures |d.values| == |d.keys|
    decreases |d.keys|
  {
    if d.keys != [] {
      var last := d.keys[|d.keys| - 1];
      var rest := Dict(d.keys[..|d.keys| - 1], d.values - {last});
      assert forall k :: k in rest.keys ==> k in d.keys && k != last;
      assert forall k :: k in d.keys ==> k in rest.keys || k == last;
      KeyCount(rest);
    }
  }

  /** The merged dictionary has one key per distinct key of the two dictionaries. */
  lemma UpdateKeyCount(d: Dict, o: Dict)
    requires Valid(d) && Valid(o)
    ensures |Update(d, o).keys| == |d.values.Keys + o.values.Keys|
  {
    var r := Update(d, o);
    KeyCount(r);
    forall k ensures k in r.values <==> k in d.values.Keys + o.values.Keys {
      UpdateGet(d, o, k);
    }
    assert r.values.Keys == d.values.Keys + o.values.Keys;
  }
}
