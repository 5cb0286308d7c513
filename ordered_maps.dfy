/**
 * A JavaScript object used as a dictionary: its enumeration order
 * (`Object.keys`) as a sequence of distinct keys, and the key→value map.
 */
module OrderedMaps {

  datatype Option<+T> = None | Some(value: T)

  /** No key occurs twice in `s`. */
  predicate Distinct<T(==)>(s: seq<T>)
  {
    forall i, j :: 0 <= i < j < |s| ==> s[i] != s[j]
  }

  datatype OMap<V> = OMap(keys: seq<string>, values: map<string, V>)

  /** The keys are distinct and are exactly the keys of the map. */
  ghost predicate Valid<V>(m: OMap<V>)
  {
    Distinct(m.keys) && (forall k :: k in m.values <==> k in m.keys)
  }

  function Empty<V>(): (m: OMap<V>)
    ensures Valid(m) && m.keys == [] && m.values == map[]
  {
    OMap([], map[])
  }

  /** `obj[k]`, with `undefined` as `None`. */
  function Get<V>(m: OMap<V>, k: string): (r: Option<V>)
    ensures r.Some? <==> k in m.values
    ensures r.Some? ==> r.value == m.values[k]
  {
    if k in m.values then Some(m.values[k]) else None
  }

  /** `obj[k] || {}`-style lookup with a default. */
  function GetOr<V>(m: OMap<V>, k: string, default: V): (r: V)
    ensures k in m.values ==> r == m.values[k]
    ensures k !in m.values ==> r == default
  {
    if k in m.values then m.values[k] else default
  }

  /** `obj[k] = v`: an existing key keeps its place, a new key goes last. */
  function Put<V>(m: OMap<V>, k: string, v: V): (r: OMap<V>)
    requires Valid(m)
    ensures Valid(r)
    ensures r.values == m.values[k := v]
    ensures k in m.values ==> r.keys == m.keys
    ensures k !in m.values ==> r.keys == m.keys + [k]
  {
    if k in m.values then OMap(m.keys, m.values[k := v]) else OMap(m.keys + [k], m.values[k := v])
  }

  /** `s` without the occurrences of `k`, order kept. */
  function Without(s: seq<string>, k: string): (r: seq<string>)
    ensures forall x :: x in r <==> x in s && x != k
    ensures Distinct(s) ==> Distinct(r)
    ensures k !in s ==> r == s
  {
    if s == [] then []
    else if s[0] == k then Without(s[1..], k)
    else
      assert Distinct(s) ==> s[0] !in s[1..];
      [s[0]] + Without(s[1..], k)
  }

  /** Removing a key that occurs once, at `i`, cuts it out of its place; the rest stays in order. */
  lemma {:induction false} WithoutSplice(s: seq<string>, k: string, i: nat)
    requires i < |s| && s[i] == k && k !in s[..i] && k !in s[i + 1..]
    ensures Without(s, k) == s[..i] + s[i + 1..]
    decreases i
  {
    if i == 0 {
      assert s[..0] + s[1..] == s[1..];
    } else {
      var t := s[1..];
      assert s[0] != k by { assert s[0] == s[..i][0]; }
      assert t[i - 1] == k;
      assert t[..i - 1] == s[1..i] && t[i..] == s[i + 1..];
      assert k !in t[..i - 1];
      WithoutSplice(t, k, i - 1);
      assert s[..i] == [s[0]] + s[1..i];
    }
  }

  /** In a sequence without repeats, the key at `i` occurs nowhere else. */
  lemma OnlyOccurrence(s: seq<string>, i: nat)
    requires Distinct(s) && i < |s|
    ensures s[i] !in s[..i] && s[i] !in s[i + 1..]
  {
    forall j | 0 <= j < i ensures s[..i][j] != s[i] {
      assert s[..i][j] == s[j];
    }
    var tail := s[i + 1..];
    forall j | 0 <= j < |tail| ensures tail[j] != s[i] {
      assert tail[j] == s[i + 1 + j];
    }
  }

  lemma WithoutSplices(s: seq<string>, k: string)
    requires Distinct(s)
    ensures forall i :: 0 <= i < |s| && s[i] == k ==> Without(s, k) == s[..i] + s[i + 1..]
  {
    forall i | 0 <= i < |s| && s[i] == k
      ensures Without(s, k) == s[..i] + s[i + 1..]
    {
      OnlyOccurrence(s, i);
      WithoutSplice(s, k, i);
    }
  }

  /** `delete obj[k]`: the other keys keep their order and values. */
  function Remove<V>(m: OMap<V>, k: string): (r: OMap<V>)
    requires Valid(m)
    ensures Valid(r)
    ensures r.values == m.values - {k}
    ensures r.keys == Without(m.keys, k)
    ensures k !in m.values ==> r.keys == m.keys
    ensures forall i :: 0 <= i < |m.keys| && m.keys[i] == k ==> r.keys == m.keys[..i] + m.keys[i + 1..]
  {
    WithoutSplices(m.keys, k);
    OMap(Without(m.keys, k), m.values - {k})
  }
}
