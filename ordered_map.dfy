/**
 * A JavaScript `Map` with string keys, as the server uses for its room table and
 * its player-to-socket table.  Besides the entries it keeps the keys in
 * insertion order, because the server's behaviour depends on that order: the
 * room list it broadcasts, the order in which a disconnect visits the rooms,
 * and which player a disconnecting socket is taken to belong to.
 *
 * Setting an existing key keeps its place; setting a new key appends it;
 * deleting a key removes it and keeps the order of the others.
 */
module OrderedMaps {
  import opened Wrappers

  /** No key is listed twice. */
  ghost predicate Distinct(s: seq<string>)
  {
    s == [] || (s[0] !in s[1..] && Distinct(s[1..]))
  }

  /** Distinct keys differ at every pair of positions. */
  lemma {:induction false} DistinctAt(s: seq<string>)
    requires Distinct(s)
    ensures forall i, j :: 0 <= i < j < |s| ==> s[i] != s[j]
  {
    if s != [] {
      DistinctAt(s[1..]);
      forall i, j | 0 <= i < j < |s|
        ensures s[i] != s[j]
      {
        if i == 0 {
          assert s[j] == s[1..][j - 1];
        } else {
          assert s[i] == s[1..][i - 1] && s[j] == s[1..][j - 1];
        }
      }
    }
  }

  /** Appending a key not yet listed keeps the keys distinct. */
  lemma {:induction false} DistinctSnoc(s: seq<string>, k: string)
    requires Distinct(s) && k !in s
    ensures Distinct(s + [k])
  {
    if s != [] {
      assert (s + [k])[1..] == s[1..] + [k];
      DistinctSnoc(s[1..], k);
    }
  }

  /** `s` without any occurrence of `k`, order kept. */
  function Without(s: seq<string>, k: string): (r: seq<string>)
    ensures forall x :: x in r <==> x in s && x != k
    ensures k !in s ==> r == s
    ensures Distinct(s) ==> Distinct(r)
  {
    if s == [] then []
    else if s[0] == k then Without(s[1..], k)
    else
      var r := [s[0]] + Without(s[1..], k);
      assert r[1..] == Without(s[1..], k);
      r
  }

  /** Dropping a key keeps the order: dropping it from two lists in turn is dropping it from their concatenation. */
  lemma {:induction false} WithoutSplits(a: seq<string>, b: seq<string>, k: string)
    ensures Without(a + b, k) == Without(a, k) + Without(b, k)
    decreases |a|
  {
    if a == [] {
      assert a + b == b;
    } else {
      assert (a + b)[0] == a[0] && (a + b)[1..] == a[1..] + b;
      WithoutSplits(a[1..], b, k);
      if a[0] != k {
        AppendAssoc([a[0]], Without(a[1..], k), Without(b, k));
      }
    }
  }

  /** A single key is kept exactly when it is not the one dropped. */
  lemma WithoutOne(x: string, k: string)
    ensures Without([x], k) == if x != k then [x] else []
  {
    assert [x][1..] == [];
  }

  datatype OMap<V> = OMap(keys: seq<string>, entries: map<string, V>) {

    /** Every key is listed once, and the listed keys are exactly the entries' keys. */
    ghost predicate Valid()
    {
      && Distinct(keys)
      && (forall k :: k in entries <==> k in keys)
    }

    /** `map.get(k)`. */
    function Get(k: string): (r: Option<V>)
      ensures r.Some? <==> k in entries
      ensures r.Some? ==> r.value == entries[k]
    {
      if k in entries then Some(entries[k]) else None
    }

    /** `map.set(k, v)`: a new key goes last, an existing key keeps its place. */
    function Set(k: string, v: V): (r: OMap<V>)
      ensures Valid() ==> r.Valid()
      ensures r.entries == entries[k := v]
      ensures k in entries ==> r.keys == keys
      ensures k !in entries ==> r.keys == keys + [k]
    {
      if k in entries then OMap(keys, entries[k := v])
      else
        assert Valid() ==> Distinct(keys + [k]) by {
          if Valid() { DistinctSnoc(keys, k); }
        }
        OMap(keys + [k], entries[k := v])
    }

    /** `map.delete(k)`: the other keys keep their order. */
    function Delete(k: string): (r: OMap<V>)
      ensures Valid() ==> r.Valid()
      ensures r.entries == entries - {k}
      ensures r.keys == Without(keys, k)
    {
      OMap(Without(keys, k), entries - {k})
    }
  }

  function EmptyMap<V>(): (r: OMap<V>)
    ensures r.Valid() && r.entries == map[]
  {
    OMap([], map[])
  }

  /** The first key, in the order of `ks`, whose entry is `v`. */
  function FirstKeyWith(ks: seq<string>, entries: map<string, string>, v: string): (r: Option<string>)
    ensures r.Some? ==> r.value in ks && r.value in entries && entries[r.value] == v
    ensures r.None? ==> forall k :: k in ks && k in entries ==> entries[k] != v
  {
    if ks == [] then None
    else if ks[0] in entries && entries[ks[0]] == v then Some(ks[0])
    else FirstKeyWith(ks[1..], entries, v)
  }

  /** No key before the one found has entry `v`. */
  lemma {:induction false} FirstKeyWithIsFirst(ks: seq<string>, entries: map<string, string>, v: string)
    ensures FirstKeyWith(ks, entries, v).Some? ==>
              exists i :: 0 <= i < |ks| && ks[i] == FirstKeyWith(ks, entries, v).value
                          && forall j :: 0 <= j < i ==> !(ks[j] in entries && entries[ks[j]] == v)
  {
    if ks != [] && !(ks[0] in entries && entries[ks[0]] == v) {
      FirstKeyWithIsFirst(ks[1..], entries, v);
      var r := FirstKeyWith(ks, entries, v);
      if r.Some? {
        var i :| 0 <= i < |ks[1..]| && ks[1..][i] == r.value
                 && forall j :: 0 <= j < i ==> !(ks[1..][j] in entries && entries[ks[1..][j]] == v);
        assert ks[i + 1] == r.value;
        assert forall j :: 1 <= j < i + 1 ==> ks[j] == ks[1..][j - 1];
      }
    }
  }

  /** A scan that reaches position `i` without a hit may restart there. */
  lemma {:induction false} FirstKeyWithSkips(ks: seq<string>, entries: map<string, string>, v: string, i: nat)
    requires i < |ks|
    requires !(ks[i] in entries && entries[ks[i]] == v)
    ensures FirstKeyWith(ks[i..], entries, v) == FirstKeyWith(ks[i + 1..], entries, v)
  {
    assert ks[i..][1..] == ks[i + 1..];
  }

}
