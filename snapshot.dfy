/** Turning a delivered snapshot of the user's collection into the item list. */
module Snapshot {
  import opened Records
  import opened Names
  import opened Validation

  /** The snapshot value: no value at all (an empty collection), or the
      records keyed by their store keys. */
  type Data = Option<map<string, Record>>

  ghost predicate Distinct<T>(s: seq<T>) {
    forall i, j :: 0 <= i < j < |s| ==> s[i] != s[j]
  }

  /** `order` lists every key of `m` exactly once: the order in which the
      entries of the snapshot object are enumerated. */
  ghost predicate IsEnumeration(order: seq<string>, m: map<string, Record>) {
    && Distinct(order)
    && (forall i :: 0 <= i < |order| ==> order[i] in m)
    && (forall k :: k in m ==> k in order)
  }

  ghost predicate DistinctIds(items: seq<Item>) {
    forall i, j :: 0 <= i < j < |items| ==> items[i].id != items[j].id
  }

  /** An enumeration of a map's keys is as long as the map is large. */
  lemma {:induction false} EnumerationLength(order: seq<string>, m: map<string, Record>)
    requires IsEnumeration(order, m)
    ensures |order| == |m|
  {
    if order == [] {
      assert m.Keys == {};
    } else {
      var k := order[0];
      var m' := m - {k};
      assert m'.Keys == m.Keys - {k};
      forall i | 0 <= i < |order[1..]| ensures order[1..][i] in m' {
        assert order[1..][i] == order[i + 1] && order[i + 1] != order[0];
      }
      forall k' | k' in m' ensures k' in order[1..] {
        var i :| 0 <= i < |order| && order[i] == k';
        assert i != 0 && order[1..][i - 1] == k';
      }
      EnumerationLength(order[1..], m');
    }
  }

  /** The snapshot callback's decoding: no value gives the empty list;
      otherwise there is one item per key, in enumeration order, whose `id`
      is the key and whose fields are that key's record. */
  function Decode(data: Data, order: seq<string>): (r: seq<Item>)
    requires data.Some? ==> IsEnumeration(order, data.value)
    ensures data.None? ==> r == []
    ensures data.Some? ==> |r| == |data.value|
    ensures data.Some? ==> forall it :: it in r <==> it.id in data.value && data.value[it.id] == it.rec
    ensures DistinctIds(r)
  {
    match data
    case None => []
    case Some(m) =>
      EnumerationLength(order, m);
      var r := seq(|order|, i requires 0 <= i < |order| => Item(order[i], m[order[i]]));
      assert forall k :: k in m ==> Item(k, m[k]) in r by {
        forall k | k in m ensures Item(k, m[k]) in r {
          var i :| 0 <= i < |order| && order[i] == k;
          assert r[i] == Item(k, m[k]);
        }
      }
      r
  }

  /** `s` with its element at index `j` taken out. */
  function RemoveAt<T>(s: seq<T>, j: nat): (r: seq<T>)
    requires j < |s|
    ensures |r| == |s| - 1
  {
    s[..j] + s[j + 1..]
  }

  /** Taking one element out of a distinct sequence leaves a distinct
      sequence holding all the other elements. */
  lemma RemoveAtFacts<T>(s: seq<T>, j: nat)
    requires j < |s| && Distinct(s)
    ensures multiset(s) == multiset(RemoveAt(s, j)) + multiset{s[j]}
    ensures Distinct(RemoveAt(s, j))
    ensures forall y :: y in RemoveAt(s, j) <==> y in s && y != s[j]
  {
    var r := RemoveAt(s, j);
    assert s == s[..j] + [s[j]] + s[j + 1..];
    forall p, q | 0 <= p < q < |r| ensures r[p] != r[q] {
      var p' := if p < j then p else p + 1;
      var q' := if q < j then q else q + 1;
      assert r[p] == s[p'] && r[q] == s[q'] && p' < q';
    }
    forall y ensures y in r <==> y in s && y != s[j] {
      if y in r {
        var q :| 0 <= q < |r| && r[q] == y;
        if q < j { assert s[q] == y; } else { assert s[q + 1] == y; }
      }
      if y in s && y != s[j] {
        var q :| 0 <= q < |s| && s[q] == y;
        if q < j { assert r[q] == y; } else { assert r[q - 1] == y; }
      }
    }
  }

  /** Distinct sequences holding the same elements are permutations of
      each other. */
  lemma {:induction false} SameMembersSameMultiset<T>(a: seq<T>, b: seq<T>)
    requires Distinct(a) && Distinct(b)
    requires forall x :: x in a <==> x in b
    ensures multiset(a) == multiset(b)
    decreases |a|
  {
    if a != [] {
      var x := a[0];
      assert x in b;
      var j :| 0 <= j < |b| && b[j] == x;
      RemoveAtFacts(a, 0);
      RemoveAtFacts(b, j);
      SameMembersSameMultiset(RemoveAt(a, 0), RemoveAt(b, j));
    } else {
      forall x ensures x !in multiset(b) {
        assert x !in a;
      }
    }
  }

  /** The order in which the snapshot's entries are enumerated does not
      matter: any two decodings of one snapshot hold the same items, each
      once. Delivering the same snapshot twice lists the same items. */
  lemma DecodeOrderIrrelevant(data: Data, o1: seq<string>, o2: seq<string>)
    requires data.Some? ==> IsEnumeration(o1, data.value) && IsEnumeration(o2, data.value)
    ensures multiset(Decode(data, o1)) == multiset(Decode(data, o2))
  {
    if data.Some? {
      var r1, r2 := Decode(data, o1), Decode(data, o2);
      assert Distinct(r1) by {
        forall i, j | 0 <= i < j < |r1| ensures r1[i] != r1[j] { assert r1[i].id != r1[j].id; }
      }
      assert Distinct(r2) by {
        forall i, j | 0 <= i < j < |r2| ensures r2[i] != r2[j] { assert r2[i].id != r2[j].id; }
      }
      SameMembersSameMultiset(r1, r2);
    }
  }

  /** Stripping `id` off a decoded item gives back exactly the record stored
      under its key. */
  lemma StripIdRecoversRecord(m: map<string, Record>, order: seq<string>, it: Item)
    requires IsEnumeration(order, m)
    requires it in Decode(Some(m), order)
    ensures it.id in m && m[it.id] == it.rec
  {
  }

  /** No two records of the collection share a name, ignoring case. */
  ghost predicate CollectionNamesUnique(m: map<string, Record>) {
    forall k1, k2 :: k1 in m && k2 in m && k1 != k2 ==> !SameName(m[k1].name, m[k2].name)
  }

  /** The decoded list has unique names exactly when the collection has. */
  lemma DecodedNamesUnique(m: map<string, Record>, order: seq<string>)
    requires IsEnumeration(order, m)
    ensures NamesUnique(Decode(Some(m), order)) <==> CollectionNamesUnique(m)
  {
    var r := Decode(Some(m), order);
    if NamesUnique(r) {
      forall k1, k2 | k1 in m && k2 in m && k1 != k2
        ensures !SameName(m[k1].name, m[k2].name)
      {
        assert Item(k1, m[k1]) in r && Item(k2, m[k2]) in r;
        var i :| 0 <= i < |r| && r[i] == Item(k1, m[k1]);
        var j :| 0 <= j < |r| && r[j] == Item(k2, m[k2]);
        if i < j {
          assert !SameName(r[i].rec.name, r[j].rec.name);
        } else {
          assert !SameName(r[j].rec.name, r[i].rec.name);
          SameNameIsEquivalence(m[k1].name, m[k2].name, m[k1].name);
        }
      }
    }
    if CollectionNamesUnique(m) {
      forall i, j | 0 <= i < j < |r| ensures !SameName(r[i].rec.name, r[j].rec.name) {
        assert r[i] in r && r[j] in r;
      }
    }
  }

  /** An add that passed validation against the current listing keeps the
      collection's names unique once the store files the record under a key
      it has not used. Uniqueness is checked at creation only: an update can
      still break it. */
  lemma AcceptedAddKeepsCollectionUnique(m: map<string, Record>, order: seq<string>, cand: Record, key: string)
    requires IsEnumeration(order, m)
    requires CollectionNamesUnique(m)
    requires Validate(Decode(Some(m), order), cand) == None
    requires key !in m
    ensures CollectionNamesUnique(m[key := cand])
  {
    var r := Decode(Some(m), order);
    var m' := m[key := cand];
    forall k1, k2 | k1 in m' && k2 in m' && k1 != k2
      ensures !SameName(m'[k1].name, m'[k2].name)
    {
      if k1 == key {
        assert Item(k2, m[k2]) in r;
        SameNameIsEquivalence(cand.name, m[k2].name, cand.name);
      } else if k2 == key {
        assert Item(k1, m[k1]) in r;
      }
    }
  }
}
