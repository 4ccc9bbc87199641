/**
 * Lists whose elements carry an id, and the map by id that a list with unique ids stands for. Pushing, removing and
 * overwriting refine the operations of the map, and equal maps mean equal lists up to order.
 */
module KeyedList {
  import opened Results

  type Uuid = nat

  ghost predicate Unique<T>(s: seq<T>, key: T -> Uuid) {
    forall i, j :: 0 <= i < j < |s| ==> key(s[i]) != key(s[j])
  }

  /** First position whose element has the given id. */
  function Position<T>(s: seq<T>, key: T -> Uuid, id: Uuid): (r: Option<nat>)
    ensures r.Some? ==> r.value < |s| && key(s[r.value]) == id && forall j :: 0 <= j < r.value ==> key(s[j]) != id
    ensures r.None? ==> forall j :: 0 <= j < |s| ==> key(s[j]) != id
  {
    if s == [] then None
    else if key(s[0]) == id then Some(0)
    else match Position(s[1..], key, id) case Some(k) => Some(k + 1) case None => None
  }

  method FindPosition<T>(s: seq<T>, key: T -> Uuid, id: Uuid) returns (r: Option<nat>)
    ensures r == Position(s, key, id)
  {
    assert s[0..] == s;
    for i := 0 to |s|
      invariant forall j :: 0 <= j < i ==> key(s[j]) != id
    {
      if key(s[i]) == id { return Some(i); }
    }
    r := None;
  }

  ghost predicate HasId<T>(s: seq<T>, key: T -> Uuid, id: Uuid) {
    exists i :: 0 <= i < |s| && key(s[i]) == id
  }

  function ToMap<T>(s: seq<T>, key: T -> Uuid): map<Uuid, T> {
    if s == [] then map[] else ToMap(s[..|s| - 1], key)[key(s[|s| - 1]) := s[|s| - 1]]
  }

  /** `m` holds exactly the elements of `s`, each under its id. */
  ghost predicate Represents<T>(s: seq<T>, key: T -> Uuid, m: map<Uuid, T>) {
    && (forall i :: 0 <= i < |s| ==> key(s[i]) in m && m[key(s[i])] == s[i])
    && (forall id :: id in m ==> HasId(s, key, id))
  }

  lemma {:induction false} ToMapRepresents<T>(s: seq<T>, key: T -> Uuid)
    requires Unique(s, key)
    ensures Represents(s, key, ToMap(s, key))
    decreases |s|
  {
    if s != [] {
      var init, last := s[..|s| - 1], s[|s| - 1];
      ToMapRepresents(init, key);
      assert forall i :: 0 <= i < |init| ==> init[i] == s[i];
      forall id | id in ToMap(s, key) ensures HasId(s, key, id) {
        if id == key(last) { assert key(s[|s| - 1]) == id; } else {
          assert HasId(init, key, id);
          var i :| 0 <= i < |init| && key(init[i]) == id;
          assert key(s[i]) == id;
        }
      }
    }
  }

  /** A list with unique ids represents no other map. */
  lemma MapOf<T>(s: seq<T>, key: T -> Uuid, m: map<Uuid, T>)
    requires Unique(s, key) && Represents(s, key, m)
    ensures ToMap(s, key) == m
  {
    hide ToMap;
    ToMapRepresents(s, key);
    var t := ToMap(s, key);
    forall id | id in m || id in t ensures id in t && id in m && t[id] == m[id] {
      var i :| 0 <= i < |s| && key(s[i]) == id;
    }
  }

  lemma PositionIff<T>(s: seq<T>, key: T -> Uuid, id: Uuid)
    requires Unique(s, key)
    ensures Position(s, key, id).Some? <==> id in ToMap(s, key)
    ensures Position(s, key, id).Some? ==> ToMap(s, key)[id] == s[Position(s, key, id).value]
  {
    hide ToMap;
    ToMapRepresents(s, key);
  }

  lemma PushRefines<T>(s: seq<T>, key: T -> Uuid, x: T)
    requires Unique(s, key) && key(x) !in ToMap(s, key)
    ensures Unique(s + [x], key) && ToMap(s + [x], key) == ToMap(s, key)[key(x) := x]
  {
    ToMapRepresents(s, key);
    assert (s + [x])[..|s|] == s;
  }

  function Without<T>(s: seq<T>, k: nat): seq<T>
    requires k < |s|
  {
    s[..k] + s[k + 1..]
  }

  /** Where the elements of a shortened list came from, and where those of the list went. */
  lemma WithoutAt<T>(s: seq<T>, k: nat)
    requires k < |s|
    ensures |Without(s, k)| == |s| - 1
    ensures forall i :: 0 <= i < |s| - 1 ==> Without(s, k)[i] == s[if i < k then i else i + 1]
    ensures forall i :: 0 <= i < |s| && i != k ==> s[i] in Without(s, k)
  {
    forall i | 0 <= i < |s| && i != k ensures s[i] in Without(s, k) {
      assert s[i] == Without(s, k)[if i < k then i else i - 1];
    }
  }

  lemma UniqueWithout<T>(s: seq<T>, key: T -> Uuid, k: nat)
    requires Unique(s, key) && k < |s|
    ensures Unique(Without(s, k), key)
    ensures forall i :: 0 <= i < |s| - 1 ==> key(Without(s, k)[i]) != key(s[k])
  {
    hide Without;
    WithoutAt(s, k);
  }

  lemma RemoveRefines<T>(s: seq<T>, key: T -> Uuid, k: nat)
    requires Unique(s, key) && k < |s|
    ensures Unique(Without(s, k), key) && ToMap(Without(s, k), key) == ToMap(s, key) - {key(s[k])}
  {
    hide ToMap, Without;
    ToMapRepresents(s, key);
    WithoutAt(s, k);
    UniqueWithout(s, key, k);
    var t := Without(s, k);
    var m := ToMap(s, key) - {key(s[k])};
    forall id | id in m ensures HasId(t, key, id) {
      var i :| 0 <= i < |s| && key(s[i]) == id;
      assert s[i] in t;
      var j :| 0 <= j < |t| && t[j] == s[i];
    }
    MapOf(t, key, m);
  }

  lemma UpdateRefines<T>(s: seq<T>, key: T -> Uuid, k: nat, x: T)
    requires Unique(s, key) && k < |s| && (key(x) == key(s[k]) || key(x) !in ToMap(s, key))
    ensures Unique(s[k := x], key) && ToMap(s[k := x], key) == (ToMap(s, key) - {key(s[k])})[key(x) := x]
  {
    hide ToMap;
    ToMapRepresents(s, key);
    var t := s[k := x];
    var m := (ToMap(s, key) - {key(s[k])})[key(x) := x];
    forall id | id in m ensures HasId(t, key, id) {
      if id == key(x) { assert t[k] == x; } else {
        var i :| 0 <= i < |s| && key(s[i]) == id;
        assert t[i] == s[i];
      }
    }
    MapOf(t, key, m);
  }

  lemma PermutationRepresents<T>(s: seq<T>, t: seq<T>, key: T -> Uuid, m: map<Uuid, T>)
    requires multiset(s) == multiset(t) && Represents(t, key, m)
    ensures Represents(s, key, m)
  {
    forall i | 0 <= i < |s| ensures key(s[i]) in m && m[key(s[i])] == s[i] {
      assert s[i] in multiset(t);
      var j :| 0 <= j < |t| && t[j] == s[i];
    }
    forall id | id in m ensures HasId(s, key, id) {
      var j :| 0 <= j < |t| && key(t[j]) == id;
      assert t[j] in multiset(s);
      var i :| 0 <= i < |s| && s[i] == t[j];
    }
  }

  /** Lists with unique ids that stand for the same map are permutations of each other. */
  lemma {:induction false} SameMapPermutation<T>(s: seq<T>, t: seq<T>, key: T -> Uuid)
    requires Unique(s, key) && Unique(t, key) && ToMap(s, key) == ToMap(t, key)
    ensures multiset(s) == multiset(t)
    decreases |s|
  {
    hide ToMap;
    ToMapRepresents(s, key);
    ToMapRepresents(t, key);
    if s == [] {
      assert t == [] || HasId(s, key, key(t[0]));
    } else {
      var id := key(s[0]);
      var k :| 0 <= k < |t| && key(t[k]) == id;
      RemoveRefines(s, key, 0);
      RemoveRefines(t, key, k);
      assert Without(s, 0) == s[1..];
      SameMapPermutation(s[1..], Without(t, k), key);
      MultisetWithout(s, 0);
      MultisetWithout(t, k);
    }
  }

  lemma MultisetWithout<T>(s: seq<T>, k: nat)
    requires k < |s|
    ensures multiset(s) == multiset(Without(s, k)) + multiset{s[k]}
  {
    assert s == s[..k] + [s[k]] + s[k + 1..];
  }

  /** Two lists with unique ids stand for the same map exactly when they are permutations of each other. */
  lemma SameMapIffPermutation<T>(s: seq<T>, t: seq<T>, key: T -> Uuid)
    requires Unique(s, key) && Unique(t, key)
    ensures ToMap(s, key) == ToMap(t, key) <==> multiset(s) == multiset(t)
  {
    hide ToMap;
    if ToMap(s, key) == ToMap(t, key) {
      SameMapPermutation(s, t, key);
    } else if multiset(s) == multiset(t) {
      ToMapRepresents(t, key);
      PermutationRepresents(s, t, key, ToMap(t, key));
      MapOf(s, key, ToMap(t, key));
    }
  }
}
