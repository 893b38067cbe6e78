/** The shared attribute schema (`mapnik::context`): an append-only map from attribute
    name to the slot that the name's value occupies in every feature built on it. */
module Schema {
  import opened KeyOrder

  type Mapping = map<string, nat>

  /** The slots in use are below the number of names, and no two names share a slot. */
  ghost predicate Dense(m: Mapping)
  {
    && (forall k :: k in m ==> m[k] < |m|)
    && (forall k, j :: k in m && j in m && k != j ==> m[k] != m[j])
  }

  /** The slot numbers 0 .. n-1. */
  ghost function Range(n: nat): set<nat>
  {
    if n == 0 then {} else Range(n - 1) + {n - 1}
  }

  /** The mapping after `std::map::insert(make_pair(name, size()))`: the size is taken
      before the insertion, and an existing entry is never overwritten. */
  function Pushed(m: Mapping, name: string): (r: Mapping)
    ensures name in r && m.Keys <= r.Keys
    ensures forall k :: k in m ==> r[k] == m[k]
    ensures name in m ==> r == m
    ensures name !in m ==> r.Keys == m.Keys + {name} && r[name] == |m| && |r| == |m| + 1
  {
    if name in m then m else m[name := |m|]
  }

  /** Every push keeps the slots dense. */
  lemma PushKeepsDense(m: Mapping, name: string)
    requires Dense(m)
    ensures Dense(Pushed(m, name))
  {
  }

  lemma {:induction false} RangeSpec(n: nat)
    ensures |Range(n)| == n
    ensures forall i: nat :: i in Range(n) <==> i < n
  {
    if n > 0 {
      RangeSpec(n - 1);
    }
  }

  lemma {:induction false} DistinctSlotCount(m: Mapping)
    requires forall k, j :: k in m && j in m && k != j ==> m[k] != m[j]
    ensures |m.Values| == |m|
    decreases |m|
  {
    if |m| == 0 {
      assert m == map[];
    } else {
      var k :| k in m;
      var rest := m - {k};
      forall v ensures v in rest.Values <==> v in m.Values - {m[k]} {
        if v in rest.Values {
          var j :| j in rest && rest[j] == v;
          assert j in m && m[j] == v;
        }
        if v in m.Values - {m[k]} {
          var j :| j in m && m[j] == v;
          assert j in rest && rest[j] == v;
        }
      }
      assert rest.Values == m.Values - {m[k]};
      DistinctSlotCount(rest);
    }
  }

  /** In a dense mapping the slots in use are exactly 0 .. size-1, each used by one name. */
  lemma SlotsAreRange(m: Mapping)
    requires Dense(m)
    ensures m.Values == Range(|m|)
  {
    DistinctSlotCount(m);
    RangeSpec(|m|);
    var vs, rs := m.Values, Range(|m|);
    assert vs <= rs;
    assert rs == vs + (rs - vs);
    assert |rs - vs| == 0;
  }

  lemma EveryKeyListed(m: Mapping, ks: seq<string>, r: seq<(string, nat)>)
    requires forall k :: k in m ==> k in ks
    requires |r| == |ks| && forall i :: 0 <= i < |r| ==> r[i].0 == ks[i]
    ensures forall k :: k in m ==> exists i :: 0 <= i < |r| && r[i].0 == k
  {
    forall k | k in m ensures exists i :: 0 <= i < |r| && r[i].0 == k {
      var i :| 0 <= i < |ks| && ks[i] == k;
      assert r[i].0 == k;
    }
  }

  /** The schema object shared by every feature built on it. */
  class Context {
    var mapping: Mapping

    ghost predicate Valid()
      reads this
    {
      Dense(mapping)
    }

    constructor ()
      ensures Valid() && mapping == map[]
    {
      mapping := map[];
    }

    /** Registers `name` at the next free slot unless it is already registered. */
    method Push(name: string)
      requires Valid()
      modifies this
      ensures Valid()
      ensures mapping == Pushed(old(mapping), name)
    {
      PushKeepsDense(mapping, name);
      mapping := Pushed(mapping, name);
    }

    /** The number of registered names. */
    function Size(): (n: nat)
      reads this
      ensures n == |mapping|
    {
      |mapping|
    }

    /** The (name, slot) pairs from `begin()` to `end()`: every registered name once, in
        key order rather than registration order, each with its own slot. */
    ghost function Entries(): (r: seq<(string, nat)>)
      reads this
      ensures |r| == |mapping|
      ensures forall i :: 0 <= i < |r| ==> r[i].0 in mapping && r[i].1 == mapping[r[i].0]
      ensures forall k :: k in mapping ==> exists i :: 0 <= i < |r| && r[i].0 == k
      ensures forall i, j :: 0 <= i < j < |r| ==> Below(r[i].0, r[j].0)
    {
      var m := mapping;
      var ks := SortedKeys(m.Keys);
      SortedKeysIncreasing(m.Keys);
      assert forall i :: 0 <= i < |ks| ==> ks[i] in m;
      var r := seq(|ks|, i requires 0 <= i < |ks| => (ks[i], m[ks[i]]));
      EveryKeyListed(m, ks, r);
      r
    }
  }
}
