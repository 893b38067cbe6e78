/** The feature record (`mapnik::feature_impl`): an identifier, a shared schema, a value
    vector sized from the schema when the record is built, an ordered list of owned
    geometries and an optional shared raster. */
module Features {
  import opened Wrappers
  import opened KeyOrder
  import opened Schema
  import opened Geometry

  /** The C++ `int` of the identifier. */
  newtype Int32 = x: int | -0x8000_0000 <= x < 0x8000_0000

  /** An attribute value (`mapnik::value`), of which only the variants matter here;
      a default-constructed value is `Null`. */
  datatype Value = Null | Boolean(b: bool) | Integer(i: int) | Double(d: real) | UnicodeString(s: string)

  /** A shared raster payload, known only by its identity. */
  datatype Raster = Raster(handle: nat)

  /** `std::out_of_range`, with its message. */
  datatype Error = OutOfRange(message: string)

  const KeyMissing := OutOfRange("Key doesn't exist")

  /** `key` is registered and its slot lies inside a value vector of length `n`:
      the one condition under which `put` and `get` succeed. */
  predicate Reachable(m: Mapping, n: nat, key: string)
  {
    key in m && m[key] < n
  }

  /** What `get(key)` yields on the schema `m` and the value vector `data`. */
  function Lookup(m: Mapping, data: seq<Value>, key: string): (r: Result<Value, Error>)
    ensures r.Success? <==> Reachable(m, |data|, key)
    ensures r.Success? ==> r.value == data[m[key]]
    ensures r.Failure? ==> r.error == KeyMissing
  {
    if Reachable(m, |data|, key) then Success(data[m[key]]) else Failure(KeyMissing)
  }

  /** The value vector after `put(key, v)`, or the error it throws. */
  function Store(m: Mapping, data: seq<Value>, key: string, v: Value): (r: Result<seq<Value>, Error>)
    ensures r.Success? <==> Reachable(m, |data|, key)
    ensures r.Success? ==> |r.value| == |data| && r.value[m[key]] == v
    ensures r.Success? ==> forall i :: 0 <= i < |data| && i != m[key] ==> r.value[i] == data[i]
    ensures r.Failure? ==> r.error == KeyMissing
  {
    if Reachable(m, |data|, key) then Success(data[m[key] := v]) else Failure(KeyMissing)
  }

  /** `put` and `get` fail on exactly the same keys. */
  lemma StoreFailsIffLookupFails(m: Mapping, data: seq<Value>, key: string, v: Value)
    ensures Store(m, data, key, v).Failure? <==> Lookup(m, data, key).Failure?
    ensures Store(m, data, key, v).Failure? ==> Store(m, data, key, v).error == KeyMissing
  {
  }

  /** After a successful `put(key, v)`, `get(key)` returns `v` and the vector keeps its
      length. */
  lemma StoreThenLookup(m: Mapping, data: seq<Value>, key: string, v: Value)
    requires Store(m, data, key, v).Success?
    ensures |Store(m, data, key, v).value| == |data|
    ensures Lookup(m, Store(m, data, key, v).value, key) == Success(v)
  {
  }

  /** A `put` leaves every other attribute as it was, because distinct names have
      distinct slots. */
  lemma StoreKeepsOtherKeys(m: Mapping, data: seq<Value>, key: string, v: Value, other: string)
    requires Dense(m)
    requires Store(m, data, key, v).Success? && other != key
    ensures Lookup(m, Store(m, data, key, v).value, other) == Lookup(m, data, other)
  {
  }

  /** On a record built after all names were registered, every registered name can be
      read and written, and no other name can. */
  lemma BuiltAfterRegistration(m: Mapping, data: seq<Value>)
    requires Dense(m) && |data| == |m|
    ensures forall k :: k in m <==> Lookup(m, data, k).Success?
  {
  }

  /** A name registered after the record was built is in the schema, yet the record can
      neither read nor write it; the names registered before are unaffected. */
  lemma LateRegistration(m: Mapping, data: seq<Value>, name: string, v: Value)
    requires Dense(m) && |data| == |m| && name !in m
    ensures name in Pushed(m, name)
    ensures Lookup(Pushed(m, name), data, name) == Failure(KeyMissing)
    ensures Store(Pushed(m, name), data, name, v) == Failure(KeyMissing)
    ensures forall k :: k in m ==> Lookup(Pushed(m, name), data, k) == Lookup(m, data, k)
  {
  }

  /** One line of `to_string()`'s output. */
  datatype Line = Opening | Attribute(name: string, value: Value) | Closing

  /** Every registered slot lies inside the value vector. */
  ghost predicate Covers(m: Mapping, n: nat)
  {
    forall k :: k in m ==> m[k] < n
  }

  /** The attribute lines for the names `ks`, in that order. */
  function Attributes(ks: seq<string>, m: Mapping, data: seq<Value>): (r: seq<Line>)
    requires forall i :: 0 <= i < |ks| ==> Reachable(m, |data|, ks[i])
    ensures |r| == |ks|
  {
    if ks == [] then []
    else
      var k := ks[|ks| - 1];
      assert Reachable(m, |data|, k);
      Attributes(ks[..|ks| - 1], m, data) + [Attribute(k, data[m[k]])]
  }

  lemma {:induction false} AttributesAt(ks: seq<string>, m: Mapping, data: seq<Value>, i: nat)
    requires forall j :: 0 <= j < |ks| ==> Reachable(m, |data|, ks[j])
    requires i < |ks|
    ensures Attributes(ks, m, data)[i] == Attribute(ks[i], data[m[ks[i]]])
  {
    var front := ks[..|ks| - 1];
    if i < |ks| - 1 {
      AttributesAt(front, m, data, i);
    }
  }

  lemma AttributesSnoc(ks: seq<string>, k: string, m: Mapping, data: seq<Value>)
    requires forall i :: 0 <= i < |ks| ==> Reachable(m, |data|, ks[i])
    requires Reachable(m, |data|, k)
    ensures forall i :: 0 <= i < |ks + [k]| ==> Reachable(m, |data|, (ks + [k])[i])
    ensures Attributes(ks + [k], m, data) == Attributes(ks, m, data) + [Attribute(k, data[m[k]])]
  {
    assert (ks + [k])[..|ks|] == ks;
  }

  /** Removing the least remaining name extends the visited prefix of the traversal. */
  lemma TraversalStep(all: set<string>, rest: set<string>, done: seq<string>, k: string)
    requires SortedKeys(all) == done + SortedKeys(rest)
    requires IsLeast(k, rest)
    ensures SortedKeys(all) == (done + [k]) + SortedKeys(rest - {k})
  {
    SortedKeysUnfold(rest, k);
    assert done + ([k] + SortedKeys(rest - {k})) == (done + [k]) + SortedKeys(rest - {k});
  }

  /** The whole of `to_string()`: an opening line, one line per registered name in the
      schema's key order, and a closing line. */
  ghost function Describe(m: Mapping, data: seq<Value>): (r: seq<Line>)
    requires Covers(m, |data|)
    ensures |r| == |m| + 2
  {
    [Opening] + Attributes(SortedKeys(m.Keys), m, data) + [Closing]
  }

  /** `to_string()` is an opening line, then for the i-th name of the schema's traversal
      the line showing that name and the value in its slot, then a closing line. */
  lemma DescribeSpec(m: Mapping, data: seq<Value>)
    requires Covers(m, |data|)
    ensures Describe(m, data)[0] == Opening && Describe(m, data)[|m| + 1] == Closing
    ensures forall i :: 0 <= i < |m| ==>
      var k := SortedKeys(m.Keys)[i];
      k in m && Describe(m, data)[i + 1] == Attribute(k, data[m[k]])
  {
    var ks := SortedKeys(m.Keys);
    var attrs := Attributes(ks, m, data);
    forall i | 0 <= i < |ks| ensures attrs[i] == Attribute(ks[i], data[m[ks[i]]]) {
      AttributesAt(ks, m, data, i);
    }
  }

  /** Hence every registered name has exactly one line, and the lines come in strictly
      increasing name order, not in registration order. */
  lemma DescribeInKeyOrder(m: Mapping, data: seq<Value>)
    requires Covers(m, |data|)
    ensures forall i :: 1 <= i <= |m| ==> Describe(m, data)[i].Attribute?
    ensures forall i, j :: 1 <= i < j <= |m| ==> Below(Describe(m, data)[i].name, Describe(m, data)[j].name)
    ensures forall k :: k in m ==> exists i :: 1 <= i <= |m| && Describe(m, data)[i] == Attribute(k, data[m[k]])
  {
    var ks := SortedKeys(m.Keys);
    var d := Describe(m, data);
    SortedKeysIncreasing(m.Keys);
    DescribeSpec(m, data);
    forall i, j | 1 <= i < j <= |m| ensures d[i].Attribute? && d[j].Attribute? && Below(d[i].name, d[j].name) {
      assert d[i] == Attribute(ks[i - 1], data[m[ks[i - 1]]]);
      assert d[j] == Attribute(ks[j - 1], data[m[ks[j - 1]]]);
    }
    forall k | k in m ensures exists i :: 1 <= i <= |m| && d[i] == Attribute(k, data[m[k]]) {
      assert k in ks;
      var j :| 0 <= j < |ks| && ks[j] == k;
      assert d[j + 1] == Attribute(k, data[m[k]]);
    }
  }

  class Feature {
    var id: Int32
    const ctx: Context
    const data: array<Value>
    var geometries: seq<Geometry>
    var raster: Option<Raster>

    /** Builds a record against `ctx` with one null value per name registered so far. */
    constructor (ctx: Context, id: Int32)
      ensures this.ctx == ctx && Id() == id
      ensures fresh(data) && Size() == ctx.Size()
      ensures forall i :: 0 <= i < data.Length ==> data[i] == Null
      ensures geometries == [] && GetRaster() == None
    {
      this.id := id;
      this.ctx := ctx;
      data := new Value[|ctx.mapping|](_ => Null);
      geometries := [];
      raster := None;
    }

    function Id(): (r: Int32)
      reads this
      ensures r == id
    {
      id
    }

    method SetId(id: Int32)
      modifies this`id
      ensures Id() == id
    {
      this.id := id;
    }

    /** The record's number of values, fixed when it was built: it reads no mutable
        state, so no later `Push` on the shared context can change it. */
    function Size(): (n: nat)
      ensures n == data.Length
    {
      data.Length
    }

    /** True iff the schema has `key`, whether or not the record has a slot for it. */
    function HasKey(key: string): (b: bool)
      reads this, ctx, data
      ensures b <==> key in ctx.mapping
      ensures Lookup(ctx.mapping, data[..], key).Success? ==> b
    {
      key in ctx.mapping
    }

    /** `put(key, val)`: writes `val` into the key's slot, or throws and changes nothing. */
    method Put(key: string, val: Value) returns (r: Outcome<Error>)
      modifies data
      ensures r.Pass? <==> Reachable(ctx.mapping, Size(), key)
      ensures r.Pass? ==> Store(ctx.mapping, old(data[..]), key, val) == Success(data[..])
      ensures r.Fail? ==> r.error == KeyMissing && data[..] == old(data[..])
    {
      if key in ctx.mapping && ctx.mapping[key] < data.Length {
        data[ctx.mapping[key]] := val;
        r := Pass;
      } else {
        r := Fail(KeyMissing);
      }
    }

    /** The templated `put`: converts `val` to a value and stores it as `Put` does. */
    method PutAs<T>(key: string, val: T, convert: T -> Value) returns (r: Outcome<Error>)
      modifies data
      ensures r.Pass? <==> Reachable(ctx.mapping, Size(), key)
      ensures r.Pass? ==> Store(ctx.mapping, old(data[..]), key, convert(val)) == Success(data[..])
      ensures r.Fail? ==> r.error == KeyMissing && data[..] == old(data[..])
    {
      r := Put(key, convert(val));
    }

    /** `get(key)`: the value in the key's slot, or the error `put` would throw. */
    method Get(key: string) returns (r: Result<Value, Error>)
      ensures r == Lookup(ctx.mapping, data[..], key)
    {
      if key in ctx.mapping && ctx.mapping[key] < data.Length {
        r := Success(data[ctx.mapping[key]]);
      } else {
        r := Failure(KeyMissing);
      }
    }

    function NumGeometries(): (n: nat)
      reads this
      ensures n == |geometries|
    {
      |geometries|
    }

    function GetGeometry(index: nat): (g: Geometry)
      reads this
      requires index < NumGeometries()
      ensures g == geometries[index] && g in geometries
    {
      geometries[index]
    }

    /** Appends `geom` to the record's geometries. */
    method AddGeometry(geom: Geometry)
      modifies this`geometries
      ensures geometries == old(geometries) + [geom]
      ensures NumGeometries() == old(NumGeometries()) + 1
      ensures GetGeometry(NumGeometries() - 1) == geom
      ensures forall i :: 0 <= i < old(NumGeometries()) ==> GetGeometry(i) == old(GetGeometry(i))
    {
      geometries := geometries + [geom];
    }

    /** `envelope()`: the union box of the geometries, or the default box without any. */
    method Envelope() returns (result: Box)
      ensures result == EnvelopeOf(geometries)
      ensures NumGeometries() == 0 ==> result == DefaultBox()
    {
      result := DefaultBox();
      for i := 0 to NumGeometries()
        invariant result == EnvelopeOf(geometries[..i])
      {
        var geom := GetGeometry(i);
        if i == 0 {
          var box := geom.Envelope();
          result := Init(box.minx, box.miny, box.maxx, box.maxy);
        } else {
          result := ExpandToInclude(result, geom.Envelope());
        }
        assert geometries[..i + 1][..i] == geometries[..i];
      }
      assert geometries[..|geometries|] == geometries;
    }

    function GetRaster(): (r: Option<Raster>)
      reads this
      ensures r == raster
    {
      raster
    }

    method SetRaster(raster: Option<Raster>)
      modifies this`raster
      ensures GetRaster() == raster
    {
      this.raster := raster;
    }

    /** `to_string()`: walks the schema from `begin()` to `end()` and emits one line per
        name. It reads `data_[slot]` unchecked, so every slot must be in range. */
    method ToString() returns (lines: seq<Line>)
      requires Covers(ctx.mapping, data.Length)
      ensures lines == Describe(ctx.mapping, data[..])
    {
      var m := ctx.mapping;
      ghost var vals := data[..];
      var rest := m.Keys;
      ghost var done: seq<string> := [];
      lines := [Opening];
      while rest != {}
        invariant rest <= m.Keys
        invariant SortedKeys(m.Keys) == done + SortedKeys(rest)
        invariant forall i :: 0 <= i < |done| ==> Reachable(m, |vals|, done[i])
        invariant lines == [Opening] + Attributes(done, m, vals)
        decreases |rest|
      {
        LeastExists(rest);
        var k :| k in rest && IsLeast(k, rest);
        TraversalStep(m.Keys, rest, done, k);
        AttributesSnoc(done, k, m, vals);
        lines := lines + [Attribute(k, data[m[k]])];
        done := done + [k];
        rest := rest - {k};
      }
      assert SortedKeys(rest) == [];
      assert done == SortedKeys(m.Keys);
      lines := lines + [Closing];
      assert lines == Describe(m, vals);
    }
  }
}
