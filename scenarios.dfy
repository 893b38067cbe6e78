/** Client code that drives the schema and the feature record the way a datasource does,
    and what it can rely on from their contracts alone. */
module Scenarios {
  import opened Wrappers
  import opened KeyOrder
  import opened Schema
  import opened Geometry
  import opened Features

  /** Registering a name twice keeps its first slot and does not grow the schema. */
  method DuplicateRegistration() returns (slot: nat, size: nat)
    ensures slot == 0 && size == 2
  {
    var ctx := new Context();
    ctx.Push("name");
    ctx.Push("pop");
    ctx.Push("name");
    slot := ctx.mapping["name"];
    size := ctx.Size();
  }

  /** A name registered after a record was built: `has_key` reports it, `get` throws,
      and the record keeps the size it was built with. */
  method LateRegistration() returns (hasKey: bool, got: Result<Value, Error>, size: nat, slots: nat)
    ensures hasKey && got == Failure(KeyMissing)
    ensures size == 1 && slots == 2
  {
    var ctx := new Context();
    ctx.Push("name");
    var f := new Feature(ctx, 1);
    ctx.Push("pop");
    hasKey := f.HasKey("pop");
    got := f.Get("pop");
    size := f.Size();
    slots := ctx.Size();
  }

  /** Two records on one schema have separate values. */
  method IndependentRecords() returns (first: Result<Value, Error>, second: Result<Value, Error>)
    ensures first == Success(UnicodeString("Paris")) && second == Success(Null)
  {
    var ctx := new Context();
    ctx.Push("name");
    var r1 := new Feature(ctx, 1);
    var r2 := new Feature(ctx, 2);
    var _ := r1.Put("name", UnicodeString("Paris"));
    first := r1.Get("name");
    second := r2.Get("name");
  }

  /** The record of a datasource with columns "pop" and "name", populated for Paris. */
  method ParisRecord() returns (f: Feature)
    ensures fresh(f.ctx) && fresh(f.data)
    ensures f.ctx.mapping == map["pop" := 0, "name" := 1]
    ensures f.data[..] == [Integer(2000000), UnicodeString("Paris")]
  {
    var ctx := new Context();
    ctx.Push("pop");
    ctx.Push("name");
    f := new Feature(ctx, 7);
    var _ := f.Put("name", UnicodeString("Paris"));
    var _ := f.Put("pop", Integer(2000000));
  }

  lemma ParisLines(m: Mapping, vals: seq<Value>)
    requires m == map["pop" := 0, "name" := 1]
    requires vals == [Integer(2000000), UnicodeString("Paris")]
    ensures Describe(m, vals) ==
      [Opening, Attribute("name", UnicodeString("Paris")), Attribute("pop", Integer(2000000)), Closing]
  {
    var names := m.Keys;
    assert names == {"name", "pop"};
    assert Below("name", "pop");
    SortedKeysUnfold(names, "name");
    assert names - {"name"} == {"pop"};
    SortedKeysUnfold({"pop"}, "pop");
    assert {"pop"} - {"pop"} == {};
    assert SortedKeys(names) == ["name", "pop"];
    assert ["name", "pop"][..1] == ["name"] && ["name"][..0] == [];
    assert Attributes(["name"], m, vals) == [Attribute("name", vals[1])];
    assert Attributes(["name", "pop"], m, vals) == [Attribute("name", vals[1]), Attribute("pop", vals[0])];
  }

  /** A populated record's description lists its attributes in name order, not in
      registration order; an unregistered name cannot be read. */
  method Describing() returns (lines: seq<Line>, missing: Result<Value, Error>)
    ensures lines == [Opening, Attribute("name", UnicodeString("Paris")), Attribute("pop", Integer(2000000)), Closing]
    ensures missing == Failure(KeyMissing)
  {
    var f := ParisRecord();
    lines := f.ToString();
    ParisLines(f.ctx.mapping, f.data[..]);
    missing := f.Get("missing");
  }

  /** No geometry gives the default box; boxes (0,0)-(1,1) and (2,2)-(3,3) give
      (0,0)-(3,3). */
  method TwoBoxes() returns (empty: Box, union: Box)
    ensures empty == DefaultBox()
    ensures union == Box(0.0, 0.0, 3.0, 3.0)
  {
    var ctx := new Context();
    var f := new Feature(ctx, 1);
    empty := f.Envelope();
    f.AddGeometry(Geometry(Box(0.0, 0.0, 1.0, 1.0)));
    f.AddGeometry(Geometry(Box(2.0, 2.0, 3.0, 3.0)));
    union := f.Envelope();
    assert f.geometries[..1] == [Geometry(Box(0.0, 0.0, 1.0, 1.0))];
  }
}
