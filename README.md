# Mapnik feature record, modelled in Dafny

This project models the in-memory feature record of the Mapnik map renderer
(`include/mapnik/feature.hpp`). It has two parts.

- **`context`** is the schema that many features share. It maps each attribute name to a
  slot. `push(name)` registers a name at slot `size()`. Because it uses
  `std::map::insert`, pushing a name that is already registered changes nothing.
  Traversal from `begin()` to `end()` visits the names in `std::string` order, not in
  registration order.
- **`feature_impl`** is the record itself. It holds an identifier, a reference to the
  shared context, a value vector sized from the context when the record is built, an
  ordered list of geometries and an optional raster. `put` and `get` look a name up in the
  context. They succeed only when the name is registered **and** its slot lies inside the
  record's vector; otherwise they throw `std::out_of_range("Key doesn't exist")`.
  `envelope()` folds the geometries' boxes into one box. `to_string()` lists every
  registered name with the value in its slot.

Because the context is shared and can keep growing, `has_key(k)` can be true while
`get(k)` and `put(k, v)` throw. The vector keeps the length it had at construction.

Files and modules:

- `wrappers.dfy` (`Wrappers`): `Option`, `Result` and `Outcome`. These stand for the
  C++ exceptions and nullable shared pointers.
- `key_order.dfy` (`KeyOrder`): `Below` is `std::string`'s `operator<`. `SortedKeys` is
  the order in which a `std::map` keyed by strings is traversed.
- `schema.dfy` (`Schema`):
  - the class `Context`, a `map<string, nat>` field updated by `Push`;
  - the pure mapping update `Pushed`;
  - the invariant `Dense`: every slot is below the size, and no two names share a slot.
- `geometry.dfy` (`Geometry`):
  - `Box`, with `Init`, `ExpandToInclude` and the default box;
  - a geometry, seen only through its envelope;
  - the fold `EnvelopeOf`.
- `feature.dfy` (`Features`):
  - the class `Feature`. The value vector is a fixed-size `array<Value>`, written in place
    by `Put`. The geometries are a `seq` that `AddGeometry` extends.
  - the pure specifications `Lookup`, `Store` and `Describe`, with lemmas relating them.
- `scenarios.dfy` (`Scenarios`): client methods that build contexts and records. They show
  what callers can conclude from the contracts alone.

The accessors `Context.Size`, `Feature.Id`, `Feature.Size`, `Feature.NumGeometries`,
`Feature.GetGeometry` and `Feature.GetRaster` each read one field. The constructors and
mutators state their effect through them. `Feature.Size` reads only the array's length,
which never changes, so no later `Push` can change it.

Behaviour that may surprise a reader, as the code does it:

- Re-registering a name keeps the name's first slot and does not grow the context.
  `std::map::insert` never overwrites an entry.
- Traversal of the context, and therefore `to_string()`, goes in key order, not in
  registration order.
- `get_geometry` does not check its index, and `to_string` reads `data_` without a bounds
  check. In the model both take a precondition instead of an error result.

## Model

| member | source | states |
|---|---|---|
| KeyOrder.Below | include/mapnik/feature.hpp:50-51 | the comparator of the schema's `std::map<std::string, std::size_t>`: first differing character decides, a proper prefix sorts first; `BelowIsLexicographic` proves it equal to that definition |
| KeyOrder.BelowIsLexicographic | include/mapnik/feature.hpp:50-51 | `Below(a, b)` holds exactly when `a` is a proper prefix of `b`, or `a` has the smaller character at the first position where they differ |
| KeyOrder.BelowIrreflexive | include/mapnik/feature.hpp:50-51 | no name sorts before itself |
| KeyOrder.BelowAsymmetric | include/mapnik/feature.hpp:50-51 | if a sorts before b, b does not sort before a |
| KeyOrder.BelowTransitive | include/mapnik/feature.hpp:50-51 | the key order is transitive |
| KeyOrder.BelowTotal | include/mapnik/feature.hpp:50-51 | any two different names are ordered one way or the other, so the map's key order is a strict total order |
| KeyOrder.LeastExists | include/mapnik/feature.hpp:77-78 | every non-empty set of names has a first name in key order (`begin()` of a non-empty map exists) |
| KeyOrder.LeastUnique | include/mapnik/feature.hpp:77-78 | that first name is unique |
| KeyOrder.Least | include/mapnik/feature.hpp:77 | yields the name that sorts before every other name of the set |
| KeyOrder.SortedKeys | include/mapnik/feature.hpp:77-78 | the traversal lists exactly the names of the set, as many as there are names |
| KeyOrder.SortedKeysIncreasing | include/mapnik/feature.hpp:77-78 | the traversal goes in strictly increasing key order |
| KeyOrder.SortedKeysUnfold | include/mapnik/feature.hpp:77-78 | the traversal starts with the least name and continues with the traversal of the rest |
| Schema.Pushed | include/mapnik/feature.hpp:72-75 | a new name gets slot = old size and the size grows by one; an existing name leaves the mapping unchanged; no existing entry is ever reassigned |
| Schema.PushKeepsDense | include/mapnik/feature.hpp:72-76 | every push keeps the slots below the size and pairwise distinct |
| Schema.SlotsAreRange | include/mapnik/feature.hpp:74-76 | in a dense mapping the slots in use are exactly 0 .. size-1, one per name |
| Schema.Context.constructor | include/mapnik/feature.hpp:69-70 | a new context is empty and dense |
| Schema.Context.Push | include/mapnik/feature.hpp:72-75 | the mapping becomes `Pushed(old mapping, name)` and stays dense |
| Schema.Context.Size | include/mapnik/feature.hpp:76 | the number of registered names, read from the mapping |
| Schema.Context.Entries | include/mapnik/feature.hpp:77-78 | `begin()`..`end()` yields each registered name once, with its own slot, in strictly increasing key order |
| Geometry.DefaultBox | include/mapnik/feature.hpp:183 | the box `envelope()` starts from: maxima below minima, so it is empty and not a point at the origin |
| Geometry.Init | include/mapnik/feature.hpp:189-190 | the initialised box is proper and has the given corners, whichever way round they were given |
| Geometry.ExpandToInclude | include/mapnik/feature.hpp:194 | the expanded box contains both boxes, and each of its bounds is one of the two boxes' bounds |
| Geometry.EnvelopeIsUnion | include/mapnik/feature.hpp:181-197 | when the first geometry's box is proper (later ones may be empty), the result contains every box and its minx, miny, maxx and maxy are the least and greatest bounds, each attained by some geometry |
| Geometry.EmptyFirstBoxStretches | include/mapnik/feature.hpp:187-194 | an empty first box is normalised by `init` rather than skipped: an empty geometry followed by (2,2)-(3,3) gives (-1,-1)-(3,3) |
| Geometry.EnvelopeOf | include/mapnik/feature.hpp:181-197 | the fold of the geometries' boxes: a proper box when there is a geometry, and the default box exactly when there is none |
| Features.Lookup | include/mapnik/feature.hpp:135-144 | `get` succeeds iff the name is registered with a slot below the vector's length, then yields that slot's value; otherwise `out_of_range("Key doesn't exist")` |
| Features.Store | include/mapnik/feature.hpp:118-128 | `put` succeeds under the same condition; the new vector has the same length, the new value in the name's slot and every other slot unchanged; otherwise `out_of_range("Key doesn't exist")` |
| Features.StoreFailsIffLookupFails | include/mapnik/feature.hpp:118-144 | `put` and `get` throw on exactly the same keys, with the same `out_of_range` error |
| Features.StoreThenLookup | include/mapnik/feature.hpp:118-144 | after a successful `put(k, v)`, `get(k)` returns `v` and the vector keeps its length |
| Features.StoreKeepsOtherKeys | include/mapnik/feature.hpp:118-128 | on a dense schema a `put` leaves every other name's value unchanged |
| Features.BuiltAfterRegistration | include/mapnik/feature.hpp:95-144 | on a record built after all registrations, `get` succeeds iff the name is registered |
| Features.LateRegistration | include/mapnik/feature.hpp:95-144 | a name pushed after construction is in the schema, yet `get` and `put` throw for it, and the earlier names read as before |
| Features.Attributes | include/mapnik/feature.hpp:224-229 | one attribute line per listed name |
| Features.Describe | include/mapnik/feature.hpp:220-232 | the description has one line per registered name plus the opening and closing lines |
| Features.DescribeSpec | include/mapnik/feature.hpp:220-232 | line i+1 shows the i-th name of the key-order traversal and the value in that name's slot |
| Features.DescribeInKeyOrder | include/mapnik/feature.hpp:220-232 | every registered name has a line with its slot's value, and the lines come in strictly increasing name order |
| Features.Feature.constructor | include/mapnik/feature.hpp:95-99 | `id()` is the given id, the record's size is the context's size at that moment, every value is null, and there are no geometries and no raster |
| Features.Feature.Id | include/mapnik/feature.hpp:101 | the identifier field |
| Features.Feature.SetId | include/mapnik/feature.hpp:101-103 | afterwards `id()` is the new id; only the id field may change |
| Features.Feature.Size | include/mapnik/feature.hpp:146-149 | the value vector's length; it reads no mutable state, so a later `Push` on the shared context cannot change it |
| Features.Feature.HasKey | include/mapnik/feature.hpp:130-133 | true iff the context has the name, whatever the record's size; true whenever `get` would succeed |
| Features.Feature.Put | include/mapnik/feature.hpp:118-128 | succeeds iff the name is registered with a slot below the record's size; on success the vector is `Store`'s result, on failure it throws `out_of_range` and nothing changes; only the value vector may change |
| Features.Feature.PutAs | include/mapnik/feature.hpp:105-116 | the templated overload: same condition and effect, storing the converted value |
| Features.Feature.Get | include/mapnik/feature.hpp:135-144 | returns what `Lookup` specifies: the slot's value, or `out_of_range` exactly when `put` would throw |
| Features.Feature.AddGeometry | include/mapnik/feature.hpp:161-179 | the geometry count grows by one, the last geometry is the new one, earlier geometries are unchanged; only the geometry list may change |
| Features.Feature.NumGeometries | include/mapnik/feature.hpp:166-169 | the length of the geometry list |
| Features.Feature.GetGeometry | include/mapnik/feature.hpp:171-179 | the geometry at the given in-range index, in insertion order |
| Features.Feature.Envelope | include/mapnik/feature.hpp:181-198 | the loop computes `EnvelopeOf` of the geometries; with none it is the default box |
| Features.Feature.GetRaster | include/mapnik/feature.hpp:200-203 | the raster field, `None` until one is set |
| Features.Feature.SetRaster | include/mapnik/feature.hpp:200-208 | afterwards `get_raster()` is the new raster; only the raster field may change |
| Features.Feature.ToString | include/mapnik/feature.hpp:220-232 | the loop over the context yields `Describe` of the context and the record's values |
| Scenarios.DuplicateRegistration | include/mapnik/feature.hpp:72-76 | pushing "name", "pop", "name" leaves "name" at slot 0 and the size at 2 |
| Scenarios.LateRegistration | include/mapnik/feature.hpp:95-149 | after a late push, `has_key` is true, `get` throws, the record's size stays 1 and the context's grows to 2 |
| Scenarios.IndependentRecords | include/mapnik/feature.hpp:95-144 | writing an attribute of one record does not change another record built on the same context |
| Scenarios.ParisLines | include/mapnik/feature.hpp:220-232 | for the Paris record, the description lists "name" before "pop" although "pop" was registered first |
| Scenarios.Describing | include/mapnik/feature.hpp:220-232 | `to_string` of the populated record gives those lines, and `get("missing")` throws |
| Scenarios.TwoBoxes | include/mapnik/feature.hpp:181-197 | no geometry gives the default box; boxes (0,0)-(1,1) and (2,2)-(3,3) give (0,0)-(3,3) |

## Left out

- `utils/map2svg/map2svg.cpp` is not part of this model. It is a command-line program that parses options, loads a map from disk, renders SVG and prints it.
- `mapnik::value`, `geometry_type`, `box2d<double>` and `raster` are not part of this model. `Value` is a datatype with the variants null, boolean, integer, double and string. A geometry is only its own bounding box. A raster is an opaque handle. Coordinates are ordered reals, not IEEE doubles.
- Geometry.DefaultBox, Geometry.Init, Geometry.ExpandToInclude: box2d's source is not part of this model. The model assumes three behaviours of box2d: a default box with corners (0,0) and (-1,-1); `init` normalising its corners; and `expand_to_include` taking the outer bound on each side.
- `begin()`/`end()` of `feature_impl`, and `feature_kv_iterator` (lines 210-218): the iterator's source is not part of this model.
- The `boost::associative_property_map` base of `context` (lines 52-58, 69-70) is left out. It is a library wrapper, and writing through it would bypass `push`.
- `context()` and `paths()` (lines 151-159) are left out. They hand out the shared pointer and a mutable reference to the geometry list. The model has the field `ctx` but does not model aliasing through `paths()`.
- Reference counts of `shared_ptr`, ownership and deletion by `ptr_vector`, and `noncopyable` are not modelled.
- Features.Feature.ToString: stream formatting and `operator<<` (lines 220-247) are left out. The model keeps only the line structure: an opening line, a name-and-value line per name, and a closing line.
- Features.Feature.ToString: requires every slot of the context to lie inside the record's vector, because `to_string` reads `data_[slot]` unchecked. The model does not cover reads past the end.
- Geometry.EnvelopeIsUnion: states the union only when the first geometry's box is proper. When it is empty, `init` swaps its corners and the result takes in those corners too, for example (-1,-1) from a default box; `EmptyFirstBoxStretches` shows that case.
- Features.Feature.Get: returns a copy of the value. `get` returns `value_type const&` into `data_`, so a reference a caller keeps sees a later `put` to that slot; that aliasing is not modelled.
- Features.Feature.GetGeometry: requires the index to be in range, because `get_geometry` does not check its index. Both the const and the non-const overload are this one function, which returns the geometry by value. The non-const overload (lines 176-179) returns a mutable reference, through which a caller can change a stored geometry in place, and with it a later `envelope()`. That write path is not modelled, as with `paths()`.
- Features.Feature.NumGeometries: returns the unbounded count. `num_geometries()` converts the count to `unsigned`, which wraps above 2^32 - 1 geometries; that conversion is not modelled.
- Features.Feature.PutAs: the conversion `value(val)` is a parameter, a total function from the argument type to `Value`.
- KeyOrder.Below: compares characters by code point. `std::string` compares `char` as unsigned bytes. The two orders agree on strings of one-byte characters.
