/**
 * The metadata type explorer: friendly names for the types of a runtime's type
 * registry, and the resolved tree of a type's definition.
 *
 * `deriveTypeName` threads one `seen` set through a whole rendering: an id is
 * expanded the first time it is met and every later occurrence, sibling or
 * descendant, prints "Recursive#id". `resolveType` instead hands every child a copy
 * of its parent's set, so only an ancestor cuts the recursion off. Looking up an id
 * the registry does not hold throws; here that is `None`.
 */
module ViewMetadata {
  import opened Wrappers
  import opened Text

  datatype Field = Field(name: Option<string>, typeId: nat)

  datatype Variant = Variant(name: string, fields: seq<Field>)

  /** The definition kinds the explorer distinguishes; `Other` stands for every other
      kind (bit sequences, historic compat), carried with its JSON text. */
  datatype Def =
    | Composite(fields: seq<Field>)
    | VariantDef(variants: seq<Variant>)
    | Sequence(elem: nat)
    | Array(elem: nat, len: nat)
    | Tuple(elems: seq<nat>)
    | Compact(elem: nat)
    | Primitive(prim: string)
    | Other(json: string)

  /** A registry entry: the registry's own name for the type (`getName`), its path and
      its definition. */
  datatype SiType = SiType(name: Option<string>, path: seq<string>, def: Def)

  type Registry = map<nat, SiType>

  function FieldTypes(fields: seq<Field>): (ids: seq<nat>)
    ensures |ids| == |fields| && forall i :: 0 <= i < |fields| ==> ids[i] == fields[i].typeId
  {
    seq(|fields|, i requires 0 <= i < |fields| => fields[i].typeId)
  }

  /** The ids a definition refers to directly. */
  function Refs(def: Def): set<nat> {
    match def
    case Composite(fields) => set i | 0 <= i < |fields| :: fields[i].typeId
    case VariantDef(vs) => set i, k | 0 <= i < |vs| && 0 <= k < |vs[i].fields| :: vs[i].fields[k].typeId
    case Sequence(t) => {t}
    case Array(t, _) => {t}
    case Tuple(ts) => set i | 0 <= i < |ts| :: ts[i]
    case Compact(t) => {t}
    case Primitive(_) => {}
    case Other(_) => {}
  }

  /** Every id the registry's definitions refer to is in the registry. */
  ghost predicate Closed(reg: Registry) {
    forall id :: id in reg ==> Refs(reg[id].def) <= reg.Keys
  }

  function Marker(id: nat): string {
    "Recursive#" + NatToString(id)
  }

  /** `f.name || '_'`: a missing or empty field name shows as "_". */
  function FieldLabel(name: Option<string>): (shown: string)
    ensures name.None? || name.value == "" ==> shown == "_"
    ensures name.Some? && name.value != "" ==> shown == name.value
  {
    if name.Some? && name.value != "" then name.value else "_"
  }

  /** `getName(id)` is truthy: the registry holds a non-empty name for the type. */
  predicate HasName(t: SiType) {
    t.name.Some? && t.name.value != ""
  }

  // ---------------------------------------------------------------------------
  // Termination measure: the registry ids not yet seen

  lemma DiffShrinks(keys: set<nat>, seen: set<nat>, seen': set<nat>)
    requires seen <= seen'
    ensures |keys - seen'| <= |keys - seen|
  {
    var small, big := keys - seen', keys - seen;
    assert big == small + (big - small);
    assert small * (big - small) == {};
  }

  lemma DiffRemoves(keys: set<nat>, seen: set<nat>, id: nat)
    requires id in keys && id !in seen
    ensures |keys - (seen + {id})| == |keys - seen| - 1
  {
    assert keys - seen == (keys - (seen + {id})) + {id};
  }

  // ---------------------------------------------------------------------------
  // deriveTypeName / deriveAnonTypeName, with the shared set threaded through

  /** A name and the `seen` set as the rendering left it. */
  datatype Named = Named(name: string, seen: set<nat>)

  datatype NamesSeen = NamesSeen(names: seq<string>, seen: set<nat>)

  /**
   * `deriveTypeName(id, seen)`. A seen id prints as its marker; otherwise the id is
   * added to the set, and the registry's name, else the joined path, else the anonymous
   * rendering is used. The set only grows, by the id itself and ids of the registry.
   */
  function TypeName(reg: Registry, id: nat, seen: set<nat>): (r: Option<Named>)
    ensures r.Some? ==> seen + {id} <= r.value.seen <= seen + {id} + reg.Keys
    ensures r.None? ==> id !in seen
    ensures id in seen ==> r == Some(Named(Marker(id), seen))
    ensures id !in seen && id !in reg ==> r.None?
    ensures id !in seen && id in reg && HasName(reg[id]) ==>
      r == Some(Named(reg[id].name.value, seen + {id}))
    ensures id !in seen && id in reg && !HasName(reg[id]) && |reg[id].path| > 0 ==>
      r == Some(Named(Join(reg[id].path, "."), seen + {id}))
    decreases |reg.Keys - seen|, 4, 0
  {
    if id in seen then Some(Named(Marker(id), seen))
    else if id !in reg then None
    else
      var t := reg[id];
      var seen' := seen + {id};
      if HasName(t) then Some(Named(t.name.value, seen'))
      else if |t.path| > 0 then Some(Named(Join(t.path, "."), seen'))
      else
        DiffRemoves(reg.Keys, seen, id);
        AnonName(reg, t.def, seen')
  }

  /** `deriveAnonTypeName(def, seen)`: the rendering of an anonymous definition. */
  function AnonName(reg: Registry, def: Def, seen: set<nat>): (r: Option<Named>)
    ensures r.Some? ==> seen <= r.value.seen <= seen + reg.Keys
    decreases |reg.Keys - seen| + 1, 3, 0
  {
    match def
    case Composite(fields) => Enclose("{ ", Entries(fields, TypeNames(reg, FieldTypes(fields), seen)), "; ", " }")
    case VariantDef(vs) => Enclose("enum { ", VariantNames(reg, vs, seen), " | ", " }")
    case Sequence(t) => Wrap("Vec<", TypeName(reg, t, seen), ">")
    case Array(t, len) => Wrap("[ ", TypeName(reg, t, seen), "; " + NatToString(len) + " ]")
    case Tuple(ts) => Enclose("(", TypeNames(reg, ts, seen), ", ", ")")
    case Compact(t) => Wrap("Compact<", TypeName(reg, t, seen), ">")
    case Primitive(p) =>
      // an empty primitive name is falsy and falls through to the JSON text
      if p != "" then Some(Named(p, seen)) else Some(Named("{\"primitive\":\"\"}", seen))
    case Other(json) => Some(Named(json, seen))
  }

  /** `name: T` for each field of a composite. */
  function FieldEntries(fields: seq<Field>, names: seq<string>): (entries: seq<string>)
    requires |names| == |fields|
    ensures |entries| == |fields|
    ensures forall i :: 0 <= i < |fields| ==> entries[i] == FieldLabel(fields[i].name) + ": " + names[i]
  {
    seq(|fields|, i requires 0 <= i < |fields| => FieldLabel(fields[i].name) + ": " + names[i])
  }

  /** A child's name between `open` and `close`, or the child's failure. */
  function Wrap(open: string, n: Option<Named>, close: string): (r: Option<Named>)
    ensures r.Some? <==> n.Some?
    ensures r.Some? ==> r.value.seen == n.value.seen && r.value.name == open + n.value.name + close
  {
    match n
    case None => None
    case Some(n) => Some(Named(open + n.name + close, n.seen))
  }

  /** A list of names joined by `sep` between `open` and `close`, or the list's failure. */
  function Enclose(open: string, ns: Option<NamesSeen>, sep: string, close: string): (r: Option<Named>)
    ensures r.Some? <==> ns.Some?
    ensures r.Some? ==> r.value.seen == ns.value.seen && r.value.name == open + Join(ns.value.names, sep) + close
  {
    match ns
    case None => None
    case Some(ns) => Some(Named(open + Join(ns.names, sep) + close, ns.seen))
  }

  /** The `name: T` entries of a composite from the names of its field types. */
  function Entries(fields: seq<Field>, ns: Option<NamesSeen>): (r: Option<NamesSeen>)
    ensures r.Some? ==> ns.Some? && |ns.value.names| == |fields| && r.value.seen == ns.value.seen
    ensures r.Some? ==> r.value.names == FieldEntries(fields, ns.value.names)
  {
    match ns
    case None => None
    case Some(ns) =>
      if |ns.names| == |fields| then Some(NamesSeen(FieldEntries(fields, ns.names), ns.seen)) else None
  }

  /** `ids.map(t => deriveTypeName(t, seen))`: left to right, each call seeing the set
      the previous ones left behind. Every listed id ends up in the set. */
  function TypeNames(reg: Registry, ids: seq<nat>, seen: set<nat>): (r: Option<NamesSeen>)
    ensures r.Some? ==> |r.value.names| == |ids|
    ensures r.Some? ==> seen <= r.value.seen <= seen + reg.Keys
    ensures r.Some? ==> forall k :: 0 <= k < |ids| ==> ids[k] in r.value.seen
    decreases |reg.Keys - seen| + 1, 1, |ids|
  {
    if |ids| == 0 then Some(NamesSeen([], seen))
    else
      match TypeName(reg, ids[0], seen)
      case None => None
      case Some(first) =>
        DiffShrinks(reg.Keys, seen, first.seen);
        match TypeNames(reg, ids[1..], first.seen)
        case None => None
        case Some(rest) => Some(NamesSeen([first.name] + rest.names, rest.seen))
  }

  /** How one variant shows in an enum: its bare name when it has no fields, else its
      name followed by a parenthesised list. */
  predicate VariantEntry(v: Variant, entry: string) {
    if |v.fields| == 0 then entry == v.name
    else StartsWith(entry, v.name + "(") && entry[|entry| - 1] == ')'
  }

  /** `v.name + (v.fields.length ? `(${names.join(',')})` : '')`. */
  function EntryOf(v: Variant, names: seq<string>): (entry: string)
    ensures VariantEntry(v, entry)
  {
    if |v.fields| > 0 then
      var e := v.name + "(" + Join(names, ",") + ")";
      assert e[..|v.name| + 1] == v.name + "(";
      e
    else v.name
  }

  /** The `A(T,U)` entries of an enum, left to right; a variant without fields has no
      parentheses. */
  function VariantNames(reg: Registry, vs: seq<Variant>, seen: set<nat>): (r: Option<NamesSeen>)
    ensures r.Some? ==> |r.value.names| == |vs|
    ensures r.Some? ==> seen <= r.value.seen <= seen + reg.Keys
    decreases |reg.Keys - seen| + 1, 2, |vs|
  {
    if |vs| == 0 then Some(NamesSeen([], seen))
    else
      match TypeNames(reg, FieldTypes(vs[0].fields), seen)
      case None => None
      case Some(fs) =>
        var entry := EntryOf(vs[0], fs.names);
        DiffShrinks(reg.Keys, seen, fs.seen);
        match VariantNames(reg, vs[1..], fs.seen)
        case None => None
        case Some(rest) => Some(NamesSeen([entry] + rest.names, rest.seen))
  }

  /** How each kind of anonymous definition renders: `{ a: T; _: U }` for a composite,
      `enum { A(T,U) | B }` for a variant type, `Vec<T>`, `[ T; n ]`, `(T, U)` and
      `Compact<T>` around the names of the types referred to, a primitive by its own
      name, and any other kind as its JSON text. A child that cannot be named fails the
      whole rendering. */
  lemma AnonNameForms(reg: Registry, def: Def, seen: set<nat>)
    ensures def.Composite? ==>
      AnonName(reg, def, seen) == Enclose("{ ", Entries(def.fields, TypeNames(reg, FieldTypes(def.fields), seen)), "; ", " }")
    ensures def.VariantDef? ==>
      AnonName(reg, def, seen) == Enclose("enum { ", VariantNames(reg, def.variants, seen), " | ", " }")
    ensures def.Sequence? ==> AnonName(reg, def, seen) == Wrap("Vec<", TypeName(reg, def.elem, seen), ">")
    ensures def.Array? ==>
      AnonName(reg, def, seen) == Wrap("[ ", TypeName(reg, def.elem, seen), "; " + NatToString(def.len) + " ]")
    ensures def.Tuple? ==> AnonName(reg, def, seen) == Enclose("(", TypeNames(reg, def.elems, seen), ", ", ")")
    ensures def.Compact? ==> AnonName(reg, def, seen) == Wrap("Compact<", TypeName(reg, def.elem, seen), ">")
    ensures def.Primitive? && def.prim != "" ==> AnonName(reg, def, seen) == Some(Named(def.prim, seen))
    ensures def.Other? ==> AnonName(reg, def, seen) == Some(Named(def.json, seen))
  {
  }

  /** Each entry of an enum is its variant's bare name when the variant has no fields,
      and its name followed by a parenthesised list otherwise. */
  lemma {:induction false} VariantEntries(reg: Registry, vs: seq<Variant>, seen: set<nat>)
    requires VariantNames(reg, vs, seen).Some?
    ensures forall i :: 0 <= i < |vs| ==> VariantEntry(vs[i], VariantNames(reg, vs, seen).value.names[i])
    decreases |vs|
  {
    if |vs| > 0 {
      var fs := TypeNames(reg, FieldTypes(vs[0].fields), seen).value;
      VariantEntries(reg, vs[1..], fs.seen);
      var names := VariantNames(reg, vs, seen).value.names;
      forall i | 1 <= i < |vs| ensures VariantEntry(vs[i], names[i]) {
        assert vs[i] == vs[1..][i - 1];
      }
    }
  }

  /** Within one rendering, an id already seen or already met earlier in the same list
      prints as its marker: each id is expanded at most once. */
  lemma {:induction false} RepeatIsMarker(reg: Registry, ids: seq<nat>, seen: set<nat>, j: nat)
    requires TypeNames(reg, ids, seen).Some? && j < |ids|
    requires ids[j] in seen || ids[j] in ids[..j]
    ensures TypeNames(reg, ids, seen).value.names[j] == Marker(ids[j])
  {
    var first := TypeName(reg, ids[0], seen).value;
    if j > 0 {
      assert ids[1..][j - 1] == ids[j];
      if ids[j] !in seen && ids[j] != ids[0] {
        assert ids[j] in ids[1..][..j - 1] by {
          var k :| 0 <= k < j && ids[k] == ids[j];
          assert ids[1..][k - 1] == ids[k];
        }
      }
      RepeatIsMarker(reg, ids[1..], first.seen, j - 1);
    }
  }

  /** A registry with one anonymous primitive type, id 1. */
  function U8Registry(): Registry {
    map[1 := SiType(None, [], Primitive("u8"))]
  }

  /** The tuple `(u8, u8)` renders its second element as a marker although the type is
      not recursive: the first element left id 1 in the shared set. */
  lemma TupleRepeatShowsMarker()
    ensures TypeNames(U8Registry(), [1, 1], {}) == Some(NamesSeen(["u8", Marker(1)], {1}))
  {
    var reg := U8Registry();
    var empty: set<nat> := {};
    assert AnonName(reg, Primitive("u8"), {1}) == Some(Named("u8", {1}));
    assert 1 !in empty && empty + {1} == {1};
    assert TypeName(reg, 1, empty) == Some(Named("u8", {1}));
    assert TypeName(reg, 1, {1}) == Some(Named(Marker(1), {1}));
    assert [1, 1][1..] == [1] && [1][1..] == [];
    assert [Marker(1)] + [] == [Marker(1)] && ["u8"] + [Marker(1)] == ["u8", Marker(1)];
    assert TypeNames(reg, [], {1}) == Some(NamesSeen([], {1}));
    assert TypeNames(reg, [1], {1}) == Some(NamesSeen([Marker(1)], {1}));
    assert TypeNames(reg, [1, 1], empty) == Some(NamesSeen(["u8"] + [Marker(1)], {1}));
  }

  /** An unseen registered type with neither a registry name nor a path is rendered from
      its definition, with its own id already in the set. */
  lemma AnonymousTypeName(reg: Registry, id: nat, seen: set<nat>)
    requires id !in seen && id in reg && !HasName(reg[id]) && |reg[id].path| == 0
    ensures TypeName(reg, id, seen) == AnonName(reg, reg[id].def, seen + {id})
  {
  }

  /** The anonymous primitive of `U8Registry` is named by its definition. */
  lemma U8Name()
    ensures TypeName(U8Registry(), 1, {}) == Some(Named("u8", {1}))
  {
    var reg := U8Registry();
    var empty: set<nat> := {};
    assert AnonName(reg, Primitive("u8"), {1}) == Some(Named("u8", {1}));
    assert 1 !in empty && empty + {1} == {1};
  }

  /** `{ _: u8 }`: an unnamed field shows as "_". */
  lemma UnnamedFieldExample()
    ensures AnonName(U8Registry(), Composite([Field(None, 1)]), {}) == Some(Named("{ _: u8 }", {1}))
  {
    var reg := U8Registry();
    var empty: set<nat> := {};
    U8Name();
    assert FieldTypes([Field(None, 1)]) == [1];
    assert [1][1..] == [] && ["u8"] + [] == ["u8"];
    assert TypeNames(reg, [], {1}) == Some(NamesSeen([], {1}));
    assert TypeNames(reg, [1], empty) == Some(NamesSeen(["u8"], {1}));
    assert FieldLabel(None) + ": " + "u8" == "_: u8";
    var e := FieldEntries([Field(None, 1)], ["u8"]);
    assert |e| == 1 && e[0] == "_: u8";
    assert e == ["_: u8"];
    assert "{ " + Join(["_: u8"], "; ") + " }" == "{ _: u8 }";
  }

  /** `enum { A(u8) | B }`: a variant with fields lists them in parentheses, one without
      fields shows its bare name. */
  lemma EnumExample()
    ensures AnonName(U8Registry(), VariantDef([Variant("A", [Field(None, 1)]), Variant("B", [])]), {})
      == Some(Named("enum { A(u8) | B }", {1}))
  {
    var reg := U8Registry();
    var empty: set<nat> := {};
    var vs := [Variant("A", [Field(None, 1)]), Variant("B", [])];
    U8Name();
    assert FieldTypes(vs[0].fields) == [1] && FieldTypes(vs[1].fields) == [];
    assert [1][1..] == [] && ["u8"] + [] == ["u8"];
    assert TypeNames(reg, [], {1}) == Some(NamesSeen([], {1}));
    assert TypeNames(reg, [1], empty) == Some(NamesSeen(["u8"], {1}));
    assert vs[1..][1..] == [] && ["B"] + [] == ["B"] && ["A(u8)"] + ["B"] == ["A(u8)", "B"];
    assert EntryOf(vs[0], ["u8"]) == "A(u8)" && EntryOf(vs[1], []) == "B";
    assert VariantNames(reg, [], {1}) == Some(NamesSeen([], {1}));
    assert VariantNames(reg, vs[1..], {1}) == Some(NamesSeen(["B"], {1}));
    assert VariantNames(reg, vs, empty) == Some(NamesSeen(["A(u8)", "B"], {1}));
    assert Join(["A(u8)", "B"], " | ") == "A(u8) | B" by {
      assert ["A(u8)", "B"][1..] == ["B"];
    }
    assert "enum { " + "A(u8) | B" + " }" == "enum { A(u8) | B }";
  }

  /** `[ u8; 4 ]`: an array shows its element type and its length. */
  lemma ArrayExample()
    ensures AnonName(U8Registry(), Array(1, 4), {}) == Some(Named("[ u8; 4 ]", {1}))
  {
    U8Name();
    assert NatToString(4) == "4";
    assert "[ " + "u8" + ("; " + "4" + " ]") == "[ u8; 4 ]";
  }

  // ---------------------------------------------------------------------------
  // Totality: on a closed registry only an unknown top-level id throws

  lemma {:induction false} TypeNameTotal(reg: Registry, id: nat, seen: set<nat>)
    requires Closed(reg)
    ensures TypeName(reg, id, seen).Some? <==> id in seen || id in reg
    decreases |reg.Keys - seen|, 4, 0
  {
    if id !in seen && id in reg {
      var t := reg[id];
      if !(t.name.Some? && t.name.value != "") && |t.path| == 0 {
        DiffRemoves(reg.Keys, seen, id);
        AnonNameTotal(reg, t.def, seen + {id});
      }
    }
  }

  lemma {:induction false} AnonNameTotal(reg: Registry, def: Def, seen: set<nat>)
    requires Closed(reg) && Refs(def) <= reg.Keys
    ensures AnonName(reg, def, seen).Some?
    decreases |reg.Keys - seen| + 1, 3, 0
  {
    match def
    case Composite(fields) =>
      forall k | 0 <= k < |fields| ensures FieldTypes(fields)[k] in reg {
        assert fields[k].typeId in Refs(def);
      }
      TypeNamesTotal(reg, FieldTypes(fields), seen);
    case VariantDef(vs) =>
      forall i, k | 0 <= i < |vs| && 0 <= k < |vs[i].fields| ensures vs[i].fields[k].typeId in reg {
        assert vs[i].fields[k].typeId in Refs(def);
      }
      VariantNamesTotal(reg, vs, seen);
    case Sequence(t) => TypeNameTotal(reg, t, seen);
    case Array(t, _) => TypeNameTotal(reg, t, seen);
    case Tuple(ts) =>
      forall k | 0 <= k < |ts| ensures ts[k] in reg {
        assert ts[k] in Refs(def);
      }
      TypeNamesTotal(reg, ts, seen);
    case Compact(t) => TypeNameTotal(reg, t, seen);
    case Primitive(_) =>
    case Other(_) =>
  }

  lemma {:induction false} TypeNamesTotal(reg: Registry, ids: seq<nat>, seen: set<nat>)
    requires Closed(reg) && forall k :: 0 <= k < |ids| ==> ids[k] in reg
    ensures TypeNames(reg, ids, seen).Some?
    decreases |reg.Keys - seen| + 1, 1, |ids|
  {
    if |ids| > 0 {
      TypeNameTotal(reg, ids[0], seen);
      var first := TypeName(reg, ids[0], seen).value;
      DiffShrinks(reg.Keys, seen, first.seen);
      TypeNamesTotal(reg, ids[1..], first.seen);
    }
  }

  lemma {:induction false} VariantNamesTotal(reg: Registry, vs: seq<Variant>, seen: set<nat>)
    requires Closed(reg)
    requires forall i, k :: 0 <= i < |vs| && 0 <= k < |vs[i].fields| ==> vs[i].fields[k].typeId in reg
    ensures VariantNames(reg, vs, seen).Some?
    decreases |reg.Keys - seen| + 1, 2, |vs|
  {
    if |vs| > 0 {
      TypeNamesTotal(reg, FieldTypes(vs[0].fields), seen);
      var fs := TypeNames(reg, FieldTypes(vs[0].fields), seen).value;
      DiffShrinks(reg.Keys, seen, fs.seen);
      assert forall i, k :: 0 <= i < |vs[1..]| && 0 <= k < |vs[1..][i].fields| ==> vs[1..][i].fields[k].typeId in reg by {
        forall i, k | 0 <= i < |vs[1..]| && 0 <= k < |vs[1..][i].fields|
          ensures vs[1..][i].fields[k].typeId in reg
        {
          assert vs[1..][i] == vs[i + 1];
        }
      }
      VariantNamesTotal(reg, vs[1..], fs.seen);
    }
  }

  // ---------------------------------------------------------------------------
  // resolveType / resolveDef: every child gets a copy of its parent's set

  /** A resolved type: a revisited id resolves to its marker with an empty path and the
      empty definition `Cut`. */
  datatype Resolved = Resolved(id: nat, name: string, path: seq<string>, def: ResolvedDef)

  datatype ResolvedField = ResolvedField(name: Option<string>, ty: Resolved)

  datatype ResolvedVariant = ResolvedVariant(name: string, fields: seq<Resolved>)

  datatype ResolvedDef =
    | RComposite(fields: seq<ResolvedField>)
    | RVariant(variants: seq<ResolvedVariant>)
    | RSequence(elem: Resolved)
    | RArray(elem: Resolved, len: nat)
    | RTuple(elems: seq<Resolved>)
    | RCompact(elem: Resolved)
    | Unchanged(def: Def)
    | Cut

  /** The cut-off rule of a resolved tree: a node is cut exactly when its id is among
      `anc` (the initial set and its ancestors), a cut node carries the marker name and
      no path, and each child obeys the rule with this node's id added to `anc`. */
  ghost predicate CutAt(t: Resolved, anc: set<nat>)
    decreases t, 1
  {
    && (t.def.Cut? <==> t.id in anc)
    && (t.def.Cut? ==> t.name == Marker(t.id) && t.path == [])
    && DefCutAt(t.def, anc + {t.id})
  }

  ghost predicate DefCutAt(d: ResolvedDef, anc: set<nat>)
    decreases d, 0
  {
    match d
    case RComposite(fields) => forall i :: 0 <= i < |fields| ==> CutAt(fields[i].ty, anc)
    case RVariant(vs) => forall i :: 0 <= i < |vs| ==> AllCutAt(vs[i].fields, anc)
    case RSequence(e) => CutAt(e, anc)
    case RArray(e, _) => CutAt(e, anc)
    case RTuple(es) => AllCutAt(es, anc)
    case RCompact(e) => CutAt(e, anc)
    case Unchanged(_) => true
    case Cut => true
  }

  ghost predicate AllCutAt(ts: seq<Resolved>, anc: set<nat>)
    decreases ts, 2
  {
    forall i :: 0 <= i < |ts| ==> CutAt(ts[i], anc)
  }

  /** The resolved definition keeps the shape of the original: the same kind, field and
      variant names, array length, and children resolved from the ids referred to, in
      order; kinds the explorer does not recognise are returned unchanged. */
  ghost predicate Shape(def: Def, rd: ResolvedDef) {
    match def
    case Composite(fields) =>
      && rd.RComposite? && |rd.fields| == |fields|
      && forall i :: 0 <= i < |fields| ==>
           rd.fields[i].name == fields[i].name && rd.fields[i].ty.id == fields[i].typeId
    case VariantDef(vs) =>
      && rd.RVariant? && |rd.variants| == |vs|
      && forall i :: 0 <= i < |vs| ==>
           && rd.variants[i].name == vs[i].name
           && Ids(rd.variants[i].fields) == FieldTypes(vs[i].fields)
    case Sequence(t) => rd.RSequence? && rd.elem.id == t
    case Array(t, len) => rd.RArray? && rd.elem.id == t && rd.len == len
    case Tuple(ts) => rd.RTuple? && Ids(rd.elems) == ts
    case Compact(t) => rd.RCompact? && rd.elem.id == t
    case Primitive(_) => rd == Unchanged(def)
    case Other(_) => rd == Unchanged(def)
  }

  function Ids(ts: seq<Resolved>): (ids: seq<nat>)
    ensures |ids| == |ts| && forall i :: 0 <= i < |ts| ==> ids[i] == ts[i].id
  {
    seq(|ts|, i requires 0 <= i < |ts| => ts[i].id)
  }

  /**
   * `resolveType(id, seen)`. A seen id resolves to its marker; an unknown id throws;
   * otherwise the name is the joined path, else the anonymous rendering started from an
   * empty set, and the definition is resolved with `seen + {id}`. The tree obeys the
   * cut-off rule relative to `seen`.
   */
  function Resolve(reg: Registry, id: nat, seen: set<nat>): (r: Option<Resolved>)
    ensures r.Some? ==> r.value.id == id && CutAt(r.value, seen)
    decreases |reg.Keys - seen|, 4, 0
  {
    if id in seen then Some(Resolved(id, Marker(id), [], Cut))
    else if id !in reg then None
    else
      var t := reg[id];
      var name :=
        if |t.path| > 0 then Some(Join(t.path, "."))
        else match AnonName(reg, t.def, {}) { case None => None case Some(n) => Some(n.name) };
      DiffRemoves(reg.Keys, seen, id);
      match ResolveDef(reg, t.def, seen + {id})
      case None => None
      case Some(def) =>
        if name.None? then None else Some(Resolved(id, name.value, t.path, def))
  }

  /** `resolveDef(def)`, for a definition whose owner's id is already in `seen`. */
  function ResolveDef(reg: Registry, def: Def, seen: set<nat>): (r: Option<ResolvedDef>)
    ensures r.Some? ==> Shape(def, r.value) && !r.value.Cut? && DefCutAt(r.value, seen)
    decreases |reg.Keys - seen| + 1, 3, 0
  {
    match def
    case Composite(fields) =>
      (match ResolveFields(reg, fields, seen) case None => None case Some(fs) => Some(RComposite(fs)))
    case VariantDef(vs) =>
      (match ResolveVariants(reg, vs, seen) case None => None case Some(rvs) => Some(RVariant(rvs)))
    case Sequence(t) =>
      (match Resolve(reg, t, seen) case None => None case Some(e) => Some(RSequence(e)))
    case Array(t, len) =>
      (match Resolve(reg, t, seen) case None => None case Some(e) => Some(RArray(e, len)))
    case Tuple(ts) =>
      (match ResolveAll(reg, ts, seen) case None => None case Some(es) => Some(RTuple(es)))
    case Compact(t) =>
      (match Resolve(reg, t, seen) case None => None case Some(e) => Some(RCompact(e)))
    case Primitive(_) => Some(Unchanged(def))
    case Other(_) => Some(Unchanged(def))
  }

  /** `ids.map(t => resolveType(t, new Set(seen)))`: every element resolved against the
      same set, independently of its siblings. */
  function ResolveAll(reg: Registry, ids: seq<nat>, seen: set<nat>): (r: Option<seq<Resolved>>)
    ensures r.Some? ==> Ids(r.value) == ids && AllCutAt(r.value, seen)
    ensures r.Some? ==> forall k :: 0 <= k < |ids| ==> Resolve(reg, ids[k], seen) == Some(r.value[k])
    decreases |reg.Keys - seen| + 1, 1, |ids|
  {
    if |ids| == 0 then Some([])
    else
      match Resolve(reg, ids[0], seen)
      case None => None
      case Some(first) =>
        match ResolveAll(reg, ids[1..], seen)
        case None => None
        case Some(rest) => Some([first] + rest)
  }

  function ResolveFields(reg: Registry, fields: seq<Field>, seen: set<nat>): (r: Option<seq<ResolvedField>>)
    ensures r.Some? ==> |r.value| == |fields|
    ensures r.Some? ==> forall i :: 0 <= i < |fields| ==>
      r.value[i].name == fields[i].name && r.value[i].ty.id == fields[i].typeId && CutAt(r.value[i].ty, seen)
    decreases |reg.Keys - seen| + 1, 1, |fields|
  {
    if |fields| == 0 then Some([])
    else
      match Resolve(reg, fields[0].typeId, seen)
      case None => None
      case Some(first) =>
        match ResolveFields(reg, fields[1..], seen)
        case None => None
        case Some(rest) => Some([ResolvedField(fields[0].name, first)] + rest)
  }

  function ResolveVariants(reg: Registry, vs: seq<Variant>, seen: set<nat>): (r: Option<seq<ResolvedVariant>>)
    ensures r.Some? ==> |r.value| == |vs|
    ensures r.Some? ==> forall i :: 0 <= i < |vs| ==>
      && r.value[i].name == vs[i].name
      && Ids(r.value[i].fields) == FieldTypes(vs[i].fields)
      && AllCutAt(r.value[i].fields, seen)
    decreases |reg.Keys - seen| + 1, 2, |vs|
  {
    if |vs| == 0 then Some([])
    else
      match ResolveAll(reg, FieldTypes(vs[0].fields), seen)
      case None => None
      case Some(fs) =>
        match ResolveVariants(reg, vs[1..], seen)
        case None => None
        case Some(rest) => Some([ResolvedVariant(vs[0].name, fs)] + rest)
  }

  /** Resolution of `(u8, u8)` expands both elements, since neither is the other's
      ancestor. */
  lemma TupleRepeatResolvesBoth()
    ensures var u8 := Resolved(1, "u8", [], Unchanged(Primitive("u8")));
      ResolveAll(U8Registry(), [1, 1], {}) == Some([u8, u8])
  {
    var reg := U8Registry();
    var empty: set<nat> := {};
    var u8 := Resolved(1, "u8", [], Unchanged(Primitive("u8")));
    assert AnonName(reg, Primitive("u8"), empty) == Some(Named("u8", empty));
    assert Resolve(reg, 1, empty) == Some(u8);
    assert [1, 1][1..] == [1] && [1][1..] == [];
    assert [u8] + [] == [u8] && [u8] + [u8] == [u8, u8];
    assert ResolveAll(reg, [1], empty) == Some([u8]);
  }

  lemma {:induction false} ResolveTotal(reg: Registry, id: nat, seen: set<nat>)
    requires Closed(reg)
    ensures Resolve(reg, id, seen).Some? <==> id in seen || id in reg
    decreases |reg.Keys - seen|, 4, 0
  {
    if id !in seen && id in reg {
      AnonNameTotal(reg, reg[id].def, {});
      DiffRemoves(reg.Keys, seen, id);
      ResolveDefTotal(reg, reg[id].def, seen + {id});
    }
  }

  lemma {:induction false} ResolveDefTotal(reg: Registry, def: Def, seen: set<nat>)
    requires Closed(reg) && Refs(def) <= reg.Keys
    ensures ResolveDef(reg, def, seen).Some?
    decreases |reg.Keys - seen| + 1, 3, 0
  {
    match def
    case Composite(fields) =>
      forall k | 0 <= k < |fields| ensures fields[k].typeId in reg {
        assert fields[k].typeId in Refs(def);
      }
      ResolveFieldsTotal(reg, fields, seen);
    case VariantDef(vs) =>
      forall i, k | 0 <= i < |vs| && 0 <= k < |vs[i].fields| ensures vs[i].fields[k].typeId in reg {
        assert vs[i].fields[k].typeId in Refs(def);
      }
      ResolveVariantsTotal(reg, vs, seen);
    case Sequence(t) => ResolveTotal(reg, t, seen);
    case Array(t, _) => ResolveTotal(reg, t, seen);
    case Tuple(ts) =>
      forall k | 0 <= k < |ts| ensures ts[k] in reg {
        assert ts[k] in Refs(def);
      }
      ResolveAllTotal(reg, ts, seen);
    case Compact(t) => ResolveTotal(reg, t, seen);
    case Primitive(_) =>
    case Other(_) =>
  }

  lemma {:induction false} ResolveAllTotal(reg: Registry, ids: seq<nat>, seen: set<nat>)
    requires Closed(reg) && forall k :: 0 <= k < |ids| ==> ids[k] in reg
    ensures ResolveAll(reg, ids, seen).Some?
    decreases |reg.Keys - seen| + 1, 1, |ids|
  {
    if |ids| > 0 {
      ResolveTotal(reg, ids[0], seen);
      ResolveAllTotal(reg, ids[1..], seen);
    }
  }

  lemma {:induction false} ResolveFieldsTotal(reg: Registry, fields: seq<Field>, seen: set<nat>)
    requires Closed(reg) && forall k :: 0 <= k < |fields| ==> fields[k].typeId in reg
    ensures ResolveFields(reg, fields, seen).Some?
    decreases |reg.Keys - seen| + 1, 1, |fields|
  {
    if |fields| > 0 {
      ResolveTotal(reg, fields[0].typeId, seen);
      ResolveFieldsTotal(reg, fields[1..], seen);
    }
  }

  lemma {:induction false} ResolveVariantsTotal(reg: Registry, vs: seq<Variant>, seen: set<nat>)
    requires Closed(reg)
    requires forall i, k :: 0 <= i < |vs| && 0 <= k < |vs[i].fields| ==> vs[i].fields[k].typeId in reg
    ensures ResolveVariants(reg, vs, seen).Some?
    decreases |reg.Keys - seen| + 1, 2, |vs|
  {
    if |vs| > 0 {
      ResolveAllTotal(reg, FieldTypes(vs[0].fields), seen);
      forall i, k | 0 <= i < |vs[1..]| && 0 <= k < |vs[1..][i].fields|
        ensures vs[1..][i].fields[k].typeId in reg
      {
        assert vs[1..][i] == vs[i + 1];
      }
      ResolveVariantsTotal(reg, vs[1..], seen);
    }
  }

  // ---------------------------------------------------------------------------
  // loadType

  /** What the explorer shows for a type. */
  datatype TypeInfo = TypeInfo(id: nat, siName: Option<string>, name: string, ty: SiType, def: ResolvedDef)

  datatype LoadError = LoadError(id: nat)

  datatype Loaded = Shown(info: TypeInfo) | Failed(error: LoadError)

  /**
   * `loadType(id)`: the joined path when there is one, else "#anon " and the derived
   * name; the definition resolved from an empty set. A lookup that throws anywhere shows
   * the error instead. A shown definition is never cut at the top and keeps the shape
   * of the registry's definition.
   */
  function LoadType(reg: Registry, id: nat): (r: Loaded)
    ensures r.Shown? ==> id in reg && r.info.id == id && r.info.ty == reg[id]
    ensures r.Shown? ==> r.info.siName == reg[id].name
    ensures r.Shown? && |reg[id].path| > 0 ==> r.info.name == Join(reg[id].path, ".")
    ensures r.Shown? && |reg[id].path| == 0 ==>
      TypeName(reg, id, {}).Some? && r.info.name == "#anon " + TypeName(reg, id, {}).value.name
    ensures r.Shown? ==> Resolve(reg, id, {}).Some? && r.info.def == Resolve(reg, id, {}).value.def
    ensures r.Shown? ==> !r.info.def.Cut? && Shape(reg[id].def, r.info.def) && DefCutAt(r.info.def, {id})
    ensures r.Failed? ==> r.error == LoadError(id)
  {
    if id !in reg then Failed(LoadError(id))
    else
      var t := reg[id];
      var name :=
        if |t.path| > 0 then Some(Join(t.path, "."))
        else match TypeName(reg, id, {}) { case None => None case Some(n) => Some("#anon " + n.name) };
      var empty: set<nat> := {};
      assert empty + {id} == {id};
      match Resolve(reg, id, empty)
      case None => Failed(LoadError(id))
      case Some(resolved) =>
        if name.None? then Failed(LoadError(id))
        else Shown(TypeInfo(id, t.name, name.value, t, resolved.def))
  }

  /** A type without a path but with a registry name is shown as "#anon " and that name:
      `deriveTypeName` prefers the registry name, and only the path suppresses the prefix. */
  lemma AnonymousRegisteredName(reg: Registry, id: nat)
    requires id in reg && HasName(reg[id]) && |reg[id].path| == 0 && LoadType(reg, id).Shown?
    ensures LoadType(reg, id).info.name == "#anon " + reg[id].name.value
    ensures LoadType(reg, id).info.siName == reg[id].name
  {
  }

  /** On a closed registry a type loads exactly when its id is registered. */
  lemma LoadTypeTotal(reg: Registry, id: nat)
    requires Closed(reg)
    ensures LoadType(reg, id).Shown? <==> id in reg
  {
    TypeNameTotal(reg, id, {});
    ResolveTotal(reg, id, {});
  }

  // ---------------------------------------------------------------------------
  // The rendering as the source runs it: one `Set` object mutated in place

  /** `prefix` followed by the names of `r`, or the failure of `r`. */
  function Prepend(prefix: seq<string>, r: Option<NamesSeen>): Option<NamesSeen> {
    match r
    case None => None
    case Some(ns) => Some(NamesSeen(prefix + ns.names, ns.seen))
  }

  lemma PrependEmpty(r: Option<NamesSeen>)
    ensures Prepend([], r) == r
  {
    if r.Some? {
      assert [] + r.value.names == r.value.names;
    }
  }

  lemma PrependTwice(a: seq<string>, b: seq<string>, r: Option<NamesSeen>)
    ensures Prepend(a, Prepend(b, r)) == Prepend(a + b, r)
  {
    if r.Some? {
      assert a + (b + r.value.names) == (a + b) + r.value.names;
    }
  }

  /** A method's answer agrees with a specification result: both fail, or the name is
      the specified one and the set is left as specified. */
  ghost predicate AgreesName(name: Option<string>, spec: Option<Named>, seen: set<nat>) {
    (name.None? <==> spec.None?) && (spec.Some? ==> name.value == spec.value.name && seen == spec.value.seen)
  }

  ghost predicate AgreesNames(names: Option<seq<string>>, spec: Option<NamesSeen>, seen: set<nat>) {
    (names.None? <==> spec.None?) && (spec.Some? ==> names.value == spec.value.names && seen == spec.value.seen)
  }

  /** The `seen` set of one top-level `deriveTypeName` call and the calls it makes. */
  class TypeNamer {
    const reg: Registry
    var seen: set<nat>

    constructor (reg: Registry)
      ensures this.reg == reg && seen == {}
    {
      this.reg := reg;
      seen := {};
    }

    /** `deriveTypeName(id, seen)`. */
    method DeriveTypeName(id: nat) returns (name: Option<string>)
      modifies this
      ensures AgreesName(name, TypeName(reg, id, old(seen)), seen)
      decreases |reg.Keys - seen|, 4
    {
      if id in seen {
        return Some(Marker(id));
      }
      seen := seen + {id};
      if id !in reg {
        return None;
      }
      var t := reg[id];
      if t.name.Some? && t.name.value != "" {
        return Some(t.name.value);
      }
      if |t.path| > 0 {
        return Some(Join(t.path, "."));
      }
      DiffRemoves(reg.Keys, old(seen), id);
      name := DeriveAnonTypeName(t.def);
    }

    /** `deriveAnonTypeName(def, seen)`. */
    method DeriveAnonTypeName(def: Def) returns (name: Option<string>)
      modifies this
      ensures AgreesName(name, AnonName(reg, def, old(seen)), seen)
      decreases |reg.Keys - seen| + 1, 3
    {
      AnonNameForms(reg, def, seen);
      match def
      case Composite(fields) =>
        var names := DeriveAll(FieldTypes(fields));
        if names.None? {
          return None;
        }
        name := Some("{ " + Join(FieldEntries(fields, names.value), "; ") + " }");
      case VariantDef(vs) =>
        var entries := DeriveVariants(vs);
        if entries.None? {
          return None;
        }
        name := Some("enum { " + Join(entries.value, " | ") + " }");
      case Sequence(t) =>
        name := DeriveWrapped("Vec<", t, ">");
      case Array(t, len) =>
        name := DeriveWrapped("[ ", t, "; " + NatToString(len) + " ]");
      case Tuple(ts) =>
        var names := DeriveAll(ts);
        if names.None? {
          return None;
        }
        name := Some("(" + Join(names.value, ", ") + ")");
      case Compact(t) =>
        name := DeriveWrapped("Compact<", t, ">");
      case Primitive(p) =>
        name := if p != "" then Some(p) else Some("{\"primitive\":\"\"}");
      case Other(json) =>
        name := Some(json);
    }

    /** `${open}${deriveTypeName(t, seen)}${close}`. */
    method DeriveWrapped(open: string, t: nat, close: string) returns (name: Option<string>)
      modifies this
      ensures AgreesName(name, Wrap(open, TypeName(reg, t, old(seen)), close), seen)
      decreases |reg.Keys - seen| + 1, 1
    {
      var n := DeriveTypeName(t);
      if n.None? {
        return None;
      }
      name := Some(open + n.value + close);
    }

    /** `ids.map(t => deriveTypeName(t, seen))`. */
    method DeriveAll(ids: seq<nat>) returns (names: Option<seq<string>>)
      modifies this
      ensures AgreesNames(names, TypeNames(reg, ids, old(seen)), seen)
      decreases |reg.Keys - seen| + 1, 1
    {
      var acc: seq<string> := [];
      var i := 0;
      assert ids[0..] == ids;
      PrependEmpty(TypeNames(reg, ids, seen));
      while i < |ids|
        invariant 0 <= i <= |ids|
        invariant old(seen) <= seen
        invariant Prepend(acc, TypeNames(reg, ids[i..], seen)) == TypeNames(reg, ids, old(seen))
      {
        assert ids[i..][0] == ids[i] && ids[i..][1..] == ids[i + 1..];
        DiffShrinks(reg.Keys, old(seen), seen);
        var n := DeriveTypeName(ids[i]);
        if n.None? {
          return None;
        }
        PrependTwice(acc, [n.value], TypeNames(reg, ids[i + 1..], seen));
        acc := acc + [n.value];
        i := i + 1;
      }
      assert acc + [] == acc;
      names := Some(acc);
    }

    /** The entries of an enum's variants, left to right. */
    method DeriveVariants(vs: seq<Variant>) returns (entries: Option<seq<string>>)
      modifies this
      ensures AgreesNames(entries, VariantNames(reg, vs, old(seen)), seen)
      decreases |reg.Keys - seen| + 1, 2
    {
      var acc: seq<string> := [];
      var i := 0;
      assert vs[0..] == vs;
      PrependEmpty(VariantNames(reg, vs, seen));
      while i < |vs|
        invariant 0 <= i <= |vs|
        invariant old(seen) <= seen
        invariant Prepend(acc, VariantNames(reg, vs[i..], seen)) == VariantNames(reg, vs, old(seen))
      {
        assert vs[i..][0] == vs[i] && vs[i..][1..] == vs[i + 1..];
        DiffShrinks(reg.Keys, old(seen), seen);
        var v := vs[i];
        var names := DeriveAll(FieldTypes(v.fields));
        if names.None? {
          return None;
        }
        var entry := EntryOf(v, names.value);
        PrependTwice(acc, [entry], VariantNames(reg, vs[i + 1..], seen));
        acc := acc + [entry];
        i := i + 1;
      }
      assert acc + [] == acc;
      entries := Some(acc);
    }
  }

  /** A top-level `deriveTypeName(id)`: a fresh set, then the rendering. */
  method RenderTypeName(reg: Registry, id: nat) returns (name: Option<string>)
    ensures name.None? <==> TypeName(reg, id, {}).None?
    ensures name.Some? ==> name.value == TypeName(reg, id, {}).value.name
  {
    var namer := new TypeNamer(reg);
    name := namer.DeriveTypeName(id);
  }
}
