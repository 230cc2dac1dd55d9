/** The material registry of src/core/MaterialManager.js. Materials are
    objects shared by reference: the name map and every synced group hold
    references to the same objects. The model makes the sharing explicit
    with a heap of material records addressed by `Id`, so that replacing a
    name or grouping a material twice behaves as the JavaScript does. */
module MaterialManager {
  import opened Util

  /** A value assigned to a material property (numbers, flags, colours as
      hex numbers or CSS strings). */
  datatype Value = Num(n: real) | Flag(b: bool) | Hex(h: int) | Css(s: string)

  /** A material: its THREE class, its colour, its other properties by
      name, whether it was flagged for re-upload, and whether it was disposed. */
  datatype Material = Material(kind: string, color: Value, props: map<string, Value>, needsUpdate: bool, disposed: bool)

  type Id = nat

  datatype Manager = Manager(heap: map<Id, Material>, materials: map<string, Id>, synced: map<string, seq<Id>>, next: Id)

  /** A freshly constructed manager: both maps empty. */
  const Empty: Manager := Manager(map[], map[], map[], 0)

  /** Every reference points at an allocated material, and `next` is fresh. */
  ghost predicate Valid(m: Manager)
  {
    && (forall n :: n in m.materials ==> m.materials[n] in m.heap)
    && (forall g, k :: g in m.synced && 0 <= k < |m.synced[g]| ==> m.synced[g][k] in m.heap)
    && (forall id :: id in m.heap ==> id < m.next)
  }

  /** The classes the THREE library provides, each with the properties (and
      their defaults) its materials carry. The library is not part of this
      model; it is a parameter. */
  type Library = map<string, map<string, Value>>

  /** THREE's default colour, white. */
  const White: Value := Hex(0xffffff)

  /** `new MaterialClass(options)`: class defaults, overridden by the
      options the class knows. */
  function Construct(kind: string, defaults: map<string, Value>, options: map<string, Value>): (mat: Material)
    ensures mat.kind == kind
    ensures mat.props.Keys == defaults.Keys
    ensures forall k :: k in defaults ==> mat.props[k] == (if k in options then options[k] else defaults[k])
    ensures mat.color == (if "color" in options then options["color"] else White)
    ensures !mat.disposed
  {
    Material(kind,
      if "color" in options then options["color"] else White,
      map k | k in defaults :: if k in options then options[k] else defaults[k],
      false, false)
  }

  /** `create(name, type, options)`: an unknown class throws; otherwise a new
      material is registered under `name`, replacing any earlier entry (the
      earlier object stays wherever a group still refers to it). */
  function Create(m: Manager, library: Library, name: string, kind: string, options: map<string, Value>): (r: Result<(Manager, Id)>)
    ensures r.Failure? <==> kind !in library
    ensures r.Failure? ==> r.message == "Unknown material type: " + kind
    ensures r.Success? ==>
              var (m', id) := r.value;
              && (Valid(m) ==> id !in m.heap)
              && m'.heap == m.heap[id := Construct(kind, library[kind], options)]
              && m'.materials == m.materials[name := id]
              && m'.synced == m.synced
              && Get(m', name) == Some(Construct(kind, library[kind], options))
  {
    if kind !in library then Failure("Unknown material type: " + kind)
    else
      var id := m.next;
      Success((Manager(m.heap[id := Construct(kind, library[kind], options)], m.materials[name := id], m.synced, id + 1), id))
  }

  /** `get(name)`: the material registered under `name`, if any. */
  function Get(m: Manager, name: string): (r: Option<Material>)
    ensures r.Some? ==> name in m.materials
    ensures Valid(m) && name in m.materials ==> r == Some(m.heap[m.materials[name]])
  {
    if name in m.materials && m.materials[name] in m.heap then Some(m.heap[m.materials[name]]) else None
  }

  /** Creating keeps the manager valid and leaves every other name's
      material as it was. */
  lemma CreateKeepsOthers(m: Manager, library: Library, name: string, kind: string, options: map<string, Value>, other: string)
    requires Valid(m) && kind in library && other != name
    ensures Valid(Create(m, library, name, kind, options).value.0)
    ensures Get(Create(m, library, name, kind, options).value.0, other) == Get(m, other)
  {
  }

  /** The references a list of names resolves to, in the order the names
      are given: unregistered names are dropped, repetitions are kept. */
  function Registered(materials: map<string, Id>, names: seq<string>): seq<Id>
  {
    if names == [] then []
    else (if names[0] in materials then [materials[names[0]]] else []) + Registered(materials, names[1..])
  }

  /** Resolving a list is resolving its parts in turn. */
  lemma {:induction false} RegisteredAppend(materials: map<string, Id>, a: seq<string>, b: seq<string>)
    ensures Registered(materials, a + b) == Registered(materials, a) + Registered(materials, b)
    decreases |a|
  {
    if a == [] {
      assert a + b == b;
    } else {
      assert (a + b)[0] == a[0] && (a + b)[1..] == a[1..] + b;
      RegisteredAppend(materials, a[1..], b);
    }
  }

  /** Every reference comes from a registered name among `names`, every
      registered name contributes, and nothing comes out only when no name
      is registered. */
  lemma {:induction false} RegisteredCovers(materials: map<string, Id>, names: seq<string>)
    ensures var ids := Registered(materials, names);
            && |ids| <= |names|
            && (forall k :: 0 <= k < |ids| ==> exists j :: 0 <= j < |names| && names[j] in materials && ids[k] == materials[names[j]])
            && (forall j :: 0 <= j < |names| && names[j] in materials ==> materials[names[j]] in ids)
            && (ids == [] <==> forall j :: 0 <= j < |names| ==> names[j] !in materials)
    decreases |names|
  {
    if names != [] {
      RegisteredCovers(materials, names[1..]);
      assert forall j :: 1 <= j < |names| ==> names[j] == names[1..][j - 1];
    }
  }

  /** The references `createSyncedGroup` keeps for a list of names. */
  function Resolve(materials: map<string, Id>, names: seq<string>): (ids: seq<Id>)
    ensures |ids| <= |names|
    ensures forall k :: 0 <= k < |ids| ==> exists j :: 0 <= j < |names| && names[j] in materials && ids[k] == materials[names[j]]
    ensures forall j :: 0 <= j < |names| && names[j] in materials ==> materials[names[j]] in ids
    ensures ids == [] <==> forall j :: 0 <= j < |names| ==> names[j] !in materials
  {
    RegisteredCovers(materials, names);
    Registered(materials, names)
  }

  /** Resolution keeps the order of the names: a list resolves to its parts
      resolved in turn, and a single name to its reference, or to nothing
      when it is not registered. */
  lemma ResolveInOrder(materials: map<string, Id>, a: seq<string>, b: seq<string>, name: string)
    ensures Resolve(materials, a + b) == Resolve(materials, a) + Resolve(materials, b)
    ensures Resolve(materials, [name]) == (if name in materials then [materials[name]] else [])
  {
    RegisteredAppend(materials, a, b);
  }

  /** `createSyncedGroup(group, names)`: the group holds the registered
      materials among `names`; when there are none, nothing is registered. */
  function CreateSyncedGroup(m: Manager, group: string, names: seq<string>): (r: Manager)
    ensures r.heap == m.heap && r.materials == m.materials && r.next == m.next
    ensures Resolve(m.materials, names) == [] ==> r == m
    ensures Resolve(m.materials, names) != [] ==> r.synced == m.synced[group := Resolve(m.materials, names)]
  {
    var ids := Resolve(m.materials, names);
    if ids == [] then m else m.(synced := m.synced[group := ids])
  }

  lemma CreateSyncedGroupValid(m: Manager, group: string, names: seq<string>)
    requires Valid(m)
    ensures Valid(CreateSyncedGroup(m, group, names))
  {
    var ids := Resolve(m.materials, names);
    forall k | 0 <= k < |ids|
      ensures ids[k] in m.heap
    {
      var j :| 0 <= j < |names| && names[j] in m.materials && ids[k] == m.materials[names[j]];
    }
  }

  /** What `getPreset` returns: a colour, roughness and metalness, and
      for glass an opacity together with `transparent: true`. */
  datatype PresetOptions = PresetOptions(color: int, roughness: real, metalness: real, seeThrough: Option<real>)

  const Leather: PresetOptions := PresetOptions(0x2b1e16, 0.8, 0.1, None)
  const Metal: PresetOptions := PresetOptions(0x777777, 0.3, 0.9, None)
  const Glass: PresetOptions := PresetOptions(0xffffff, 0.0, 0.0, Some(0.3))

  /** `getPreset(name)`: the named preset, leather for any other name. */
  function GetPreset(name: string): (p: PresetOptions)
    ensures name == "metal" ==> p == Metal
    ensures name == "glass" ==> p == Glass
    ensures name != "metal" && name != "glass" ==> p == Leather
    ensures p.seeThrough.Some? <==> name == "glass"
  {
    if name == "metal" then Metal else if name == "glass" then Glass else Leather
  }

  /** The edits a caller can make to one material. */
  datatype Edit =
    | SetProperty(property: string, value: Value)
    | SetOpacity(opacity: real)
    | Preset(options: PresetOptions)

  /** One edit on one material, which is then flagged for re-upload:
      - a property: the colour always, any other property only if the material has it;
      - transparency: opacity, and `transparent` iff opacity < 1;
      - a preset: each of its entries is assigned, whether or not the material had it. */
  function ApplyEdit(mat: Material, e: Edit): (r: Material)
    ensures r.needsUpdate && r.kind == mat.kind && r.disposed == mat.disposed
    ensures e.SetProperty? && e.property == "color" ==> r.color == e.value && r.props == mat.props
    ensures e.SetProperty? && e.property != "color" && e.property in mat.props ==>
              r.color == mat.color && r.props == mat.props[e.property := e.value]
    ensures e.SetProperty? && e.property != "color" && e.property !in mat.props ==> r == mat.(needsUpdate := true)
    ensures e.SetOpacity? ==>
              && "opacity" in r.props && r.props["opacity"] == Num(e.opacity)
              && "transparent" in r.props && r.props["transparent"] == Flag(e.opacity < 1.0)
    ensures e.SetOpacity? ==>
              && r.color == mat.color
              && r.props.Keys == mat.props.Keys + {"opacity", "transparent"}
              && forall k :: k in mat.props && k != "opacity" && k != "transparent" ==> r.props[k] == mat.props[k]
    ensures e.Preset? ==>
              && r.color == Hex(e.options.color)
              && "roughness" in r.props && r.props["roughness"] == Num(e.options.roughness)
              && "metalness" in r.props && r.props["metalness"] == Num(e.options.metalness)
    ensures e.Preset? && e.options.seeThrough.Some? ==>
              && r.props.Keys == mat.props.Keys + {"roughness", "metalness", "opacity", "transparent"}
              && r.props["opacity"] == Num(e.options.seeThrough.value)
              && r.props["transparent"] == Flag(true)
              && forall k :: k in mat.props && k !in {"roughness", "metalness", "opacity", "transparent"} ==> r.props[k] == mat.props[k]
    ensures e.Preset? && e.options.seeThrough.None? ==>
              && r.color == Hex(e.options.color)
              && r.props == mat.props["roughness" := Num(e.options.roughness)]["metalness" := Num(e.options.metalness)]
  {
    match e
    case SetProperty(p, v) =>
      if p == "color" then mat.(color := v, needsUpdate := true)
      else if p in mat.props then mat.(props := mat.props[p := v], needsUpdate := true)
      else mat.(needsUpdate := true)
    case SetOpacity(o) =>
      mat.(props := mat.props["opacity" := Num(o)]["transparent" := Flag(o < 1.0)], needsUpdate := true)
    case Preset(PresetOptions(c, rough, metal, seeThrough)) =>
      var props := mat.props["roughness" := Num(rough)]["metalness" := Num(metal)];
      var props' := if seeThrough.Some? then props["opacity" := Num(seeThrough.value)]["transparent" := Flag(true)] else props;
      mat.(color := Hex(c), props := props', needsUpdate := true)
  }

  /** Applying an edit twice is applying it once, so a material listed in a
      group more than once ends up as if edited once. */
  lemma EditIdempotent(mat: Material, e: Edit)
    ensures ApplyEdit(ApplyEdit(mat, e), e) == ApplyEdit(mat, e)
  {
  }

  /** The edit applied to every listed material, one after the other, as
      `forEach` does; references to nothing are passed over. */
  function ForEach(heap: map<Id, Material>, ids: seq<Id>, e: Edit): (r: map<Id, Material>)
    ensures r.Keys == heap.Keys
    decreases |ids|
  {
    if ids == [] then heap
    else if ids[0] in heap then ForEach(heap[ids[0] := ApplyEdit(heap[ids[0]], e)], ids[1..], e)
    else ForEach(heap, ids[1..], e)
  }

  /** The edit applied once to every material in `targets`. */
  function EditAll(heap: map<Id, Material>, targets: set<Id>, e: Edit): map<Id, Material>
  {
    map id | id in heap :: if id in targets then ApplyEdit(heap[id], e) else heap[id]
  }

  /** The sequential loop edits exactly the listed materials, each once,
      whatever the order and repetitions of the list. */
  lemma {:induction false} ForEachEditsListed(heap: map<Id, Material>, ids: seq<Id>, e: Edit)
    ensures ForEach(heap, ids, e) == EditAll(heap, set k | 0 <= k < |ids| :: ids[k], e)
    decreases |ids|
  {
    var all := set k | 0 <= k < |ids| :: ids[k];
    if ids == [] {
      assert all == {};
    } else {
      var rest := set k | 0 <= k < |ids| - 1 :: ids[1..][k];
      ListedCons(ids);
      ForEachEditsListed(if ids[0] in heap then heap[ids[0] := ApplyEdit(heap[ids[0]], e)] else heap, ids[1..], e);
      EditAllAbsorbs(heap, ids[0], rest, e);
    }
  }

  /** The members of a non-empty list are its head and the members of its tail. */
  lemma ListedCons(ids: seq<Id>)
    requires ids != []
    ensures (set k | 0 <= k < |ids| :: ids[k]) == (set k | 0 <= k < |ids| - 1 :: ids[1..][k]) + {ids[0]}
  {
    var all := set k | 0 <= k < |ids| :: ids[k];
    var rest := set k | 0 <= k < |ids| - 1 :: ids[1..][k];
    forall x | x in all ensures x in rest + {ids[0]} {
      var k :| 0 <= k < |ids| && ids[k] == x;
      if k > 0 { assert ids[1..][k - 1] == x; }
    }
    forall x | x in rest ensures x in all {
      var k :| 0 <= k < |ids| - 1 && ids[1..][k] == x;
      assert ids[k + 1] == x;
    }
    assert ids[0] in all;
  }

  /** Editing one material first and then a set of them is editing the set
      together with that one, because a second edit changes nothing. */
  lemma EditAllAbsorbs(heap: map<Id, Material>, id: Id, targets: set<Id>, e: Edit)
    ensures id in heap ==> EditAll(heap[id := ApplyEdit(heap[id], e)], targets, e) == EditAll(heap, targets + {id}, e)
    ensures id !in heap ==> EditAll(heap, targets, e) == EditAll(heap, targets + {id}, e)
  {
    if id in heap {
      EditIdempotent(heap[id], e);
    }
  }

  /** `updateSynced(group, property, value)`: every member of the group
      gets the property; an unknown group changes nothing. */
  function UpdateSynced(m: Manager, group: string, property: string, value: Value): (r: Manager)
    ensures group !in m.synced ==> r == m
    ensures group in m.synced ==>
              r == m.(heap := EditAll(m.heap, set k | 0 <= k < |m.synced[group]| :: m.synced[group][k], SetProperty(property, value)))
  {
    if group !in m.synced then m
    else
      ForEachEditsListed(m.heap, m.synced[group], SetProperty(property, value));
      m.(heap := ForEach(m.heap, m.synced[group], SetProperty(property, value)))
  }

  /** The common shape of `setColor`, `setTransparency` and `applyPreset`:
      a material of that name is edited alone; failing that, a synced group
      of that name is edited as a whole; failing that, nothing happens. */
  function EditTarget(m: Manager, nameOrGroup: string, e: Edit): (r: Manager)
    ensures r.materials == m.materials && r.synced == m.synced && r.next == m.next
    ensures Valid(m) && nameOrGroup in m.materials ==>
              var id := m.materials[nameOrGroup];
              r.heap == m.heap[id := ApplyEdit(m.heap[id], e)]
    ensures nameOrGroup !in m.materials && nameOrGroup in m.synced ==>
              r.heap == EditAll(m.heap, set k | 0 <= k < |m.synced[nameOrGroup]| :: m.synced[nameOrGroup][k], e)
    ensures nameOrGroup !in m.materials && nameOrGroup !in m.synced ==> r == m
  {
    if nameOrGroup in m.materials && m.materials[nameOrGroup] in m.heap then
      var id := m.materials[nameOrGroup];
      m.(heap := m.heap[id := ApplyEdit(m.heap[id], e)])
    else if nameOrGroup in m.synced then
      ForEachEditsListed(m.heap, m.synced[nameOrGroup], e);
      m.(heap := ForEach(m.heap, m.synced[nameOrGroup], e))
    else m
  }

  /** `setColor`: the material, else the group's members, get the colour. */
  function SetColor(m: Manager, nameOrGroup: string, color: Value): (r: Manager)
    ensures Valid(m) && nameOrGroup in m.materials ==> Get(r, nameOrGroup).Some? && Get(r, nameOrGroup).value.color == color
    ensures nameOrGroup !in m.materials ==> r == UpdateSynced(m, nameOrGroup, "color", color)
  {
    EditTarget(m, nameOrGroup, SetProperty("color", color))
  }

  /** `setTransparency`: opacity is clamped to [0, 1] and the material is
      transparent exactly when the clamped opacity is below 1. */
  function SetTransparency(m: Manager, nameOrGroup: string, opacity: real): (r: Manager)
    ensures Valid(m) && nameOrGroup in m.materials ==>
              && Get(r, nameOrGroup).Some?
              && var mat := Get(r, nameOrGroup).value;
              && "opacity" in mat.props && "transparent" in mat.props
              && mat.props["opacity"].Num? && 0.0 <= mat.props["opacity"].n <= 1.0
              && (0.0 <= opacity <= 1.0 ==> mat.props["opacity"] == Num(opacity))
              && mat.props["transparent"] == Flag(mat.props["opacity"].n < 1.0)
    ensures Valid(m) && nameOrGroup in m.materials ==>
              Get(r, nameOrGroup) == Some(ApplyEdit(Get(m, nameOrGroup).value, SetOpacity(Clamp(opacity, 0.0, 1.0))))
    ensures nameOrGroup !in m.materials && nameOrGroup in m.synced ==>
              r.heap == EditAll(m.heap, set k | 0 <= k < |m.synced[nameOrGroup]| :: m.synced[nameOrGroup][k], SetOpacity(Clamp(opacity, 0.0, 1.0)))
    ensures nameOrGroup !in m.materials && nameOrGroup !in m.synced ==> r == m
  {
    EditTarget(m, nameOrGroup, SetOpacity(Clamp(opacity, 0.0, 1.0)))
  }

  /** `applyPreset`: the preset's entries are written to the material, else
      to every member of the group. */
  function ApplyPreset(m: Manager, nameOrGroup: string, preset: string): (r: Manager)
    ensures Valid(m) && nameOrGroup in m.materials ==>
              Get(r, nameOrGroup).Some? && Get(r, nameOrGroup).value.color == Hex(GetPreset(preset).color)
    ensures Valid(m) && nameOrGroup in m.materials ==>
              Get(r, nameOrGroup) == Some(ApplyEdit(Get(m, nameOrGroup).value, Preset(GetPreset(preset))))
    ensures nameOrGroup !in m.materials && nameOrGroup in m.synced ==>
              r.heap == EditAll(m.heap, set k | 0 <= k < |m.synced[nameOrGroup]| :: m.synced[nameOrGroup][k], Preset(GetPreset(preset)))
    ensures nameOrGroup !in m.materials && nameOrGroup !in m.synced ==> r == m
  {
    EditTarget(m, nameOrGroup, Preset(GetPreset(preset)))
  }

  /** Every edit keeps the manager valid. */
  lemma EditTargetValid(m: Manager, nameOrGroup: string, e: Edit)
    requires Valid(m)
    ensures Valid(EditTarget(m, nameOrGroup, e))
  {
  }

  /** A material takes precedence over a group of the same name: the
      group's other members are left alone. */
  lemma MaterialBeforeGroup(m: Manager, name: string, e: Edit, id: Id)
    requires Valid(m) && name in m.materials && name in m.synced
    requires id in m.heap && id != m.materials[name]
    ensures EditTarget(m, name, e).heap[id] == m.heap[id]
  {
  }

  /** Presets only add properties: glass followed by leather keeps glass's
      opacity 0.3 and `transparent`, because leather says nothing about them. */
  lemma GlassThenLeatherStaysSeeThrough(m: Manager, name: string)
    requires Valid(m) && name in m.materials
    ensures var r := ApplyPreset(ApplyPreset(m, name, "glass"), name, "leather");
            Get(r, name).Some? &&
            var mat := Get(r, name).value;
            mat.color == Hex(0x2b1e16) && "opacity" in mat.props && "transparent" in mat.props && mat.props["opacity"] == Num(0.3) && mat.props["transparent"] == Flag(true)
  {
    var g := ApplyPreset(m, name, "glass");
    assert Valid(g);
  }

  /** Re-creating a material under a name its group still refers to
      detaches it: editing the group no longer reaches the material the
      name now returns. */
  lemma RecreateDetachesFromGroup(m: Manager, library: Library, name: string, kind: string, options: map<string, Value>, group: string, color: Value)
    requires Valid(m) && kind in library
    requires group in m.synced && group !in m.materials && group != name
    ensures var m1 := Create(m, library, name, kind, options).value.0;
            Get(SetColor(m1, group, color), name) == Get(m1, name)
  {
    var (m1, id) := Create(m, library, name, kind, options).value;
    assert forall k :: 0 <= k < |m1.synced[group]| ==> m1.synced[group][k] != id;
  }

  /** `dispose`: every registered material is disposed and both maps are
      emptied, after which no name resolves and every edit does nothing. */
  function Dispose(m: Manager): (r: Manager)
    ensures r.materials == map[] && r.synced == map[]
    ensures r.heap.Keys == m.heap.Keys
    ensures forall n :: n in m.materials && m.materials[n] in m.heap ==> r.heap[m.materials[n]].disposed
  {
    var registered := set n | n in m.materials :: m.materials[n];
    Manager(map id | id in m.heap :: if id in registered then m.heap[id].(disposed := true) else m.heap[id], map[], map[], m.next)
  }

  lemma DisposeForgets(m: Manager, name: string, e: Edit)
    ensures Get(Dispose(m), name) == None
    ensures EditTarget(Dispose(m), name, e) == Dispose(m)
  {
  }
}
