/** The house: its name-keyed registries of doors and interactables, the
    collider over the doors, interaction dispatch, and the order in which
    the builder feeds geometry to the two colliders. */
module Houses {
  import opened Options
  import opened Geometry
  import opened Objects
  import JsMap

  /** A scene-graph node as far as the colliders can tell: static geometry,
      a light switch, or a door in a given pose. */
  datatype Node = StaticNode(part: string) | SwitchNode(name: string) | DoorNode(name: string, rotationY: real)

  /** A collision octree, identified by the graph nodes it was fed. How it
      partitions their triangles is the library's business. */
  datatype Octree = Octree(indexed: seq<Node>)

  const EmptyOctree: Octree := Octree([])

  /** `Octree.fromGraphNode`: index more geometry. */
  function FromGraphNode(o: Octree, nodes: seq<Node>): (r: Octree)
    ensures o.indexed <= r.indexed
    ensures forall n :: n in r.indexed <==> n in o.indexed || n in nodes
  {
    Octree(o.indexed + nodes)
  }

  /** The geometry a door contributes in its current pose. */
  function DoorGeometry(d: Door): Node {
    DoorNode(d.name, d.rotationY)
  }

  /** What the name-keyed interactable registry holds. A door entry stands
      for the very object kept under the same name among the doors. */
  datatype Interactable = DoorRef | SwitchRef(sw: LightSwitch)

  datatype House = House(
    doors: seq<(string, Door)>,
    interactables: seq<(string, Interactable)>,
    doorsOctree: Octree)

  /** The aliasing the registries have in the source: each door is filed
      under its own name, and a door entry among the interactables is a door
      that is also filed among the doors. */
  predicate Valid(h: House) {
    && JsMap.KeysUnique(h.doors)
    && JsMap.KeysUnique(h.interactables)
    && (forall i :: 0 <= i < |h.doors| ==> h.doors[i].1.name == h.doors[i].0)
    && (forall i :: 0 <= i < |h.interactables| && h.interactables[i].1.DoorRef? ==>
          h.interactables[i].0 in JsMap.Keys(h.doors))
    && (forall i :: 0 <= i < |h.interactables| && h.interactables[i].1.SwitchRef? ==>
          h.interactables[i].1.sw.name == h.interactables[i].0)
  }

  /** No registered door is opening and closing at once. */
  predicate DoorsExclusive(h: House) {
    forall i :: 0 <= i < |h.doors| ==> Exclusive(h.doors[i].1)
  }

  function DoorEntries(doors: seq<Door>): (p: seq<(string, Door)>)
    ensures |p| == |doors|
    ensures forall i :: 0 <= i < |doors| ==> p[i] == (doors[i].name, doors[i])
  {
    seq(|doors|, i requires 0 <= i < |doors| => (doors[i].name, doors[i]))
  }

  function InteractableEntries(doors: seq<Door>, switches: seq<LightSwitch>): (p: seq<(string, Interactable)>)
    ensures |p| == |doors| + |switches|
    ensures forall i :: 0 <= i < |doors| ==> p[i] == (doors[i].name, DoorRef)
    ensures forall i :: 0 <= i < |switches| ==> p[|doors| + i] == (switches[i].name, SwitchRef(switches[i]))
  {
    seq(|doors|, i requires 0 <= i < |doors| => (doors[i].name, DoorRef))
      + seq(|switches|, i requires 0 <= i < |switches| => (switches[i].name, SwitchRef(switches[i])))
  }

  function DoorNames(doors: seq<Door>): set<string> {
    set i | 0 <= i < |doors| :: doors[i].name
  }

  function SwitchNames(switches: seq<LightSwitch>): set<string> {
    set i | 0 <= i < |switches| :: switches[i].name
  }

  predicate DistinctNames(doors: seq<Door>, switches: seq<LightSwitch>) {
    JsMap.KeysUnique(InteractableEntries(doors, switches))
  }

  lemma DoorKeys(doors: seq<Door>)
    ensures JsMap.Keys(DoorEntries(doors)) == DoorNames(doors)
  {
    var p := DoorEntries(doors);
    forall x | x in DoorNames(doors) ensures x in JsMap.Keys(p) {
      var i :| 0 <= i < |doors| && doors[i].name == x;
      assert p[i].0 == x;
    }
  }

  lemma InteractableKeys(doors: seq<Door>, switches: seq<LightSwitch>)
    ensures JsMap.Keys(InteractableEntries(doors, switches)) == DoorNames(doors) + SwitchNames(switches)
  {
    var p := InteractableEntries(doors, switches);
    forall x | x in DoorNames(doors) ensures x in JsMap.Keys(p) {
      var i :| 0 <= i < |doors| && doors[i].name == x;
      assert p[i].0 == x;
    }
    forall x | x in SwitchNames(switches) ensures x in JsMap.Keys(p) {
      var i :| 0 <= i < |switches| && switches[i].name == x;
      assert p[|doors| + i].0 == x;
    }
    forall x | x in JsMap.Keys(p) ensures x in DoorNames(doors) + SwitchNames(switches) {
      var i :| 0 <= i < |p| && p[i].0 == x;
      if i < |doors| { assert doors[i].name == x; }
      else { assert switches[i - |doors|].name == x; }
    }
  }

  /** The registries `House.build` fills in, before anything is proved of them. */
  function Registries(doors: seq<Door>, switches: seq<LightSwitch>, doorsOctree: Octree): House {
    House(JsMap.FromEntries(DoorEntries(doors)), JsMap.FromEntries(InteractableEntries(doors, switches)), doorsOctree)
  }

  /** `House.build`: every door under its name, and every door and switch
      among the interactables under its name, switches winning a clash. */
  function Build(doors: seq<Door>, switches: seq<LightSwitch>, doorsOctree: Octree): (h: House)
    ensures Valid(h)
    ensures h.doorsOctree == doorsOctree
    ensures JsMap.Keys(h.doors) == DoorNames(doors)
    ensures JsMap.Keys(h.interactables) == DoorNames(doors) + SwitchNames(switches)
    ensures forall i :: 0 <= i < |h.doors| ==> h.doors[i].1 in doors
    ensures (forall i :: 0 <= i < |doors| ==> Exclusive(doors[i])) ==> DoorsExclusive(h)
    ensures DistinctNames(doors, switches) ==> FiledUnderOwnNames(h, doors, switches)
  {
    DoorKeys(doors);
    InteractableKeys(doors, switches);
    RegistriesValid(doors, switches, doorsOctree);
    RegistriesFiled(doors, switches, doorsOctree);
    Registries(doors, switches, doorsOctree)
  }

  lemma RegistriesValid(doors: seq<Door>, switches: seq<LightSwitch>, o: Octree)
    ensures Valid(Registries(doors, switches, o))
    ensures forall i :: 0 <= i < |Registries(doors, switches, o).doors| ==>
              Registries(doors, switches, o).doors[i].1 in doors
  {
    var dp := DoorEntries(doors);
    var ip := InteractableEntries(doors, switches);
    var h := Registries(doors, switches, o);
    forall i | 0 <= i < |h.doors| ensures h.doors[i].1.name == h.doors[i].0 && h.doors[i].1 in doors {
      JsMap.GetAt(h.doors, i);
      JsMap.LastValueIsEntry(dp, h.doors[i].0);
    }
    forall i | 0 <= i < |h.interactables| && h.interactables[i].1.DoorRef?
      ensures h.interactables[i].0 in JsMap.Keys(h.doors)
    {
      JsMap.GetAt(h.interactables, i);
      JsMap.LastValueIsEntry(ip, h.interactables[i].0);
      var j :| 0 <= j < |ip| && ip[j] == (h.interactables[i].0, DoorRef);
      assert dp[j].0 == h.interactables[i].0;
    }
    forall i | 0 <= i < |h.interactables| && h.interactables[i].1.SwitchRef?
      ensures h.interactables[i].1.sw.name == h.interactables[i].0
    {
      JsMap.GetAt(h.interactables, i);
      JsMap.LastValueIsEntry(ip, h.interactables[i].0);
      var j :| 0 <= j < |ip| && ip[j] == (h.interactables[i].0, h.interactables[i].1);
      assert ip[j] == ip[|doors| + (j - |doors|)];
    }
  }

  lemma RegistriesFiled(doors: seq<Door>, switches: seq<LightSwitch>, o: Octree)
    ensures DistinctNames(doors, switches) ==> FiledUnderOwnNames(Registries(doors, switches, o), doors, switches)
  {
    if DistinctNames(doors, switches) {
      RegistriesFiledDistinct(doors, switches, o);
    }
  }

  lemma RegistriesFiledDistinct(doors: seq<Door>, switches: seq<LightSwitch>, o: Octree)
    requires DistinctNames(doors, switches)
    ensures FiledUnderOwnNames(Registries(doors, switches, o), doors, switches)
  {
    var dp := DoorEntries(doors);
    var ip := InteractableEntries(doors, switches);
    var h := Registries(doors, switches, o);
    assert JsMap.KeysUnique(dp) by {
      forall i, j | 0 <= i < j < |dp| ensures dp[i].0 != dp[j].0 {
        assert ip[i].0 == dp[i].0 && ip[j].0 == dp[j].0;
      }
    }
    forall i | 0 <= i < |doors| ensures JsMap.Get(h.doors, doors[i].name) == Some(doors[i]) {
      JsMap.LastValueDistinct(dp, i);
    }
    forall i | 0 <= i < |doors| ensures JsMap.Get(h.interactables, doors[i].name) == Some(DoorRef) {
      JsMap.LastValueDistinct(ip, i);
    }
    forall i | 0 <= i < |switches|
      ensures JsMap.Get(h.interactables, switches[i].name) == Some(SwitchRef(switches[i]))
    {
      JsMap.LastValueDistinct(ip, |doors| + i);
    }
  }

  /** Each door is found under its name among the doors and as a door
      among the interactables; each switch is found under its name. */
  predicate FiledUnderOwnNames(h: House, doors: seq<Door>, switches: seq<LightSwitch>) {
    && (forall i :: 0 <= i < |doors| ==> JsMap.Get(h.doors, doors[i].name) == Some(doors[i]))
    && (forall i :: 0 <= i < |doors| ==> JsMap.Get(h.interactables, doors[i].name) == Some(DoorRef))
    && (forall i :: 0 <= i < |switches| ==>
          JsMap.Get(h.interactables, switches[i].name) == Some(SwitchRef(switches[i])))
  }

  // ---------------------------------------------------------------------
  // The doors collider
  // ---------------------------------------------------------------------

  /** The collider built from the given doors, in map order. */
  function DoorsCollider(doors: seq<(string, Door)>): (o: Octree)
    ensures |o.indexed| == |doors|
    ensures forall i :: 0 <= i < |doors| ==> o.indexed[i] == DoorGeometry(doors[i].1)
  {
    Octree(seq(|doors|, i requires 0 <= i < |doors| => DoorGeometry(doors[i].1)))
  }

  /** `House.updateWorldOctree`: nothing unless asked; when asked, the
      doors collider is replaced by one holding exactly the current doors. */
  function UpdateWorldOctree(h: House, needsUpdate: bool): (r: House)
    ensures !needsUpdate ==> r == h
    ensures r.doors == h.doors && r.interactables == h.interactables
    ensures needsUpdate ==> r.doorsOctree == DoorsCollider(h.doors)
  {
    if !needsUpdate then h
    else
      var o := FromGraphNode(EmptyOctree, DoorsCollider(h.doors).indexed);
      h.(doorsOctree := o)
  }

  /** A rebuilt collider holds exactly the geometry of the current doors. */
  lemma RebuildHoldsDoors(h: House)
    ensures var r := UpdateWorldOctree(h, true);
            && |r.doorsOctree.indexed| == |h.doors|
            && forall n :: n in r.doorsOctree.indexed <==>
                 exists i :: 0 <= i < |h.doors| && n == DoorGeometry(h.doors[i].1)
  {
    var r := UpdateWorldOctree(h, true);
    forall n | n in r.doorsOctree.indexed
      ensures exists i :: 0 <= i < |h.doors| && n == DoorGeometry(h.doors[i].1)
    {
      var i :| 0 <= i < |r.doorsOctree.indexed| && r.doorsOctree.indexed[i] == n;
    }
  }

  /** The collider is a snapshot of the doors in which each door `j` from
      `from` on is caught either before or after its tick. */
  predicate Snapshot(o: Octree, before: House, after: House, from: nat) {
    && |o.indexed| == |before.doors| == |after.doors|
    && forall j :: 0 <= j < |before.doors| ==>
         o.indexed[j] == DoorGeometry(before.doors[j].1)
         || (from <= j && o.indexed[j] == DoorGeometry(after.doors[j].1))
  }

  /** The door's next tick will call back with `true`: it is past a bound
      while still turning towards it. */
  predicate RequestsRebuild(d: Door) {
    (Angle(d) < OPEN_BOUND && d.isOpening) || (Angle(d) > 0.0 && d.isClosing)
  }

  /** The tick calls back with `true` exactly when the door requests a rebuild. */
  lemma RequestsRebuildExactly(d: Door, dt: real)
    ensures AnimateDoor(d, dt).rebuild == Some(true) <==> RequestsRebuild(d)
  {
  }

  /** One door's tick inside `animate_doors`: the callback (if called) runs
      with the door still in its old pose, then the door's new state is stored. */
  function TickAt(h: House, dt: real, i: nat): (r: House)
    requires i < |h.doors|
    ensures r.interactables == h.interactables
    ensures r.doors == h.doors[i := (h.doors[i].0, AnimateDoor(h.doors[i].1, dt).door)]
    ensures !RequestsRebuild(h.doors[i].1) ==> r.doorsOctree == h.doorsOctree
    ensures RequestsRebuild(h.doors[i].1) ==> r.doorsOctree == DoorsCollider(h.doors)
  {
    RequestsRebuildExactly(h.doors[i].1, dt);
    var s := AnimateDoor(h.doors[i].1, dt);
    var h1 := if s.rebuild.Some? then UpdateWorldOctree(h, s.rebuild.value) else h;
    h1.(doors := h1.doors[i := (h1.doors[i].0, s.door)])
  }

  /** `animate_doors` from the `i`-th door on. */
  function AnimateFrom(h: House, dt: real, i: nat): (r: House)
    requires i <= |h.doors|
    ensures |r.doors| == |h.doors| && r.interactables == h.interactables
    decreases |h.doors| - i
  {
    if i == |h.doors| then h
    else AnimateFrom(TickAt(h, dt, i), dt, i + 1)
  }

  /** The doors before `i` are untouched and every door from `i` on has
      ticked once. */
  lemma AnimateFromDoors(h: House, dt: real, i: nat)
    requires i <= |h.doors|
    ensures forall j :: 0 <= j < i ==> AnimateFrom(h, dt, i).doors[j] == h.doors[j]
    ensures forall j :: i <= j < |h.doors| ==>
              AnimateFrom(h, dt, i).doors[j] == (h.doors[j].0, AnimateDoor(h.doors[j].1, dt).door)
  {
    AnimateFromTicked(h, dt, i);
  }

  /** The registry with every door from `i` on ticked once. */
  function TickedFrom(doors: seq<(string, Door)>, dt: real, i: nat): seq<(string, Door)> {
    seq(|doors|, j requires 0 <= j < |doors| =>
      if j < i then doors[j] else (doors[j].0, AnimateDoor(doors[j].1, dt).door))
  }

  /** Ticking door `i` first and the doors after it next ticks every door from `i` on. */
  lemma TickedFromStep(doors: seq<(string, Door)>, dt: real, i: nat)
    requires i < |doors|
    ensures TickedFrom(doors[i := (doors[i].0, AnimateDoor(doors[i].1, dt).door)], dt, i + 1)
            == TickedFrom(doors, dt, i)
  {
  }

  lemma {:induction false} AnimateFromTicked(h: House, dt: real, i: nat)
    requires i <= |h.doors|
    ensures AnimateFrom(h, dt, i).doors == TickedFrom(h.doors, dt, i)
    decreases |h.doors| - i
  {
    if i == |h.doors| {
      assert TickedFrom(h.doors, dt, i) == h.doors;
    } else {
      AnimateFromStep(h, dt, i);
      AnimateFromTicked(TickAt(h, dt, i), dt, i + 1);
      TickedFromStep(h.doors, dt, i);
    }
  }

  /** The doors collider is untouched when no door from `i` on asks for a
      rebuild. */
  lemma {:induction false} AnimateFromKeepsCollider(h: House, dt: real, i: nat)
    requires i <= |h.doors|
    requires forall j :: i <= j < |h.doors| ==> !RequestsRebuild(h.doors[j].1)
    ensures AnimateFrom(h, dt, i).doorsOctree == h.doorsOctree
    decreases |h.doors| - i
  {
    if i < |h.doors| {
      var h2 := TickAt(h, dt, i);
      AnimateFromStep(h, dt, i);
      assert forall j :: i + 1 <= j < |h.doors| ==> h2.doors[j] == h.doors[j];
      AnimateFromKeepsCollider(h2, dt, i + 1);
    }
  }

  /** When some door from `i` on asks for a rebuild, the doors collider is a
      snapshot of the doors taken while they ticked. */
  lemma AnimateFromSnapshot(h: House, dt: real, i: nat)
    requires i <= |h.doors|
    requires exists j :: i <= j < |h.doors| && RequestsRebuild(h.doors[j].1)
    ensures Snapshot(AnimateFrom(h, dt, i).doorsOctree, h, AnimateFrom(h, dt, i), i)
    decreases |h.doors| - i, 1
  {
    if exists j :: i + 1 <= j < |h.doors| && RequestsRebuild(h.doors[j].1) {
      SnapshotFromLater(h, dt, i);
    } else {
      SnapshotFromHere(h, dt, i);
    }
  }

  /** A later door's rebuild: the snapshot taken from `i + 1` on also counts
      from `i` on. */
  lemma SnapshotFromLater(h: House, dt: real, i: nat)
    requires i < |h.doors|
    requires exists j :: i + 1 <= j < |h.doors| && RequestsRebuild(h.doors[j].1)
    ensures Snapshot(AnimateFrom(h, dt, i).doorsOctree, h, AnimateFrom(h, dt, i), i)
    decreases |h.doors| - i, 0
  {
    var h2 := TickAt(h, dt, i);
    AnimateFromStep(h, dt, i);
    TickAtOthers(h, dt, i);
    AnimateFromSnapshot(h2, dt, i + 1);
    AnimateFromDoors(h2, dt, i + 1);
    SnapshotWiden(h, h2, AnimateFrom(h2, dt, i + 1), AnimateFrom(h2, dt, i + 1).doorsOctree, i);
  }

  /** A tick touches only its own door. */
  lemma TickAtOthers(h: House, dt: real, i: nat)
    requires i < |h.doors|
    ensures |TickAt(h, dt, i).doors| == |h.doors|
    ensures forall j :: 0 <= j < |h.doors| && j != i ==> TickAt(h, dt, i).doors[j] == h.doors[j]
  {
  }

  /** Door `i` alone asks for a rebuild: the collider is rebuilt from the
      doors before door `i` ticks and nothing touches it afterwards. */
  lemma SnapshotFromHere(h: House, dt: real, i: nat)
    requires i < |h.doors| && RequestsRebuild(h.doors[i].1)
    requires forall j :: i + 1 <= j < |h.doors| ==> !RequestsRebuild(h.doors[j].1)
    ensures Snapshot(AnimateFrom(h, dt, i).doorsOctree, h, AnimateFrom(h, dt, i), i)
  {
    var h2 := TickAt(h, dt, i);
    AnimateFromStep(h, dt, i);
    TickAtOthers(h, dt, i);
    AnimateFromKeepsCollider(h2, dt, i + 1);
    SnapshotFresh(h, AnimateFrom(h2, dt, i + 1), h2.doorsOctree, i);
  }

  /** `AnimateFrom` before the last door is one tick followed by the rest. */
  lemma AnimateFromStep(h: House, dt: real, i: nat)
    requires i < |h.doors|
    ensures AnimateFrom(h, dt, i) == AnimateFrom(TickAt(h, dt, i), dt, i + 1)
  {
  }

  /** A collider rebuilt from the doors before any of them ticked is a snapshot. */
  lemma SnapshotFresh(h: House, r: House, o: Octree, i: nat)
    requires |h.doors| == |r.doors|
    requires o == DoorsCollider(h.doors)
    ensures Snapshot(o, h, r, i)
  {
  }

  /** A snapshot taken after door `i` has ticked is one from `i` on. */
  lemma SnapshotWiden(h: House, h2: House, r: House, o: Octree, i: nat)
    requires i < |h.doors| == |h2.doors| == |r.doors|
    requires forall j :: 0 <= j < |h.doors| && j != i ==> h2.doors[j] == h.doors[j]
    requires r.doors[i] == h2.doors[i]
    requires Snapshot(o, h2, r, i + 1)
    ensures Snapshot(o, h, r, i)
  {
    forall j | 0 <= j < |h.doors|
      ensures o.indexed[j] == DoorGeometry(h.doors[j].1) || (i <= j && o.indexed[j] == DoorGeometry(r.doors[j].1))
    {
    }
  }

  /** `House.animate_doors`: every registered door is advanced once by the
      same `dt`; the doors collider is left alone unless a door asks for a
      rebuild, and then it is rebuilt from the doors as they stood. */
  function AnimateDoors(h: House, dt: real): (r: House)
    ensures |r.doors| == |h.doors| && r.interactables == h.interactables
    ensures Valid(h) ==> Valid(r)
    ensures DoorsExclusive(h) ==> DoorsExclusive(r)
  {
    var r := AnimateFrom(h, dt, 0);
    AnimateFromDoors(h, dt, 0);
    TicksKeepRegistry(h, r, dt);
    r
  }

  /** What `AnimateDoors` does to each door and to the doors collider. */
  lemma AnimateDoorsTicks(h: House, dt: real)
    ensures var r := AnimateDoors(h, dt);
            && (forall j :: 0 <= j < |h.doors| ==> r.doors[j] == (h.doors[j].0, AnimateDoor(h.doors[j].1, dt).door))
            && ((forall j :: 0 <= j < |h.doors| ==> !RequestsRebuild(h.doors[j].1)) ==>
                  r.doorsOctree == h.doorsOctree)
            && ((exists j :: 0 <= j < |h.doors| && RequestsRebuild(h.doors[j].1)) ==>
                  Snapshot(r.doorsOctree, h, r, 0))
  {
    AnimateFromDoors(h, dt, 0);
    if exists j :: 0 <= j < |h.doors| && RequestsRebuild(h.doors[j].1) {
      AnimateFromSnapshot(h, dt, 0);
    } else {
      AnimateFromKeepsCollider(h, dt, 0);
    }
  }

  /** Ticking every door in place keeps the registries' shape: the keys,
      the names, and the doors' exclusivity. */
  lemma TicksKeepRegistry(h: House, r: House, dt: real)
    requires |r.doors| == |h.doors| && r.interactables == h.interactables
    requires forall j :: 0 <= j < |h.doors| ==> r.doors[j] == (h.doors[j].0, AnimateDoor(h.doors[j].1, dt).door)
    ensures Valid(h) ==> Valid(r)
    ensures DoorsExclusive(h) ==> DoorsExclusive(r)
  {
    assert JsMap.Keys(r.doors) == JsMap.Keys(h.doors) by {
      forall x | x in JsMap.Keys(h.doors) ensures x in JsMap.Keys(r.doors) {
        var j :| 0 <= j < |h.doors| && h.doors[j].0 == x;
        assert r.doors[j].0 == x;
      }
      forall x | x in JsMap.Keys(r.doors) ensures x in JsMap.Keys(h.doors) {
        var j :| 0 <= j < |r.doors| && r.doors[j].0 == x;
        assert h.doors[j].0 == x;
      }
    }
    if DoorsExclusive(h) {
      forall j | 0 <= j < |r.doors| ensures Exclusive(r.doors[j].1) {
        ActKeepsExclusive(h.doors[j].1, Tick(dt));
      }
    }
  }

  // ---------------------------------------------------------------------
  // Interaction dispatch
  // ---------------------------------------------------------------------

  /** The reach of the interaction key, in world units. */
  const INTERACTION_RANGE: real := 5.0

  /** One raycast intersection: its distance, and the name of the hit
      object's parent (`None` where `object.parent` is missing). */
  datatype Intersection = Intersection(distance: real, parentName: Option<string>)

  /** The house after a key press, and the name whose `interact` ran. */
  datatype Dispatch = Dispatch(house: House, target: Option<string>)

  /** The name `check_interactions` would look up: the nearest hit's parent
      name, when that hit is in range and the name is not empty. */
  function PickedName(hits: seq<Intersection>): Option<string> {
    if |hits| == 0 then None
    else if hits[0].distance < INTERACTION_RANGE then
      match hits[0].parentName
      case None => None
      case Some(name) => if name == "" then None else Some(name)
    else None
  }

  /** Interacting with the object registered under `name`. */
  function InteractWith(h: House, name: string): (r: Dispatch)
    requires Valid(h)
    ensures r.house.doorsOctree == h.doorsOctree
    ensures JsMap.Get(h.interactables, name).None? ==> r == Dispatch(h, None)
  {
    var found: Option<Interactable> := JsMap.Get(h.interactables, name);
    if found.None? then Dispatch(h, None)
    else if found.value.DoorRef? then
      var door: Option<Door> := JsMap.Get(h.doors, name);
      if door.None? then Dispatch(h, None)
      else Dispatch(h.(doors := JsMap.Set(h.doors, name, Interact(door.value))), Some(name))
    else
      var s := found.value.sw;
      Dispatch(h.(interactables := JsMap.Set(h.interactables, name, SwitchRef(SwitchInteract(s)))), Some(name))
  }

  /** `House.check_interactions`: only the nearest hit counts; out of range,
      without a parent name, or with a name nobody registered, nothing
      happens; otherwise the one registered object is interacted with. */
  function CheckInteractions(h: House, hits: seq<Intersection>): (r: Dispatch)
    requires Valid(h)
    ensures Valid(r.house)
    ensures DoorsExclusive(h) ==> DoorsExclusive(r.house)
    ensures r.house.doorsOctree == h.doorsOctree
    ensures |hits| == 0 ==> r == Dispatch(h, None)
    ensures |hits| > 0 && hits[0].distance >= INTERACTION_RANGE ==> r == Dispatch(h, None)
    ensures |hits| > 0 && (hits[0].parentName == None || hits[0].parentName == Some("")) ==>
              r == Dispatch(h, None)
    ensures r.target.None? ==> r.house == h
    ensures r.target.Some? <==> PickedName(hits).Some? && PickedName(hits).value in JsMap.Keys(h.interactables)
    ensures r.target.Some? ==> r.target == PickedName(hits)
    ensures r.target.Some? && JsMap.Get(h.interactables, r.target.value) == Some(DoorRef) ==>
              && r.house.interactables == h.interactables
              && JsMap.Get(r.house.doors, r.target.value) == Some(Interact(JsMap.Get(h.doors, r.target.value).value))
              && forall k :: k != r.target.value ==> JsMap.Get(r.house.doors, k) == JsMap.Get(h.doors, k)
    ensures r.target.Some? && JsMap.Get(h.interactables, r.target.value).Some?
            && JsMap.Get(h.interactables, r.target.value).value.SwitchRef? ==>
              && r.house.doors == h.doors
              && JsMap.Get(r.house.interactables, r.target.value)
                   == Some(SwitchRef(SwitchInteract(JsMap.Get(h.interactables, r.target.value).value.sw)))
              && forall k :: k != r.target.value ==> JsMap.Get(r.house.interactables, k) == JsMap.Get(h.interactables, k)
  {
    match PickedName(hits)
    case None => Dispatch(h, None)
    case Some(name) => InteractWith(h, name)
  }

  // ---------------------------------------------------------------------
  // The builder
  // ---------------------------------------------------------------------

  const FRONT_DOOR: string := "front_door"
  const HALL_SWITCH: string := "hall_switch"
  const LIVING_SWITCH: string := "living_switch"
  const BEDROOM_SWITCH: string := "bedroom_switch"

  /** What `withFloor`, `withCeiling`, `withRoof` and `withWalls` add to the
      scene synchronously, one node per builder step. */
  const ShellNodes: seq<Node> :=
    [StaticNode("floor"), StaticNode("ceiling"), StaticNode("roof"), StaticNode("walls")]

  /** `withCeilingLights`: three ceiling lights, then their three switches. */
  const LightNodes: seq<Node> :=
    [StaticNode("hall_light"), StaticNode("living_light"), StaticNode("bedroom_light"),
     SwitchNode(HALL_SWITCH), SwitchNode(LIVING_SWITCH), SwitchNode(BEDROOM_SWITCH)]

  /** The switches of `withCeilingLights`, each wired to a fresh ceiling light. */
  function HouseSwitches(): seq<LightSwitch> {
    [NewLightSwitch(HALL_SWITCH, NewCeilingLight()),
     NewLightSwitch(LIVING_SWITCH, NewCeilingLight()),
     NewLightSwitch(BEDROOM_SWITCH, NewCeilingLight())]
  }

  /** The doors of `withDoors`: the living-room door is mounted turned a
      quarter, the bedroom door a half turn, which is exactly what their
      normalisation takes off. */
  function HouseDoors(): (ds: seq<Door>)
    ensures |ds| == 3
    ensures forall i :: 0 <= i < |ds| ==> Angle(ds[i]) == 0.0 && Settled(ds[i])
  {
    [NewDoor(FRONT_DOOR),
     NewDoor(LIVING_DOOR).(rotationY := PI / 2.0),
     NewDoor(BEDROOM_DOOR).(rotationY := PI)]
  }

  function DoorNodes(ds: seq<Door>): (ns: seq<Node>)
    ensures |ns| == |ds|
    ensures forall i :: 0 <= i < |ds| ==> ns[i] == DoorGeometry(ds[i])
  {
    seq(|ds|, i requires 0 <= i < |ds| => DoorGeometry(ds[i]))
  }

  /** The outcome of `HouseBuilder.build`: the house, the scene, and the
      static world collider. */
  datatype Built = Built(house: House, scene: seq<Node>, worldOctree: Octree)

  predicate NoDoorGeometry(ns: seq<Node>) {
    forall i :: 0 <= i < |ns| ==> !ns[i].DoorNode?
  }

  /** No two of the builder's six objects share a name. */
  lemma HouseNames()
    ensures DistinctNames(HouseDoors(), HouseSwitches())
  {
    var p := InteractableEntries(HouseDoors(), HouseSwitches());
    var names := [FRONT_DOOR, LIVING_DOOR, BEDROOM_DOOR, HALL_SWITCH, LIVING_SWITCH, BEDROOM_SWITCH];
    assert forall i :: 0 <= i < 6 ==> p[i].0 == names[i];
    assert forall i, j :: 0 <= i < j < 6 ==> names[i] != names[j] by {
      forall i, j | 0 <= i < j < 6 ensures names[i] != names[j] {
        assert |names[i]| != |names[j]| || names[i][0] != names[j][0];
      }
    }
  }

  /** A house built from doors closed and at rest keeps every registered
      door closed and at rest. */
  lemma RestingRegistry(doors: seq<Door>, switches: seq<LightSwitch>, o: Octree)
    requires forall i :: 0 <= i < |doors| ==> Angle(doors[i]) == 0.0 && Settled(doors[i])
    ensures var h := Build(doors, switches, o);
            && DoorsExclusive(h)
            && forall i :: 0 <= i < |h.doors| ==> Angle(h.doors[i].1) == 0.0 && Settled(h.doors[i].1)
  {
    var h := Build(doors, switches, o);
    forall i | 0 <= i < |h.doors| ensures Angle(h.doors[i].1) == 0.0 && Settled(h.doors[i].1) {
      assert h.doors[i].1 in doors;
    }
  }

  /** The builder's steps in order: shell and lights join the scene and the
      static collider is built from it; only then are the doors added. */
  function Assemble(scene: seq<Node>, worldOctree: Octree): Built {
    var scene1 := scene + ShellNodes + LightNodes;
    var doors := HouseDoors();
    Built(Build(doors, HouseSwitches(), FromGraphNode(EmptyOctree, DoorNodes(doors))),
          scene1 + DoorNodes(doors),
          FromGraphNode(worldOctree, scene1))
  }

  lemma AssembleWorld(scene: seq<Node>, worldOctree: Octree)
    ensures NoDoorGeometry(scene) && NoDoorGeometry(worldOctree.indexed) ==>
              NoDoorGeometry(Assemble(scene, worldOctree).worldOctree.indexed)
  {
    SceneSplit(scene, scene + ShellNodes + LightNodes, DoorNodes(HouseDoors()));
  }

  lemma AssembleDoorsCollider(scene: seq<Node>, worldOctree: Octree)
    ensures var b := Assemble(scene, worldOctree);
            && (NoDoorGeometry(scene) ==>
                  forall n :: n in b.house.doorsOctree.indexed <==> n in b.scene && n.DoorNode?)
            && |b.house.doorsOctree.indexed| == 3
  {
    SceneSplit(scene, scene + ShellNodes + LightNodes, DoorNodes(HouseDoors()));
  }

  lemma AssembleRegistry(scene: seq<Node>, worldOctree: Octree)
    ensures var b := Assemble(scene, worldOctree);
            && Valid(b.house) && DoorsExclusive(b.house)
            && JsMap.Keys(b.house.doors) == DoorNames(HouseDoors())
            && JsMap.Keys(b.house.interactables) == DoorNames(HouseDoors()) + SwitchNames(HouseSwitches())
            && (forall i :: 0 <= i < |b.house.doors| ==>
                  Angle(b.house.doors[i].1) == 0.0 && Settled(b.house.doors[i].1))
            && FiledUnderOwnNames(b.house, HouseDoors(), HouseSwitches())
  {
    HouseNames();
    RestingRegistry(HouseDoors(), HouseSwitches(), FromGraphNode(EmptyOctree, DoorNodes(HouseDoors())));
  }

  /** `HouseBuilder.build`: the scene is handed to the static collider before
      `withDoors` runs, so door geometry lands only in the doors collider;
      the house registers the builder's three doors and three switches
      under their names, every door closed and at rest. */
  function BuildHouse(scene: seq<Node>, worldOctree: Octree): (b: Built)
    ensures NoDoorGeometry(scene) && NoDoorGeometry(worldOctree.indexed) ==>
              NoDoorGeometry(b.worldOctree.indexed)
    ensures NoDoorGeometry(scene) ==>
              forall n :: n in b.house.doorsOctree.indexed <==> n in b.scene && n.DoorNode?
    ensures |b.house.doorsOctree.indexed| == 3
    ensures Valid(b.house) && DoorsExclusive(b.house)
    ensures JsMap.Keys(b.house.doors) == DoorNames(HouseDoors())
    ensures JsMap.Keys(b.house.interactables) == DoorNames(HouseDoors()) + SwitchNames(HouseSwitches())
    ensures forall i :: 0 <= i < |b.house.doors| ==> Angle(b.house.doors[i].1) == 0.0 && Settled(b.house.doors[i].1)
    ensures FiledUnderOwnNames(b.house, HouseDoors(), HouseSwitches())
  {
    AssembleWorld(scene, worldOctree);
    AssembleDoorsCollider(scene, worldOctree);
    AssembleRegistry(scene, worldOctree);
    Assemble(scene, worldOctree)
  }

  /** Static nodes added before the doors keep door geometry out of the
      world collider, and the scene's door nodes are exactly those added last. */
  lemma SceneSplit(scene: seq<Node>, scene1: seq<Node>, doorNodes: seq<Node>)
    requires scene1 == scene + ShellNodes + LightNodes
    requires forall i :: 0 <= i < |doorNodes| ==> doorNodes[i].DoorNode?
    ensures NoDoorGeometry(scene) ==> NoDoorGeometry(scene1)
    ensures NoDoorGeometry(scene) ==>
              forall n :: n in doorNodes <==> n in scene1 + doorNodes && n.DoorNode?
  {
    if NoDoorGeometry(scene) {
      assert NoDoorGeometry(ShellNodes + LightNodes);
      forall i | 0 <= i < |scene1| ensures !scene1[i].DoorNode? {
        if i >= |scene| { assert scene1[i] == (ShellNodes + LightNodes)[i - |scene|]; }
      }
    }
  }

  // ---------------------------------------------------------------------
  // The rebuild callback as the source wires it
  // ---------------------------------------------------------------------

  /** How a call of the rebuild callback ends. */
  datatype CallResult = Returned | ThrewTypeError

  /** `House.updateWorldOctree` as a door actually calls it. `withDoors`
      passes the method without binding it and the door calls it as its
      own property, so `this` is the door: with `false` it returns at once;
      with `true` it sets a stray `doorsOctree` field on the door and then
      reads `this.doors.values()`, and a door has no `doors`. */
  function UpdateWorldOctreeOnDoor(needsUpdate: bool): (c: CallResult)
    ensures c == ThrewTypeError <==> needsUpdate
  {
    if !needsUpdate then Returned else ThrewTypeError
  }

  /** One `animate_doors` call run to completion, or aborted by the
      exception thrown while animating door `at`. */
  datatype LoopResult = Completed(house: House) | Aborted(at: nat)

  function AnimateFromAsWritten(h: House, dt: real, i: nat): (r: LoopResult)
    requires i <= |h.doors|
    ensures r.Aborted? <==> exists j :: i <= j < |h.doors| && RequestsRebuild(h.doors[j].1)
    ensures r.Completed? ==> r.house == AnimateFrom(h, dt, i)
    decreases |h.doors| - i
  {
    if i == |h.doors| then Completed(h)
    else
      var s := AnimateDoor(h.doors[i].1, dt);
      RequestsRebuildExactly(h.doors[i].1, dt);
      if s.rebuild.Some? && UpdateWorldOctreeOnDoor(s.rebuild.value) == ThrewTypeError then Aborted(i)
      else
        var h2 := TickAt(h, dt, i);
        assert forall j :: i < j < |h.doors| ==> h2.doors[j] == h.doors[j];
        AnimateFromAsWritten(h2, dt, i + 1)
  }

  /** `House.animate_doors` with the callback wired as written: the call
      completes exactly when no door asks for a rebuild, and then agrees
      with `AnimateDoors`; the first request throws instead of rebuilding. */
  function AnimateDoorsAsWritten(h: House, dt: real): (r: LoopResult)
    ensures r.Aborted? <==> exists j :: 0 <= j < |h.doors| && RequestsRebuild(h.doors[j].1)
    ensures r.Completed? ==> r.house == AnimateDoors(h, dt)
  {
    AnimateFromAsWritten(h, dt, 0)
  }

  /** Every registered door is closed and at rest. */
  predicate AllAtRest(h: House) {
    forall i :: 0 <= i < |h.doors| ==> Angle(h.doors[i].1) == 0.0 && Settled(h.doors[i].1)
  }

  /** In a house at rest, a press on a door leaves every door calm for the
      next tick, and the pressed door closing from its closed pose. */
  lemma PressAtRest(h: House, name: string)
    requires Valid(h) && AllAtRest(h) && name != ""
    requires JsMap.Get(h.interactables, name) == Some(DoorRef)
    ensures var h1 := CheckInteractions(h, [Intersection(1.0, Some(name))]).house;
            && Valid(h1)
            && (forall j :: 0 <= j < |h1.doors| ==> !RequestsRebuild(h1.doors[j].1))
            && exists k :: 0 <= k < |h1.doors| && h1.doors[k].1.isClosing && !h1.doors[k].1.isOpening
                 && Angle(h1.doors[k].1) == 0.0
  {
    var hits := [Intersection(1.0, Some(name))];
    assert PickedName(hits) == Some(name);
    var h1 := CheckInteractions(h, hits).house;
    assert name in JsMap.Keys(h.doors) by {
      JsMap.GetAt(h.interactables, JsMap.IndexOf(h.interactables, name));
    }
    var front := JsMap.Get(h.doors, name).value;
    assert Angle(front) == 0.0 && Settled(front);
    assert JsMap.Get(h1.doors, name) == Some(Interact(front));
    forall j | 0 <= j < |h1.doors| ensures !RequestsRebuild(h1.doors[j].1) {
      var key := h1.doors[j].0;
      JsMap.GetAt(h1.doors, j);
      if key != name {
        assert JsMap.Get(h.doors, key) == Some(h1.doors[j].1);
      }
    }
    var k := JsMap.IndexOf(h1.doors, name);
    assert h1.doors[k].1 == Interact(front);
  }

  /** A door closing from its closed pose has passed its bound after one
      tick of positive length, so its next tick asks for a rebuild. */
  lemma ClosingPassesBound(h1: House, dt: real, k: nat)
    requires dt > 0.0 && k < |h1.doors|
    requires h1.doors[k].1.isClosing && !h1.doors[k].1.isOpening && Angle(h1.doors[k].1) == 0.0
    ensures RequestsRebuild(AnimateDoors(h1, dt).doors[k].1)
  {
    AnimateDoorsTicks(h1, dt);
    ClosingTick(h1.doors[k].1, dt);
  }

  /** In any house whose doors are at rest, a press on a door lets the next
      `animate_doors` call (the next substep) complete; the call after it
      throws as written, whereas the corrected `AnimateDoors` rebuilds the
      doors collider. Both calls fall within the first `render` frame after
      the press, which runs five substeps. */
  lemma UnboundCallbackAbortsSecondTick(h: House, name: string, dt: real)
    requires Valid(h) && AllAtRest(h) && name != "" && dt > 0.0
    requires JsMap.Get(h.interactables, name) == Some(DoorRef)
    ensures var h1 := CheckInteractions(h, [Intersection(1.0, Some(name))]).house;
            var h2 := AnimateDoors(h1, dt);
            && AnimateDoorsAsWritten(h1, dt).Completed?
            && AnimateDoorsAsWritten(h2, dt).Aborted?
            && Snapshot(AnimateDoors(h2, dt).doorsOctree, h2, AnimateDoors(h2, dt), 0)
  {
    PressAtRest(h, name);
    var h1 := CheckInteractions(h, [Intersection(1.0, Some(name))]).house;
    var k :| 0 <= k < |h1.doors| && h1.doors[k].1.isClosing && !h1.doors[k].1.isOpening
              && Angle(h1.doors[k].1) == 0.0;
    CalmCompletes(h1, dt);
    ClosingPassesBound(h1, dt, k);
    RequestAborts(AnimateDoors(h1, dt), dt, k);
  }

  /** An `animate_doors` call in which no door asks for a rebuild completes
      as written. */
  lemma CalmCompletes(h: House, dt: real)
    requires forall j :: 0 <= j < |h.doors| ==> !RequestsRebuild(h.doors[j].1)
    ensures AnimateDoorsAsWritten(h, dt).Completed?
  {
  }

  /** An `animate_doors` call in which some door asks for a rebuild throws
      as written, and rebuilds the doors collider once corrected. */
  lemma RequestAborts(h: House, dt: real, k: nat)
    requires k < |h.doors| && RequestsRebuild(h.doors[k].1)
    ensures AnimateDoorsAsWritten(h, dt).Aborted?
    ensures Snapshot(AnimateDoors(h, dt).doorsOctree, h, AnimateDoors(h, dt), 0)
  {
    AnimateDoorsTicks(h, dt);
  }

  /** The front door of a freshly built house shows it: after a press, the
      second `animate_doors` call throws. */
  lemma FrontDoorAbortsSecondTick(dt: real)
    requires dt > 0.0
    ensures var h0 := BuildHouse([], EmptyOctree).house;
            var h1 := CheckInteractions(h0, [Intersection(1.0, Some(FRONT_DOOR))]).house;
            && AnimateDoorsAsWritten(h1, dt).Completed?
            && AnimateDoorsAsWritten(AnimateDoors(h1, dt), dt).Aborted?
  {
    var h0 := BuildHouse([], EmptyOctree).house;
    assert HouseDoors()[0].name == FRONT_DOOR;
    UnboundCallbackAbortsSecondTick(h0, FRONT_DOOR, dt);
  }
}
