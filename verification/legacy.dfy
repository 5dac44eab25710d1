/** The earlier revision of the game loop: the functions local to `main` in
    js/app.js. Keyboard steering and the respawn are the same code as in
    src/js/world.ts and are reused from `Worlds`; the movement differs in
    three places: gravity is a subtracted 10 rather than an added -9.81, the
    floor test accepts any contact normal with a positive vertical part, and
    both colliders are queried on every substep.

    The house and the flashlight this revision talks to come from an
    `objects` module that is not part of this model. Of the house only its
    doors collider is read back by the loop; it is kept as a field, and what
    `House.animate_doors` does to it is an oracle. */
module Legacy {
  import opened Geometry
  import opened Houses
  import opened Worlds

  /** `GRAVITY`, subtracted from the vertical speed. */
  const LEGACY_GRAVITY: real := 10.0

  // ---------------------------------------------------------------------
  // State
  // ---------------------------------------------------------------------

  /** What a frame of `main` reads or writes. `doorsOctree` is the house's
      doors collider; `cameraType` is 0 for the perspective camera and 1 for
      the orthographic one; `keys` holds the codes whose last event was
      `keydown`. */
  datatype LegacyWorld = LegacyWorld(
    doorsOctree: Octree,
    octree: Octree,
    player: Player,
    camera: Camera,
    cameraType: int,
    keys: set<string>,
    intersects: seq<Intersection>)

  /** The library calls of the loop, and the effect of `House.animate_doors`
      on the doors collider. */
  datatype LegacyOracles = LegacyOracles(base: Oracles, animate: (Octree, real) -> Octree)

  /** The state `main` sets up: the same capsule as `World`'s constructor,
      still and airborne, the perspective camera at the origin, no key down
      and no hit yet. */
  function NewLegacyWorld(doorsOctree: Octree, octree: Octree): (w: LegacyWorld)
    ensures w.player.collider == StartCollider && w.player.velocity == Zero && !w.player.onFloor
    ensures w.cameraType == 0 && w.keys == {} && w.intersects == []
    ensures w.doorsOctree == doorsOctree && w.octree == octree
  {
    LegacyWorld(doorsOctree, octree, Player(StartCollider, Zero, false), Camera(Zero, Zero), 0, {}, [])
  }

  /** Both revisions start the player in the same place and state. */
  lemma SameStart(house: House, doorsOctree: Octree, octree: Octree)
    ensures NewLegacyWorld(doorsOctree, octree).player == NewWorld(house, octree).player
  {
  }

  // ---------------------------------------------------------------------
  // Collisions
  // ---------------------------------------------------------------------

  /** The query in `playerCollisions`: both colliders are asked, the doors
      first, and a door contact overrides the static world's answer. */
  function LegacyProbe(intersect: (Octree, Capsule) -> Contact, doors: Octree, world: Octree, c: Capsule): (p: Probe)
    ensures p.queried == [DoorsTree, WorldTree]
  {
    var doorHit := intersect(doors, c);
    var worldHit := intersect(world, c);
    Probe(if doorHit.NoContact? then worldHit else doorHit, [DoorsTree, WorldTree])
  }

  /** Querying both colliders finds the contact the later revision finds by
      asking the static world only when no door was touched; the later
      revision's queries are a prefix of these. */
  lemma ProbesAgree(intersect: (Octree, Capsule) -> Contact, doors: Octree, world: Octree, c: Capsule)
    ensures LegacyProbe(intersect, doors, world, c).contact == ProbeContact(intersect, doors, world, c).contact
    ensures ProbeContact(intersect, doors, world, c).queried <= LegacyProbe(intersect, doors, world, c).queried
  {
  }

  /** The response half of `playerCollisions`: on the floor exactly when the
      normal points upwards at all; otherwise the velocity slides along the
      surface; either way the capsule is pushed out along the normal. */
  function LegacyCollisions(p: Player, contact: Contact): (r: Player)
    ensures contact.NoContact? ==> r == p.(onFloor := false)
    ensures contact.Hit? ==> (r.onFloor <==> contact.normal.y > 0.0)
    ensures contact.Hit? && r.onFloor ==> r.velocity == p.velocity
    ensures contact.Hit? ==> Sub(r.collider.start, p.collider.start) == Scale(contact.normal, contact.depth)
    ensures Segment(r.collider) == Segment(p.collider) && r.collider.radius == p.collider.radius
  {
    match contact
    case NoContact => p.(onFloor := false)
    case Hit(n, depth) =>
      var onFloor := n.y > 0.0;
      var v := if onFloor then p.velocity else Slide(p.velocity, n);
      Player(Translate(p.collider, Scale(n, depth)), v, onFloor)
  }

  /** The earlier floor test is the weaker one: whatever the later revision
      stands on, the earlier one stands on too. */
  lemma FloorTestWeaker(p: Player, contact: Contact)
    ensures PlayerCollisions(p, contact).onFloor ==> LegacyCollisions(p, contact).onFloor
  {
  }

  /** The two responses differ only in the floor test: when it gives the
      same answer, so does the whole collision step. */
  lemma CollisionsAgree(p: Player, contact: Contact)
    ensures LegacyCollisions(p, contact) == PlayerCollisions(p, contact) <==>
              (contact.Hit? ==> (contact.normal.y > 0.0 <==> contact.normal.y == 1.0))
  {
    if contact.Hit? && (contact.normal.y > 0.0 <==> contact.normal.y != 1.0) {
      assert LegacyCollisions(p, contact).onFloor != PlayerCollisions(p, contact).onFloor;
    }
  }

  /** On a 37-degree slope the earlier revision stands while the later one
      slides. */
  lemma SlopeIsFloorOnlyInLegacy(p: Player, depth: real)
    ensures LegacyCollisions(p, Hit(Vec3(0.6, 0.8, 0.0), depth)).onFloor
    ensures !PlayerCollisions(p, Hit(Vec3(0.6, 0.8, 0.0), depth)).onFloor
  {
  }

  // ---------------------------------------------------------------------
  // Integration
  // ---------------------------------------------------------------------

  /** The velocity the earlier `updatePlayer` moves with: as in the later
      revision, except that in the air 10 times `dt` is subtracted from the
      vertical speed. */
  function LegacyIntegrate(v: Vec3, onFloor: bool, dt: real, decay: real): (v1: Vec3)
    ensures onFloor ==> v1 == Scale(v, decay)
    ensures !onFloor ==>
              v1 == Scale(Vec3(v.x, v.y - LEGACY_GRAVITY * dt, v.z), 1.0 - AIR_RESISTANCE + AIR_RESISTANCE * decay)
  {
    var damping := decay - 1.0;
    var vg := if onFloor then v else v.(y := v.y - LEGACY_GRAVITY * dt);
    var d := if onFloor then damping else damping * AIR_RESISTANCE;
    Add(vg, Scale(vg, d))
  }

  /** On the floor both revisions integrate alike. */
  lemma FloorIntegrationAgrees(v: Vec3, dt: real, decay: real)
    ensures LegacyIntegrate(v, true, dt, decay) == Integrate(v, true, dt, decay)
  {
  }

  /** In the air the earlier revision pulls harder: with a non-negative
      decay and a positive step its vertical speed ends up lower by 0.19
      times `dt` times the air damping factor, and the horizontal speed is
      the same. */
  lemma LegacyFallsFaster(v: Vec3, dt: real, decay: real)
    requires dt > 0.0 && decay >= 0.0
    ensures LegacyIntegrate(v, false, dt, decay).x == Integrate(v, false, dt, decay).x
    ensures LegacyIntegrate(v, false, dt, decay).z == Integrate(v, false, dt, decay).z
    ensures LegacyIntegrate(v, false, dt, decay).y < Integrate(v, false, dt, decay).y
  {
    var k := 1.0 - AIR_RESISTANCE + AIR_RESISTANCE * decay;
    assert k > 0.0;
    assert LegacyIntegrate(v, false, dt, decay).y == (v.y - 10.0 * dt) * k;
    assert Integrate(v, false, dt, decay).y == (v.y - 9.81 * dt) * k;
    assert dt * k > 0.0;
  }

  /** The player after the earlier `updatePlayer` moved it and
      `playerCollisions` resolved the contact. */
  function LegacyMovePlayer(p: Player, dt: real, decay: real, intersect: (Octree, Capsule) -> Contact,
                            doors: Octree, world: Octree): (r: Player)
    ensures var v1 := LegacyIntegrate(p.velocity, p.onFloor, dt, decay);
            var moved := Translate(p.collider, Scale(v1, dt));
            var contact := LegacyProbe(intersect, doors, world, moved).contact;
            && (contact.NoContact? ==> r == Player(moved, v1, false))
            && (contact.Hit? ==>
                  && Sub(r.collider.start, p.collider.start) == Add(Scale(v1, dt), Scale(contact.normal, contact.depth))
                  && (r.onFloor <==> contact.normal.y > 0.0)
                  && (contact.normal.y > 0.0 ==> r.velocity == v1)
                  && (contact.normal.y <= 0.0 ==> r.velocity == Slide(v1, contact.normal)))
    ensures Segment(r.collider) == Segment(p.collider) && r.collider.radius == p.collider.radius
  {
    var v1 := LegacyIntegrate(p.velocity, p.onFloor, dt, decay);
    var moved := Translate(p.collider, Scale(v1, dt));
    LegacyCollisions(Player(moved, v1, p.onFloor), LegacyProbe(intersect, doors, world, moved).contact)
  }

  /** `updatePlayer`: the player moves and the perspective camera follows
      the top of the capsule; nothing else changes. */
  function LegacyUpdatePlayer(w: LegacyWorld, dt: real, or: Oracles): (r: LegacyWorld)
    ensures r.player == LegacyMovePlayer(w.player, dt, or.decay(dt), or.intersect, w.doorsOctree, w.octree)
    ensures r.camera.position == r.player.collider.end
    ensures r == w.(player := r.player, camera := w.camera.(position := r.camera.position))
  {
    var p := LegacyMovePlayer(w.player, dt, or.decay(dt), or.intersect, w.doorsOctree, w.octree);
    w.(player := p, camera := w.camera.(position := p.collider.end))
  }

  // ---------------------------------------------------------------------
  // Keyboard
  // ---------------------------------------------------------------------

  /** The `keydown` and `keyup` listeners: the key's entry is set to `true`
      or `false`, and only a `true` entry counts as held. */
  function LegacyKeyDown(w: LegacyWorld, code: string): (r: LegacyWorld)
    ensures code in r.keys && r == w.(keys := r.keys)
    ensures forall k :: k != code ==> (k in r.keys <==> k in w.keys)
  {
    w.(keys := w.keys + {code})
  }

  function LegacyKeyUp(w: LegacyWorld, code: string): (r: LegacyWorld)
    ensures code !in r.keys && r == w.(keys := r.keys)
    ensures forall k :: k != code ==> (k in r.keys <==> k in w.keys)
  {
    w.(keys := w.keys - {code})
  }

  /** Pressing and releasing a key that was up leaves the keyboard as it was. */
  lemma KeyDownUp(w: LegacyWorld, code: string)
    requires code !in w.keys
    ensures LegacyKeyUp(LegacyKeyDown(w, code), code) == w
  {
    assert LegacyKeyUp(LegacyKeyDown(w, code), code).keys == w.keys;
  }

  /** The `keypress` listener as far as this model reaches: C switches
      between the two cameras. F and E call into the flashlight and the
      house of the `objects` module, which is not part of this model, and
      leave this state alone. */
  function LegacyKeyPress(w: LegacyWorld, code: string): (r: LegacyWorld)
    ensures code == "KeyC" ==> r.cameraType == (if w.cameraType == 0 then 1 else 0)
    ensures r == w.(cameraType := r.cameraType)
    ensures code != "KeyC" ==> r == w
  {
    if code == "KeyC" then w.(cameraType := if w.cameraType == 0 then 1 else 0) else w
  }

  /** Pressing C twice gets the first camera back exactly when the camera
      index is one of the two cameras. */
  lemma CameraSwitchTwice(w: LegacyWorld)
    ensures LegacyKeyPress(LegacyKeyPress(w, "KeyC"), "KeyC") == w <==> w.cameraType in {0, 1}
  {
  }

  // ---------------------------------------------------------------------
  // The frame
  // ---------------------------------------------------------------------

  /** One substep of `render`: controls, player update, respawn, picking
      ray, door animation. The player moves against the doors collider as it
      stood before this substep's door animation. */
  function LegacySubstep(w: LegacyWorld, dt: real, or: LegacyOracles): (r: LegacyWorld)
    ensures r.camera.position == r.player.collider.end
    ensures r.doorsOctree == or.animate(w.doorsOctree, dt)
    ensures r.octree == w.octree && r.keys == w.keys && r.cameraType == w.cameraType
    ensures var p1 := Controls(w.player, w.keys, or.base.heading(w.camera.rotation), dt);
            var p2 := LegacyMovePlayer(p1, dt, or.base.decay(dt), or.base.intersect, w.doorsOctree, w.octree);
            (r.player, r.camera) == Respawn(p2, w.camera.(position := p2.collider.end))
    ensures r.intersects == or.base.cast(r.camera)
  {
    var w1 := w.(player := Controls(w.player, w.keys, or.base.heading(w.camera.rotation), dt));
    var w2 := LegacyUpdatePlayer(w1, dt, or.base);
    var pc := Respawn(w2.player, w2.camera);
    var w3 := w2.(player := pc.0, camera := pc.1);
    var w4 := w3.(intersects := or.base.cast(w3.camera));
    w4.(doorsOctree := or.animate(w4.doorsOctree, dt))
  }

  /** The world after `n` substeps of length `dt`. */
  function LegacySubsteps(w: LegacyWorld, dt: real, or: LegacyOracles, n: nat): LegacyWorld
    decreases n
  {
    if n == 0 then w else LegacySubstep(LegacySubsteps(w, dt, or, n - 1), dt, or)
  }

  /** What every frame keeps: the capsule has one of its two shapes and the
      camera index names one of the two cameras. */
  predicate LegacyInv(w: LegacyWorld) {
    PlayerShape(w.player.collider) && w.cameraType in {0, 1}
  }

  lemma NewLegacyWorldInv(doorsOctree: Octree, octree: Octree)
    ensures LegacyInv(NewLegacyWorld(doorsOctree, octree))
  {
  }

  lemma LegacyKeyPressKeepsInv(w: LegacyWorld, code: string)
    requires LegacyInv(w)
    ensures LegacyInv(LegacyKeyPress(w, code))
  {
  }

  lemma LegacySubstepKeepsInv(w: LegacyWorld, dt: real, or: LegacyOracles)
    requires LegacyInv(w)
    ensures LegacyInv(LegacySubstep(w, dt, or))
  {
    var p1 := Controls(w.player, w.keys, or.base.heading(w.camera.rotation), dt);
    var w2 := LegacyUpdatePlayer(w.(player := p1), dt, or.base);
    ShapeKept(w.player.collider, w2.player.collider);
    RespawnKeepsShape(w2.player, w2.camera);
  }

  /** Any number of substeps keeps the invariant. */
  lemma {:induction false} LegacySubstepsKeepInv(w: LegacyWorld, dt: real, or: LegacyOracles, n: nat)
    requires LegacyInv(w)
    ensures LegacyInv(LegacySubsteps(w, dt, or, n))
    decreases n
  {
    if n > 0 {
      var prev := LegacySubsteps(w, dt, or, n - 1);
      LegacySubstepsKeepInv(w, dt, or, n - 1);
      LegacySubstepKeepsInv(prev, dt, or);
      assert LegacySubsteps(w, dt, or, n) == LegacySubstep(prev, dt, or);
    }
  }

  /** After at least one substep the camera sits at the top of the capsule. */
  lemma LegacySubstepsSyncCamera(w: LegacyWorld, dt: real, or: LegacyOracles, n: nat)
    requires n > 0
    ensures LegacySubsteps(w, dt, or, n).camera.position == LegacySubsteps(w, dt, or, n).player.collider.end
  {
    assert LegacySubsteps(w, dt, or, n) == LegacySubstep(LegacySubsteps(w, dt, or, n - 1), dt, or);
  }

  /** `render`: one frame of five equal substeps, the frame time capped as
      in the later revision. */
  method LegacyRender(w: LegacyWorld, raw: real, or: LegacyOracles) returns (r: LegacyWorld)
    ensures r == LegacySubsteps(w, FrameDelta(raw), or, STEPS_PER_FRAME)
    ensures r.camera.position == r.player.collider.end
    ensures LegacyInv(w) ==> LegacyInv(r)
  {
    r := RunLegacySubsteps(w, FrameDelta(raw), or, STEPS_PER_FRAME);
    LegacySubstepsSyncCamera(w, FrameDelta(raw), or, STEPS_PER_FRAME);
    if LegacyInv(w) {
      LegacySubstepsKeepInv(w, FrameDelta(raw), or, STEPS_PER_FRAME);
    }
  }

  /** The loop of `render`: `n` substeps of length `dt`. */
  method RunLegacySubsteps(w: LegacyWorld, dt: real, or: LegacyOracles, n: nat) returns (r: LegacyWorld)
    ensures r == LegacySubsteps(w, dt, or, n)
  {
    r := w;
    var i := 0;
    while i < n
      invariant 0 <= i <= n
      invariant r == LegacySubsteps(w, dt, or, i)
    {
      r := LegacySubstep(r, dt, or);
      i := i + 1;
    }
  }
}
