/** The game loop of `World` in src/js/world.ts: the per-frame substeps that
    read the keyboard, integrate the player, resolve collisions against the
    doors collider and the static world, respawn a player who fell off the
    map, and animate the doors.

    The collision query, `Math.exp`, the camera's viewing direction and the
    picking ray are library calls whose results are not computed here: they
    come in through `Oracles`. */
module Worlds {
  import opened Options
  import opened Geometry
  import opened Objects
  import opened Houses

  // ---------------------------------------------------------------------
  // Constants
  // ---------------------------------------------------------------------

  const GRAVITY: real := -9.81
  const STEPS_PER_FRAME: nat := 5
  /** The longest frame time the loop will integrate, in seconds. */
  const MAX_FRAME: real := 0.05
  const FLOOR_ACCEL: real := 15.0
  const AIR_ACCEL: real := 8.0
  const AIR_RESISTANCE: real := 0.1
  const JUMP_SPEED: real := 5.0
  /** A camera at or below this height has fallen off the map. */
  const OOB_HEIGHT: real := -5.0

  /** Where the constructor puts the player. */
  const StartCollider: Capsule := Capsule(Vec3(3.0, 0.8, 2.0), Vec3(3.0, 2.5, 2.0), 0.2)
  /** Where a fallen player is put back. */
  const SpawnCollider: Capsule := Capsule(Vec3(0.0, 0.5, 10.0), Vec3(0.0, 2.0, 10.0), 0.35)
  /** Where the orthographic camera sits relative to the top of the player. */
  const OrthoOffset: Vec3 := Vec3(1.0, 0.0, 2.0)

  // ---------------------------------------------------------------------
  // State
  // ---------------------------------------------------------------------

  datatype Player = Player(collider: Capsule, velocity: Vec3, onFloor: bool)

  /** The perspective camera: where it is, and its Euler rotation. */
  datatype Camera = Camera(position: Vec3, rotation: Vec3)

  /** Everything a frame of `World` reads or writes. `ortho` is the position
      of the orthographic camera; `keys` is the set of key codes held down;
      `intersects` is what the last picking ray hit, nearest first. */
  datatype World = World(
    house: House,
    octree: Octree,
    player: Player,
    camera: Camera,
    ortho: Vec3,
    isPerspective: bool,
    flashlight: Flashlight,
    keys: set<string>,
    intersects: seq<Intersection>)

  /** The library calls the loop depends on: the octrees' capsule test, the
      decay factor `Math.exp(-4 * dt)`, the horizontal viewing direction for
      a camera rotation, and the picking ray cast from a camera. */
  datatype Oracles = Oracles(
    intersect: (Octree, Capsule) -> Contact,
    decay: real -> real,
    heading: Vec3 -> Heading,
    cast: Camera -> seq<Intersection>)

  /** The `World` constructor: the player stands at the start position,
      still and airborne; the cameras are at the origin; the flashlight is
      off; no key is down and the picking ray has hit nothing yet. */
  function NewWorld(house: House, octree: Octree): (w: World)
    ensures w.player.collider == StartCollider && w.player.velocity == Zero && !w.player.onFloor
    ensures w.isPerspective && w.flashlight.power == 0.0 && w.keys == {}
    ensures w.house == house && w.octree == octree
  {
    World(house, octree, Player(StartCollider, Zero, false), Camera(Zero, Zero), Zero,
          true, NewFlashlight(), {}, [])
  }

  // ---------------------------------------------------------------------
  // The frame clock
  // ---------------------------------------------------------------------

  /** The substep length `render` derives from the clock: the frame time,
      capped at `MAX_FRAME`, split evenly over the substeps. */
  function FrameDelta(raw: real): (dt: real)
    ensures dt <= MAX_FRAME / STEPS_PER_FRAME as real
    ensures raw >= 0.0 ==> dt >= 0.0
    ensures raw <= MAX_FRAME ==> dt * STEPS_PER_FRAME as real == raw
    ensures raw >= MAX_FRAME ==> dt == MAX_FRAME / STEPS_PER_FRAME as real
  {
    (if raw < MAX_FRAME then raw else MAX_FRAME) / STEPS_PER_FRAME as real
  }

  // ---------------------------------------------------------------------
  // Collisions
  // ---------------------------------------------------------------------

  /** The two octrees `playerCollisions` may ask. */
  datatype Structure = DoorsTree | WorldTree

  /** The contact found, and the octrees asked for it in order. */
  datatype Probe = Probe(contact: Contact, queried: seq<Structure>)

  /** The query in `playerCollisions`: the doors collider first, the static
      world only when no door was touched. */
  function ProbeContact(intersect: (Octree, Capsule) -> Contact, doors: Octree, world: Octree, c: Capsule): (p: Probe)
    ensures |p.queried| >= 1 && p.queried[0] == DoorsTree
    ensures WorldTree in p.queried <==> intersect(doors, c).NoContact?
    ensures intersect(doors, c).Hit? ==> p.contact == intersect(doors, c)
    ensures intersect(doors, c).NoContact? ==> p.contact == intersect(world, c)
  {
    var doorHit := intersect(doors, c);
    if doorHit.NoContact? then Probe(intersect(world, c), [DoorsTree, WorldTree])
    else Probe(doorHit, [DoorsTree])
  }

  /** The velocity with its component along `n` removed. */
  function Slide(v: Vec3, n: Vec3): Vec3 {
    Add(v, Scale(n, -Dot(n, v)))
  }

  /** The response half of `playerCollisions`: the player is on the floor
      exactly when the contact normal points straight up; against anything
      else the velocity slides along the surface; either way the capsule is
      pushed out along the normal by the depth. */
  function PlayerCollisions(p: Player, contact: Contact): (r: Player)
    ensures contact.NoContact? ==> r == p.(onFloor := false)
    ensures contact.Hit? ==> (r.onFloor <==> contact.normal.y == 1.0)
    ensures contact.Hit? && r.onFloor ==> r.velocity == p.velocity
    ensures contact.Hit? ==> Sub(r.collider.start, p.collider.start) == Scale(contact.normal, contact.depth)
    ensures Segment(r.collider) == Segment(p.collider) && r.collider.radius == p.collider.radius
  {
    match contact
    case NoContact => p.(onFloor := false)
    case Hit(n, depth) =>
      var onFloor := n.y == 1.0;
      var v := if onFloor then p.velocity else Slide(p.velocity, n);
      Player(Translate(p.collider, Scale(n, depth)), v, onFloor)
  }

  /** Against a wall with a unit normal the player no longer moves into or
      away from the wall. */
  lemma SlideStopsAtWall(p: Player, n: Vec3, depth: real)
    requires Dot(n, n) == 1.0 && n.y != 1.0
    ensures Dot(n, PlayerCollisions(p, Hit(n, depth)).velocity) == 0.0
  {
    DotAddScale(n, p.velocity, n, -Dot(n, p.velocity));
  }

  /** Sliding keeps every direction along the wall: the velocity's component
      along any `t` perpendicular to the normal is what it was. */
  lemma SlideKeepsTangent(p: Player, n: Vec3, depth: real, t: Vec3)
    requires Dot(t, n) == 0.0
    ensures Dot(t, PlayerCollisions(p, Hit(n, depth)).velocity) == Dot(t, p.velocity)
  {
    DotAddScale(t, p.velocity, n, -Dot(n, p.velocity));
  }

  // ---------------------------------------------------------------------
  // Integration
  // ---------------------------------------------------------------------

  /** The velocity `updatePlayer` moves with: on the floor the damping
      factor `decay = exp(-4 dt)` applies in full; in the air gravity is
      added first and a tenth of the damping applies. */
  function Integrate(v: Vec3, onFloor: bool, dt: real, decay: real): (v1: Vec3)
    ensures onFloor ==> v1 == Scale(v, decay)
    ensures !onFloor ==>
              v1 == Scale(Vec3(v.x, v.y + GRAVITY * dt, v.z), 1.0 - AIR_RESISTANCE + AIR_RESISTANCE * decay)
  {
    var damping := decay - 1.0;
    var vg := if onFloor then v else v.(y := v.y + GRAVITY * dt);
    var d := if onFloor then damping else damping * AIR_RESISTANCE;
    Add(vg, Scale(vg, d))
  }

  /** On the floor, a decay factor in [0, 1] never speeds the player up. */
  lemma FloorDampingSlows(v: Vec3, dt: real, decay: real)
    requires 0.0 <= decay <= 1.0
    ensures Dot(Integrate(v, true, dt, decay), Integrate(v, true, dt, decay)) <= Dot(v, v)
  {
    var v1 := Integrate(v, true, dt, decay);
    assert Dot(v1, v1) == decay * decay * Dot(v, v);
    assert decay * decay <= 1.0 by {
      assert decay * decay <= decay * 1.0;
    }
    assert Dot(v, v) >= 0.0;
    assert (1.0 - decay * decay) * Dot(v, v) >= 0.0;
  }

  /** The player after `updatePlayer` moved it and `playerCollisions`
      resolved the contact it ran into, the doors collider taking priority
      over the static world. */
  function MovePlayer(p: Player, dt: real, decay: real, intersect: (Octree, Capsule) -> Contact,
                      doors: Octree, world: Octree): (r: Player)
    ensures var v1 := Integrate(p.velocity, p.onFloor, dt, decay);
            var moved := Translate(p.collider, Scale(v1, dt));
            var contact := ProbeContact(intersect, doors, world, moved).contact;
            && (contact.NoContact? ==> r == Player(moved, v1, false))
            && (contact.Hit? ==>
                  && Sub(r.collider.start, p.collider.start) == Add(Scale(v1, dt), Scale(contact.normal, contact.depth))
                  && (r.onFloor <==> contact.normal.y == 1.0)
                  && (contact.normal.y == 1.0 ==> r.velocity == v1)
                  && (contact.normal.y != 1.0 ==> r.velocity == Slide(v1, contact.normal)))
    ensures Segment(r.collider) == Segment(p.collider) && r.collider.radius == p.collider.radius
  {
    var v1 := Integrate(p.velocity, p.onFloor, dt, decay);
    var moved := Translate(p.collider, Scale(v1, dt));
    PlayerCollisions(Player(moved, v1, p.onFloor), ProbeContact(intersect, doors, world, moved).contact)
  }

  /** `updatePlayer`: the player moves, and both cameras follow the top of
      the capsule; nothing else in the world changes. */
  function UpdatePlayer(w: World, dt: real, or: Oracles): (r: World)
    ensures r.player == MovePlayer(w.player, dt, or.decay(dt), or.intersect, w.house.doorsOctree, w.octree)
    ensures r.camera.position == r.player.collider.end
    ensures r.ortho == Add(r.player.collider.end, OrthoOffset)
    ensures r == w.(player := r.player, camera := w.camera.(position := r.camera.position), ortho := r.ortho)
  {
    var p := MovePlayer(w.player, dt, or.decay(dt), or.intersect, w.house.doorsOctree, w.octree);
    w.(player := p, camera := w.camera.(position := p.collider.end),
       ortho := Add(p.collider.end, OrthoOffset))
  }

  // ---------------------------------------------------------------------
  // Keyboard
  // ---------------------------------------------------------------------

  function Indicator(b: bool): real {
    if b then 1.0 else 0.0
  }

  /** Which of the four movement keys are held. */
  datatype Held = Held(w: bool, s: bool, a: bool, d: bool)

  function HeldKeys(keys: set<string>): Held {
    Held("KeyW" in keys, "KeyS" in keys, "KeyA" in keys, "KeyD" in keys)
  }

  /** `controls`: each of W, S, A, D held adds a push of `dt` times the
      acceleration along the camera's forward or side vector; a held Space
      on the floor sets the vertical speed to a jump. */
  function Controls(p: Player, keys: set<string>, h: Heading, dt: real): (r: Player)
    ensures r.collider == p.collider && r.onFloor == p.onFloor
    ensures "Space" in keys && p.onFloor ==> r.velocity.y == JUMP_SPEED
    ensures !("Space" in keys && p.onFloor) ==> r.velocity.y == p.velocity.y
  {
    p.(velocity := Jump(Steer(HeldKeys(keys), p.velocity, Forward(h), Side(h), Accel(p.onFloor, dt)),
                        "Space" in keys && p.onFloor))
  }

  /** A jump sets the vertical speed and keeps the horizontal one. */
  function Jump(v: Vec3, jumping: bool): Vec3 {
    if jumping then v.(y := JUMP_SPEED) else v
  }

  /** The four movement keys read in the order W, S, A, D: forward and back
      along `d`, left and right along `s`. */
  function Steer(held: Held, v: Vec3, d: Vec3, s: Vec3, k: real): Vec3 {
    Push(held.d, Push(held.a, Push(held.s, Push(held.w, v, d, k), d, -k), s, -k), s, k)
  }

  /** `velocity.add(direction.multiplyScalar(k))`, done only while the key is held. */
  function Push(held: bool, v: Vec3, d: Vec3, k: real): Vec3 {
    if held then Add(v, Scale(d, k)) else v
  }

  /** The speed change one held key gives in one substep. */
  function Accel(onFloor: bool, dt: real): real {
    dt * (if onFloor then FLOOR_ACCEL else AIR_ACCEL)
  }

  /** Two opposite keys read one after the other push by the difference of
      their indicators. */
  lemma PushPair(b1: bool, b2: bool, v: Vec3, d: Vec3, k1: real, k2: real, f: real, m: real)
    requires k2 == -k1 && f == Indicator(b1) - Indicator(b2) && m == k1 * f
    ensures Push(b2, Push(b1, v, d, k1), d, k2) == Add(v, Scale(d, m))
  {
  }

  /** The net input of the held keys: forward minus backward, right minus left. */
  datatype Input = Input(forward: real, sideways: real)

  function NetInput(held: Held): Input {
    Input(Indicator(held.w) - Indicator(held.s), Indicator(held.d) - Indicator(held.a))
  }

  /** The velocity a net input asks for, independent of the order the keys
      are read in: the forward input along the forward vector plus the
      sideways input along the side vector. */
  function NetVelocity(p: Player, input: Input, h: Heading, dt: real): Vec3 {
    var speed := Accel(p.onFloor, dt);
    Drive(p.velocity, Forward(h), Side(h), speed, input)
  }

  /** `v` pushed by `k` times the forward input along `d` and by `k` times
      the sideways input along `s`. */
  function Drive(v: Vec3, d: Vec3, s: Vec3, k: real, input: Input): Vec3 {
    Add(Add(v, Scale(d, k * input.forward)), Scale(s, k * input.sideways))
  }

  /** Reading the keys one by one adds up to the net input along each axis. */
  lemma SteerNet(held: Held, v: Vec3, d: Vec3, s: Vec3, k: real)
    ensures Steer(held, v, d, s, k) == Drive(v, d, s, k, NetInput(held))
  {
    var m1, m2 := k * NetInput(held).forward, k * NetInput(held).sideways;
    SteerPushes(held, v, d, s, k, m1, m2);
    DriveBy(v, d, s, k, NetInput(held), m1, m2);
  }

  /** The four pushes, with `m1` and `m2` the net pushes along `d` and `s`. */
  lemma SteerPushes(held: Held, v: Vec3, d: Vec3, s: Vec3, k: real, m1: real, m2: real)
    requires m1 == k * NetInput(held).forward && m2 == k * NetInput(held).sideways
    ensures Steer(held, v, d, s, k) == Add(Add(v, Scale(d, m1)), Scale(s, m2))
  {
    var v2 := Push(held.s, Push(held.w, v, d, k), d, -k);
    PushPair(held.w, held.s, v, d, k, -k, NetInput(held).forward, m1);
    PushPair(held.a, held.d, v2, s, -k, k, -NetInput(held).sideways, m2);
  }

  lemma DriveBy(v: Vec3, d: Vec3, s: Vec3, k: real, input: Input, m1: real, m2: real)
    requires m1 == k * input.forward && m2 == k * input.sideways
    ensures Drive(v, d, s, k, input) == Add(Add(v, Scale(d, m1)), Scale(s, m2))
  {
  }

  /** `controls` reaches the net velocity of the held keys; a jump then
      overrides the vertical speed. */
  lemma ControlsNetPush(p: Player, keys: set<string>, h: Heading, dt: real)
    ensures Controls(p, keys, h, dt).velocity
            == Jump(NetVelocity(p, NetInput(HeldKeys(keys)), h, dt), "Space" in keys && p.onFloor)
  {
    SteerNet(HeldKeys(keys), p.velocity, Forward(h), Side(h), Accel(p.onFloor, dt));
  }

  /** Opposite keys cancel: holding W and S together, or A and D together,
      moves the player as holding neither. */
  lemma OppositeKeysCancel(p: Player, keys: set<string>, h: Heading, dt: real)
    ensures Controls(p, keys + {"KeyW", "KeyS"}, h, dt) == Controls(p, keys - {"KeyW", "KeyS"}, h, dt)
    ensures Controls(p, keys + {"KeyA", "KeyD"}, h, dt) == Controls(p, keys - {"KeyA", "KeyD"}, h, dt)
  {
    MovementKeysDistinct();
    SameInput(p, keys + {"KeyW", "KeyS"}, keys - {"KeyW", "KeyS"}, h, dt);
    SameInput(p, keys + {"KeyA", "KeyD"}, keys - {"KeyA", "KeyD"}, h, dt);
  }

  /** The movement keys are five different codes. */
  lemma MovementKeysDistinct()
    ensures "KeyW" != "KeyS" && "KeyW" != "KeyA" && "KeyW" != "KeyD" && "KeyW" != "Space"
    ensures "KeyS" != "KeyA" && "KeyS" != "KeyD" && "KeyS" != "Space"
    ensures "KeyA" != "KeyD" && "KeyA" != "Space" && "KeyD" != "Space"
  {
    assert "KeyW"[3] == 'W' && "KeyS"[3] == 'S' && "KeyA"[3] == 'A' && "KeyD"[3] == 'D';
    assert |"Space"| == 5;
  }

  /** Two key sets with the same net input and the same jump key give the
      same controls. */
  lemma SameInput(p: Player, k1: set<string>, k2: set<string>, h: Heading, dt: real)
    requires NetInput(HeldKeys(k1)) == NetInput(HeldKeys(k2))
    requires "Space" in k1 <==> "Space" in k2
    ensures Controls(p, k1, h, dt) == Controls(p, k2, h, dt)
  {
    ControlsNetPush(p, k1, h, dt);
    ControlsNetPush(p, k2, h, dt);
  }

  /** The `keydown` and `keyup` listeners. */
  function KeyDown(w: World, code: string): (r: World)
    ensures code in r.keys && r == w.(keys := r.keys)
    ensures forall k :: k != code ==> (k in r.keys <==> k in w.keys)
  {
    w.(keys := w.keys + {code})
  }

  function KeyUp(w: World, code: string): (r: World)
    ensures code !in r.keys && r == w.(keys := r.keys)
    ensures forall k :: k != code ==> (k in r.keys <==> k in w.keys)
  {
    w.(keys := w.keys - {code})
  }

  /** `keyPress`: F toggles the flashlight, C swaps the cameras, E interacts
      with what the picking ray hit; any other key does nothing. */
  function KeyPress(w: World, code: string): (r: World)
    requires Valid(w.house)
    ensures code == "KeyF" ==> r == w.(flashlight := TurnOnOff(w.flashlight))
    ensures code == "KeyC" ==> r == w.(isPerspective := !w.isPerspective)
    ensures code == "KeyE" ==> r == w.(house := CheckInteractions(w.house, w.intersects).house)
    ensures code !in {"KeyF", "KeyC", "KeyE"} ==> r == w
  {
    if code == "KeyF" then w.(flashlight := TurnOnOff(w.flashlight))
    else if code == "KeyC" then w.(isPerspective := !w.isPerspective)
    else if code == "KeyE" then w.(house := CheckInteractions(w.house, w.intersects).house)
    else w
  }

  // ---------------------------------------------------------------------
  // Falling off the map
  // ---------------------------------------------------------------------

  /** `teleportPlayerIfOob` on the player and the camera: at or below the
      out-of-bounds height the capsule is put back at the spawn point and the
      camera onto its top, looking straight ahead. The velocity is kept. */
  function Respawn(p: Player, cam: Camera): (r: (Player, Camera))
    ensures cam.position.y > OOB_HEIGHT ==> r == (p, cam)
    ensures cam.position.y <= OOB_HEIGHT ==>
              && r.0 == p.(collider := SpawnCollider)
              && r.1 == Camera(SpawnCollider.end, Zero)
  {
    if cam.position.y > OOB_HEIGHT then (p, cam)
    else (p.(collider := SpawnCollider), Camera(SpawnCollider.end, Zero))
  }

  /** A respawned player is within bounds, so a second check does nothing. */
  lemma RespawnIdempotent(p: Player, cam: Camera)
    ensures var r := Respawn(p, cam); Respawn(r.0, r.1) == r
  {
  }

  /** The boundary height itself counts as out of bounds. */
  lemma RespawnAtBoundary(p: Player, cam: Camera)
    requires cam.position.y == OOB_HEIGHT
    ensures Respawn(p, cam).0.collider == SpawnCollider
  {
  }

  function TeleportIfOob(w: World): World {
    var pc := Respawn(w.player, w.camera);
    w.(player := pc.0, camera := pc.1)
  }

  // ---------------------------------------------------------------------
  // The frame
  // ---------------------------------------------------------------------

  /** One substep of `render`, in the source's order: controls, player
      update, respawn, picking ray, door animation. The player moves against
      the doors collider as it stood before this substep's door animation. */
  function Substep(w: World, dt: real, or: Oracles): (r: World)
    ensures r.camera.position == r.player.collider.end
    ensures r.house == AnimateDoors(w.house, dt)
    ensures r.octree == w.octree && r.keys == w.keys && r.flashlight == w.flashlight
    ensures r.isPerspective == w.isPerspective
    ensures var p1 := Controls(w.player, w.keys, or.heading(w.camera.rotation), dt);
            var p2 := MovePlayer(p1, dt, or.decay(dt), or.intersect, w.house.doorsOctree, w.octree);
            && (r.player, r.camera) == Respawn(p2, w.camera.(position := p2.collider.end))
            && r.ortho == Add(p2.collider.end, OrthoOffset)
    ensures r.intersects == or.cast(r.camera)
  {
    var w1 := w.(player := Controls(w.player, w.keys, or.heading(w.camera.rotation), dt));
    var w2 := UpdatePlayer(w1, dt, or);
    var w3 := TeleportIfOob(w2);
    var w4 := w3.(intersects := or.cast(w3.camera));
    w4.(house := AnimateDoors(w4.house, dt))
  }

  /** The world after `n` substeps of length `dt`. */
  function Substeps(w: World, dt: real, or: Oracles, n: nat): World
    decreases n
  {
    if n == 0 then w else Substep(Substeps(w, dt, or, n - 1), dt, or)
  }

  /** The capsule has one of the two shapes the source gives it: the
      constructor's or the spawn point's. */
  predicate PlayerShape(c: Capsule) {
    || (Segment(c) == Segment(StartCollider) && c.radius == StartCollider.radius)
    || (Segment(c) == Segment(SpawnCollider) && c.radius == SpawnCollider.radius)
  }

  /** What every frame keeps: the house's registries are consistent and no
      door is opening and closing at once, the flashlight is off or at full
      power, and the capsule keeps its shape. */
  predicate WorldInv(w: World) {
    && Valid(w.house) && DoorsExclusive(w.house)
    && FlashlightPowerValid(w.flashlight)
    && PlayerShape(w.player.collider)
  }

  lemma SubstepKeepsInv(w: World, dt: real, or: Oracles)
    requires WorldInv(w)
    ensures WorldInv(Substep(w, dt, or))
  {
    SubstepKeepsShape(w, dt, or);
  }

  /** Moving, colliding and respawning leave the capsule in one of its two shapes. */
  lemma SubstepKeepsShape(w: World, dt: real, or: Oracles)
    requires PlayerShape(w.player.collider)
    ensures PlayerShape(Substep(w, dt, or).player.collider)
  {
    var p1 := Controls(w.player, w.keys, or.heading(w.camera.rotation), dt);
    var w2 := UpdatePlayer(w.(player := p1), dt, or);
    ShapeKept(w.player.collider, w2.player.collider);
    RespawnKeepsShape(w2.player, w2.camera);
  }

  lemma ShapeKept(c: Capsule, c2: Capsule)
    requires PlayerShape(c) && Segment(c2) == Segment(c) && c2.radius == c.radius
    ensures PlayerShape(c2)
  {
    if Segment(c) == Segment(StartCollider) && c.radius == StartCollider.radius {
      assert Segment(c2) == Segment(StartCollider) && c2.radius == StartCollider.radius;
    } else {
      assert Segment(c2) == Segment(SpawnCollider) && c2.radius == SpawnCollider.radius;
    }
  }

  lemma RespawnKeepsShape(p: Player, cam: Camera)
    requires PlayerShape(p.collider)
    ensures PlayerShape(Respawn(p, cam).0.collider)
  {
  }

  /** A world built over a consistent house starts inside the invariant. */
  lemma NewWorldInv(house: House, octree: Octree)
    requires Valid(house) && DoorsExclusive(house)
    ensures WorldInv(NewWorld(house, octree))
  {
  }

  /** Keyboard events between frames keep the invariant. */
  lemma KeyPressKeepsInv(w: World, code: string)
    requires WorldInv(w)
    ensures WorldInv(KeyDown(w, code)) && WorldInv(KeyUp(w, code))
    ensures WorldInv(KeyPress(w, code))
  {
    if code == "KeyE" {
      var d := CheckInteractions(w.house, w.intersects);
      assert KeyPress(w, code) == w.(house := d.house);
    } else if code == "KeyF" {
      assert KeyPress(w, code).flashlight == TurnOnOff(w.flashlight);
    }
  }

  /** Any number of substeps keeps the world's invariant. */
  lemma {:induction false} SubstepsKeepInv(w: World, dt: real, or: Oracles, n: nat)
    requires WorldInv(w)
    ensures WorldInv(Substeps(w, dt, or, n))
    decreases n
  {
    if n > 0 {
      var prev := Substeps(w, dt, or, n - 1);
      SubstepsKeepInv(w, dt, or, n - 1);
      SubstepKeepsInv(prev, dt, or);
      assert Substeps(w, dt, or, n) == Substep(prev, dt, or);
    }
  }

  /** After at least one substep the camera sits at the top of the capsule. */
  lemma SubstepsSyncCamera(w: World, dt: real, or: Oracles, n: nat)
    requires n > 0
    ensures Substeps(w, dt, or, n).camera.position == Substeps(w, dt, or, n).player.collider.end
  {
    assert Substeps(w, dt, or, n) == Substep(Substeps(w, dt, or, n - 1), dt, or);
  }

  /** `World.render`: one frame of `STEPS_PER_FRAME` equal substeps. */
  method Render(w: World, raw: real, or: Oracles) returns (r: World)
    ensures r == Substeps(w, FrameDelta(raw), or, STEPS_PER_FRAME)
    ensures r.camera.position == r.player.collider.end
    ensures WorldInv(w) ==> WorldInv(r)
  {
    r := RunSubsteps(w, FrameDelta(raw), or, STEPS_PER_FRAME);
    SubstepsSyncCamera(w, FrameDelta(raw), or, STEPS_PER_FRAME);
    if WorldInv(w) {
      SubstepsKeepInv(w, FrameDelta(raw), or, STEPS_PER_FRAME);
    }
  }

  /** The loop of `render`: `n` substeps of length `dt`. */
  method RunSubsteps(w: World, dt: real, or: Oracles, n: nat) returns (r: World)
    ensures r == Substeps(w, dt, or, n)
  {
    r := w;
    var i := 0;
    while i < n
      invariant 0 <= i <= n
      invariant r == Substeps(w, dt, or, i)
    {
      r := Substep(r, dt, or);
      i := i + 1;
    }
  }

}
