/** The interactive objects of the house: doors that swing open and shut,
    light switches wired to ceiling lights, and the player's flashlight. */
module Objects {
  import opened Options
  import opened Geometry

  // ---------------------------------------------------------------------
  // Doors
  // ---------------------------------------------------------------------

  const LIVING_DOOR: string := "living_door"
  const BEDROOM_DOOR: string := "bedroom_door"

  /** Angular speed of a swinging door, in radians per second. */
  const SWING_RATE: real := PI / 3.0

  /** The fully open pose, in normalised angle. Closed is 0. */
  const OPEN_BOUND: real := -PI / 2.0

  /** A door pivot: its name, its rotation about Y, and the two intent flags. */
  datatype Door = Door(name: string, rotationY: real, isOpening: bool, isClosing: bool)

  /** The `Door` constructor: a pivot with no rotation and no intent. */
  function NewDoor(name: string): (d: Door)
    ensures d.name == name && d.rotationY == 0.0
    ensures !d.isOpening && !d.isClosing
  {
    Door(name, 0.0, false, false)
  }

  /** What is subtracted from `rotation.y` so that each door reads 0 when
      closed: the living-room door is mounted turned by a quarter, the
      bedroom door by a half turn. */
  function ClosedOffset(name: string): real {
    (if name == LIVING_DOOR then PI / 2.0 else 0.0) + (if name == BEDROOM_DOOR then PI else 0.0)
  }

  /** The door's normalised angle, read the same way by `interact` and by
      `animate_door`. */
  function Angle(d: Door): real {
    d.rotationY - ClosedOffset(d.name)
  }

  /** The rotation that gives door `name` the normalised angle `a`. */
  function RotationFor(name: string, a: real): real {
    a + ClosedOffset(name)
  }

  /** Normalisation per door name, and its inverse. */
  lemma AngleByName(d: Door, a: real)
    ensures d.name == LIVING_DOOR ==> Angle(d) == d.rotationY - PI / 2.0
    ensures d.name == BEDROOM_DOOR ==> Angle(d) == d.rotationY - PI
    ensures d.name != LIVING_DOOR && d.name != BEDROOM_DOOR ==> Angle(d) == d.rotationY
    ensures Angle(d.(rotationY := RotationFor(d.name, a))) == a
  {
  }

  /** Neither both flags at once: the door is never opening and closing. */
  predicate Exclusive(d: Door) {
    !(d.isOpening && d.isClosing)
  }

  /** At rest: no swing under way. */
  predicate Settled(d: Door) {
    !d.isOpening && !d.isClosing
  }

  /** `Door.interact`. Both tests run in order and the second one wins where
      they overlap, so on [-π/2, 0] -- which includes the closed pose 0 --
      the press means "close", and only a door turned past 0 starts opening. */
  function Interact(d: Door): (r: Door)
    ensures r.name == d.name && r.rotationY == d.rotationY
    ensures r.isOpening != r.isClosing
    ensures r.isClosing <==> Angle(d) <= 0.0
    ensures r.isOpening <==> Angle(d) > 0.0
  {
    var a := Angle(d);
    var d1 := if a >= OPEN_BOUND then d.(isOpening := true, isClosing := false) else d;
    if a <= 0.0 then d1.(isOpening := false, isClosing := true) else d1
  }

  /** One `animate_door` call: the door afterwards, and the argument of the
      collider-rebuild callback if it was called. */
  datatype DoorStep = DoorStep(door: Door, rebuild: Option<bool>)

  /** `Door.animate_door`. Past a bound, the callback receives the flag that
      points beyond it, and the flag is cleared; then whichever flag is still
      set turns the door at `SWING_RATE`. */
  function AnimateDoor(d: Door, dt: real): (s: DoorStep)
    ensures s.door.name == d.name
    ensures Angle(d) < OPEN_BOUND ==>
              s.rebuild == Some(d.isOpening) && !s.door.isOpening && s.door.isClosing == d.isClosing
    ensures Angle(d) > 0.0 ==>
              s.rebuild == Some(d.isClosing) && !s.door.isClosing && s.door.isOpening == d.isOpening
    ensures OPEN_BOUND <= Angle(d) <= 0.0 ==>
              s.rebuild == None && s.door.isOpening == d.isOpening && s.door.isClosing == d.isClosing
    ensures s.door.rotationY == d.rotationY
              - (if s.door.isOpening then SWING_RATE * dt else 0.0)
              + (if s.door.isClosing then SWING_RATE * dt else 0.0)
  {
    var a := Angle(d);
    var s1 := if a < OPEN_BOUND then DoorStep(d.(isOpening := false), Some(d.isOpening))
              else DoorStep(d, None);
    var s2 := if a > 0.0 then DoorStep(s1.door.(isClosing := false), Some(s1.door.isClosing))
              else s1;
    var d3 := if s2.door.isOpening then s2.door.(rotationY := s2.door.rotationY - SWING_RATE * dt)
              else s2.door;
    var d4 := if d3.isClosing then d3.(rotationY := d3.rotationY + SWING_RATE * dt) else d3;
    DoorStep(d4, s2.rebuild)
  }

  /** Inside its bounds a closing door turns back by the swing of one tick. */
  lemma ClosingTick(d: Door, dt: real)
    requires d.isClosing && !d.isOpening && OPEN_BOUND <= Angle(d) <= 0.0
    ensures AnimateDoor(d, dt).door.isClosing && !AnimateDoor(d, dt).door.isOpening
    ensures Angle(AnimateDoor(d, dt).door) == Angle(d) + SWING_RATE * dt
    ensures Angle(d) == 0.0 && dt > 0.0 ==> Angle(AnimateDoor(d, dt).door) > 0.0
  {
    if dt > 0.0 {
      SwingPositive(dt);
    }
  }

  lemma SwingPositive(dt: real)
    requires dt > 0.0
    ensures SWING_RATE * dt > 0.0
  {
    assert PI / 3.0 > 1.0;
  }

  /** A press of the interaction key on the door, or one animation tick. */
  datatype DoorAction = Press | Tick(dt: real)

  /** A door after a run of actions, with the rebuild arguments it emitted in order. */
  datatype DoorRun = DoorRun(door: Door, events: seq<bool>)

  function Act(d: Door, a: DoorAction): DoorRun {
    match a
    case Press => DoorRun(Interact(d), [])
    case Tick(dt) =>
      var s := AnimateDoor(d, dt);
      DoorRun(s.door, if s.rebuild.Some? then [s.rebuild.value] else [])
  }

  function Run(d: Door, acts: seq<DoorAction>): DoorRun
    decreases |acts|
  {
    if |acts| == 0 then DoorRun(d, [])
    else
      var first := Act(d, acts[0]);
      var rest := Run(first.door, acts[1..]);
      DoorRun(rest.door, first.events + rest.events)
  }

  /** How many times the callback was asked to rebuild. */
  function CountTrue(events: seq<bool>): nat {
    if |events| == 0 then 0 else (if events[0] then 1 else 0) + CountTrue(events[1..])
  }

  predicate AllTicks(acts: seq<DoorAction>) {
    forall i :: 0 <= i < |acts| ==> acts[i].Tick?
  }

  /** One action keeps the flags exclusive. */
  lemma ActKeepsExclusive(d: Door, a: DoorAction)
    requires Exclusive(d)
    ensures Exclusive(Act(d, a).door)
  {
  }

  /** Across any interleaving of presses and ticks, a door that starts with
      exclusive flags is never opening and closing at once. */
  lemma {:induction false} ExclusiveAlways(d: Door, acts: seq<DoorAction>)
    requires Exclusive(d)
    ensures Exclusive(Run(d, acts).door)
    decreases |acts|
  {
    if |acts| > 0 {
      ActKeepsExclusive(d, acts[0]);
      ExclusiveAlways(Act(d, acts[0]).door, acts[1..]);
    }
  }

  /** The swing range reachable with ticks no longer than `maxDt`. */
  predicate InSwing(d: Door, maxDt: real) {
    OPEN_BOUND - SWING_RATE * maxDt <= Angle(d) <= SWING_RATE * maxDt
  }

  /** One action stays in the swing range. */
  lemma ActKeepsSwing(d: Door, a: DoorAction, maxDt: real)
    requires InSwing(d, maxDt)
    requires a.Tick? ==> 0.0 <= a.dt <= maxDt
    ensures InSwing(Act(d, a).door, maxDt)
  {
    if a.Tick? {
      var s := AnimateDoor(d, a.dt);
      assert Angle(s.door) - Angle(d) == s.door.rotationY - d.rotationY;
      assert 0.0 <= SWING_RATE * a.dt <= SWING_RATE * maxDt;
    }
  }

  /** Bounded swing: from the swing range (the closed pose, for one), a door
      never turns further than one tick past either bound. */
  lemma {:induction false} SwingBounded(d: Door, acts: seq<DoorAction>, maxDt: real)
    requires InSwing(d, maxDt)
    requires forall i :: 0 <= i < |acts| && acts[i].Tick? ==> 0.0 <= acts[i].dt <= maxDt
    ensures InSwing(Run(d, acts).door, maxDt)
    decreases |acts|
  {
    if |acts| > 0 {
      ActKeepsSwing(d, acts[0], maxDt);
      SwingBounded(Act(d, acts[0]).door, acts[1..], maxDt);
    }
  }

  /** A settled door does not move and never asks for a rebuild. */
  lemma {:induction false} SettledStaysPut(d: Door, acts: seq<DoorAction>)
    requires Settled(d) && AllTicks(acts)
    ensures Run(d, acts).door == d
    ensures CountTrue(Run(d, acts).events) == 0
    decreases |acts|
  {
    if |acts| > 0 {
      var first := Act(d, acts[0]);
      assert first.door == d;
      assert CountTrue(first.events) == 0;
      SettledStaysPut(d, acts[1..]);
      CountTrueAppend(first.events, Run(d, acts[1..]).events);
    }
  }

  lemma {:induction false} CountTrueAppend(a: seq<bool>, b: seq<bool>)
    ensures CountTrue(a + b) == CountTrue(a) + CountTrue(b)
    decreases |a|
  {
    if |a| == 0 {
      assert a + b == b;
    } else {
      assert (a + b)[1..] == a[1..] + b;
      CountTrueAppend(a[1..], b);
    }
  }

  /** Edge-triggered rebuild: without presses, the callback is asked to
      rebuild at most once -- the tick that crosses the bound clears the
      flag, and every later call passes `false`. */
  lemma {:induction false} AtMostOneRebuild(d: Door, acts: seq<DoorAction>)
    requires Exclusive(d) && AllTicks(acts)
    ensures CountTrue(Run(d, acts).events) <= 1
    decreases |acts|
  {
    if |acts| > 0 {
      var first := Act(d, acts[0]);
      var s := AnimateDoor(d, acts[0].dt);
      CountTrueAppend(first.events, Run(first.door, acts[1..]).events);
      if s.rebuild == Some(true) {
        assert Settled(first.door);
        SettledStaysPut(first.door, acts[1..]);
      } else {
        assert CountTrue(first.events) == 0;
        ActKeepsExclusive(d, acts[0]);
        AtMostOneRebuild(first.door, acts[1..]);
      }
    }
  }

  /** The first press on a closed door: it turns the "closing" way, passes 0
      on the first tick and is stopped, with one rebuild, on the next. */
  lemma ClosedDoorFirstPress(d: Door, dt1: real, dt2: real)
    requires Angle(d) == 0.0 && Settled(d)
    requires dt1 > 0.0
    ensures Run(d, [Press, Tick(dt1), Tick(dt2)])
              == DoorRun(d.(rotationY := d.rotationY + SWING_RATE * dt1), [true])
  {
    var d1 := Interact(d);
    var s1 := AnimateDoor(d1, dt1);
    assert s1.door == d.(rotationY := d.rotationY + SWING_RATE * dt1, isClosing := true);
    assert Angle(s1.door) > 0.0;
    var s2 := AnimateDoor(s1.door, dt2);
    assert s2 == DoorStep(d.(rotationY := d.rotationY + SWING_RATE * dt1), Some(true));
    assert [Press, Tick(dt1), Tick(dt2)][1..] == [Tick(dt1), Tick(dt2)];
    assert [Tick(dt1), Tick(dt2)][1..] == [Tick(dt2)];
    assert Run(s2.door, []) == DoorRun(s2.door, []);
    assert Run(s1.door, [Tick(dt2)]) == DoorRun(s2.door, [true]);
    assert Run(d1, [Tick(dt1), Tick(dt2)]) == DoorRun(s2.door, [true]);
  }

  // ---------------------------------------------------------------------
  // Lights
  // ---------------------------------------------------------------------

  /** Power of a lit ceiling light. */
  const CEILING_ON_POWER: real := 150.0

  /** Power of a lit flashlight. */
  const FLASHLIGHT_ON_POWER: real := 20.0

  /** The point light inside a `CeilingLight`, reduced to its power. */
  datatype CeilingLight = CeilingLight(power: real)

  /** The `CeilingLight` constructor leaves the bulb switched off. */
  function NewCeilingLight(): (l: CeilingLight)
    ensures l.power == 0.0
  {
    CeilingLight(0.0)
  }

  /** `CeilingLight.on_off_light`: a dark light is lit, anything else goes dark. */
  function OnOffLight(l: CeilingLight): (r: CeilingLight)
    ensures l.power == 0.0 ==> r.power == CEILING_ON_POWER
    ensures l.power != 0.0 ==> r.power == 0.0
  {
    CeilingLight(if l.power == 0.0 then CEILING_ON_POWER else 0.0)
  }

  predicate CeilingPowerValid(l: CeilingLight) {
    l.power == 0.0 || l.power == CEILING_ON_POWER
  }

  /** Toggling twice restores a light that is off or fully on. */
  lemma OnOffLightInvolution(l: CeilingLight)
    requires CeilingPowerValid(l)
    ensures CeilingPowerValid(OnOffLight(l))
    ensures OnOffLight(OnOffLight(l)) == l
  {
  }

  /** A light switch: its own rotation about X (fixed once built), the
      quarter turns its lever has made (the lever's Euler angle is
      -π/4 + lever·π/2, wrapped), and the ceiling light it drives. */
  datatype LightSwitch = LightSwitch(name: string, rotationX: real, lever: int, light: CeilingLight)

  /** The `LightSwitch` constructor: the plate is turned up by a quarter
      about X and the lever starts at its initial tilt. */
  function NewLightSwitch(name: string, light: CeilingLight): (s: LightSwitch)
    ensures s.name == name && s.light == light
    ensures s.rotationX == PI / 2.0 && s.lever == 0
  {
    LightSwitch(name, PI / 2.0, 0, light)
  }

  predicate LeverValid(s: LightSwitch) {
    0 <= s.lever < 4
  }

  /** `LightSwitch.interact`: the lever turns a quarter, in the direction the
      plate's own X rotation selects, and the light is toggled exactly once. */
  function SwitchInteract(s: LightSwitch): (r: LightSwitch)
    ensures LeverValid(r)
    ensures r.name == s.name && r.rotationX == s.rotationX
    ensures r.light == OnOffLight(s.light)
    ensures s.rotationX >= -PI / 4.0 ==> (r.lever - s.lever) % 4 == 1
    ensures s.rotationX < -PI / 4.0 ==> (s.lever - r.lever) % 4 == 1
  {
    var lever := if s.rotationX >= -PI / 4.0 then (s.lever + 1) % 4 else (s.lever + 3) % 4;
    s.(lever := lever, light := OnOffLight(s.light))
  }

  /** Since the plate never turns, two presses restore the light and four
      presses restore the lever too. */
  lemma SwitchPressCycle(s: LightSwitch)
    requires LeverValid(s) && CeilingPowerValid(s.light)
    ensures SwitchInteract(SwitchInteract(s)).light == s.light
    ensures SwitchInteract(SwitchInteract(SwitchInteract(SwitchInteract(s)))) == s
  {
    var s1 := SwitchInteract(s);
    var s2 := SwitchInteract(s1);
    var s3 := SwitchInteract(s2);
    var s4 := SwitchInteract(s3);
    OnOffLightInvolution(s.light);
    OnOffLightInvolution(OnOffLight(s.light));
    assert s2.light == s.light;
    assert s4.light == s.light;
    LeverCycle(s.lever, if s.rotationX >= -PI / 4.0 then 1 else 3);
  }

  /** Four equal quarter turns bring the lever back. */
  lemma LeverCycle(l: int, step: int)
    requires 0 <= l < 4 && (step == 1 || step == 3)
    ensures ((((l + step) % 4 + step) % 4 + step) % 4 + step) % 4 == l
  {
  }

  /** The flashlight carried by the camera, reduced to its power. */
  datatype Flashlight = Flashlight(power: real)

  /** The `Flashlight` constructor: off. */
  function NewFlashlight(): (f: Flashlight)
    ensures f.power == 0.0
  {
    Flashlight(0.0)
  }

  /** `Flashlight.turn_on_off`: a lit flashlight goes dark, any other lights up. */
  function TurnOnOff(f: Flashlight): (r: Flashlight)
    ensures f.power > 0.0 ==> r.power == 0.0
    ensures f.power <= 0.0 ==> r.power == FLASHLIGHT_ON_POWER
  {
    Flashlight(if f.power > 0.0 then 0.0 else FLASHLIGHT_ON_POWER)
  }

  predicate FlashlightPowerValid(f: Flashlight) {
    f.power == 0.0 || f.power == FLASHLIGHT_ON_POWER
  }

  /** The flashlight only ever shows power 0 or 20, and two presses restore it. */
  lemma TurnOnOffInvolution(f: Flashlight)
    requires FlashlightPowerValid(f)
    ensures FlashlightPowerValid(TurnOnOff(f))
    ensures TurnOnOff(TurnOnOff(f)) == f
  {
  }
}
