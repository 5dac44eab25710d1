# CG-Project house walk-through: doors, interaction and player movement

A Dafny model of the control logic of a small three.js scene: a house the
player walks through in first person, with doors that swing, light switches
and a flashlight. This model covers four pieces:

- **Door state machine** (`Objects`): `Door.interact` and
  `Door.animate_door` drive two intent flags over a per-door normalised
  angle. While a flag is set, the door turns at π/3 rad/s. Once the door
  passes a bound, it calls an edge-triggered "rebuild the doors collider"
  callback. The light switch, ceiling light and flashlight power toggles
  are modelled in the same module.
- **House registry and dispatch** (`Houses`, `JsMap`):
  - `House.build` keeps name-keyed `Map`s of doors and interactables.
    `JsMap` models a JavaScript `Map` with its insertion order and
    overwrite-in-place rule.
  - `check_interactions` dispatches the interaction key to the nearest
    picked object.
  - `updateWorldOctree` rebuilds the doors collider.
  - `animate_doors` ticks every door.
  - `HouseBuilder.build` feeds the static scene to the world collider
    before the doors exist.
- **Player movement substeps** (`Worlds`, `Geometry`): a frame of
  `World.render` is five equal substeps. Each substep runs keyboard
  steering and jumping, then gravity and damping, then translation, then
  collision response (doors collider first), then camera sync, the
  out-of-bounds respawn and the door animation.
- **Earlier revision of the integrator** (`Legacy`): the loop local to
  `main` in js/app.js. Gravity is a subtracted 10, the floor test is
  `normal.y > 0`, and both colliders are queried every time. Lemmas state
  how it agrees with the later revision and how it differs.

Numbers are exact `real`s. The library calls are parameters, gathered in
`Worlds.Oracles`:
- the octree capsule test;
- `Math.exp(-4 dt)`;
- the camera's horizontal viewing direction;
- the picking ray.

A collision octree is represented by the list of scene nodes it was fed.

Files:
- options.dfy
- geometry.dfy
- objects.dfy
- jsmap.dfy
- house.dfy
- world.dfy
- legacy.dfy

## Model

| member | source | states |
|---|---|---|
| Objects.NewDoor | src/js/objects.ts:346-351 | a new door has its name, no rotation, and neither the opening nor the closing flag set |
| Objects.AngleByName | src/js/objects.ts:366-368 | the normalised angle is `rotation.y` minus π/2 for `living_door`, minus π for `bedroom_door`, and unchanged for any other name; `RotationFor` is its inverse |
| Objects.Interact | src/js/objects.ts:365-377 | after a press exactly one flag is set: closing iff the normalised angle is ≤ 0, opening iff it is > 0; the name and rotation are untouched |
| Objects.AnimateDoor | src/js/objects.ts:379-397 | past the open bound (< -π/2) the callback gets the opening flag, which is then cleared; past the closed bound (> 0) it gets the closing flag, which is then cleared; between the bounds there is no callback and both flags stay; the rotation then drops by π/3·dt if the door is still opening and rises by π/3·dt if it is still closing |
| Objects.ClosingTick | src/js/objects.ts:391-396 | a closing door inside its bounds turns back by π/3·dt and stays closing; from the closed pose, a tick of positive length takes it past 0 |
| Objects.ActKeepsExclusive | src/js/objects.ts:365-397 | one press or one tick never leaves both flags set if they were not both set before |
| Objects.ExclusiveAlways | src/js/objects.ts:365-397 | across any interleaving of presses and ticks, a door that starts with at most one flag set is never opening and closing at once |
| Objects.ActKeepsSwing | src/js/objects.ts:369-396 | one press, or one tick with 0 ≤ dt ≤ D, keeps the angle in [-π/2 - π/3·D, π/3·D] |
| Objects.SwingBounded | src/js/objects.ts:369-396 | from anywhere in [-π/2 - π/3·D, π/3·D] (the closed pose 0 included), any run of presses and ticks with 0 ≤ dt ≤ D stays in that range |
| Objects.SettledStaysPut | src/js/objects.ts:383-396 | a door with no flag set neither turns nor asks for a rebuild under any number of ticks |
| Objects.AtMostOneRebuild | src/js/objects.ts:383-390 | without presses, the callback receives `true` at most once: the tick that crosses a bound clears the flag, and every later call passes `false` |
| Objects.ClosedDoorFirstPress | src/js/objects.ts:365-397 | a press on a closed door at rest, then two ticks: the door turns the closing way by π/3·dt1, stops, and asks for exactly one rebuild |
| Objects.NewCeilingLight | src/js/objects.ts:283-284 | a new ceiling light is dark (power 0) |
| Objects.OnOffLight | src/js/objects.ts:295-297 | power 0 becomes 150, any other power becomes 0 |
| Objects.OnOffLightInvolution | src/js/objects.ts:295-297 | powers 0 and 150 are the only ones reached, and toggling twice restores them |
| Objects.NewLightSwitch | src/js/objects.ts:228-254 | a new switch has its name and light, a plate turned π/2 about X, and its lever at the initial tilt |
| Objects.SwitchInteract | src/js/objects.ts:256-262 | the lever makes a quarter turn, forwards when the plate's X rotation is ≥ -π/4 and backwards otherwise; the linked light is toggled exactly once |
| Objects.SwitchPressCycle | src/js/objects.ts:256-262 | two presses restore the light; four presses restore the whole switch |
| Objects.NewFlashlight | src/js/objects.ts:154-156 | a new flashlight is off (power 0) |
| Objects.TurnOnOff | src/js/objects.ts:161-163 | power > 0 becomes 0, anything else becomes 20 |
| Objects.TurnOnOffInvolution | src/js/objects.ts:161-163 | powers 0 and 20 are the only ones reached, and toggling twice restores them |
| JsMap.Get | src/js/house.ts:32 | a lookup is undefined exactly when the key is not in the map |
| JsMap.GetIsEntry | src/js/house.ts:32 | a value found under a key is the value of an entry with that key |
| JsMap.GetAt | src/js/house.ts:32 | in a map with unique keys, each entry's key finds that entry's value |
| JsMap.Set | src/js/house.ts:15-16 | after a `set`, keys stay unique and the key maps to the new value; every other key keeps its value; an existing key is overwritten in place, keeping the order of keys; a new key goes to the end |
| JsMap.FromEntries | src/js/house.ts:15-16 | `new Map(pairs)` holds exactly the keys of the pairs, each mapped to the last value paired with it |
| JsMap.LastValueDistinct | src/js/house.ts:15-16 | when the keys are distinct, each pair's value is the one its key ends up with |
| Houses.FromGraphNode | src/js/house.ts:43 | feeding nodes to an octree keeps what it indexed and adds exactly the new nodes |
| Houses.Build | src/js/house.ts:14-18 | the doors map has exactly the door names and the interactables map has exactly the door and switch names; with distinct names, each door is filed under its own name in both maps and each switch under its own name; the doors collider is the one handed in; exclusive flags stay exclusive |
| Houses.RestingRegistry | src/js/house.ts:14-18 | a house built from closed doors at rest registers only closed doors at rest |
| Houses.UpdateWorldOctree | src/js/house.ts:39-45 | with `false` the house is unchanged; with `true` the doors collider is replaced by one built from the current doors in map order; the registries are never touched |
| Houses.RebuildHoldsDoors | src/js/house.ts:39-45 | a rebuilt doors collider holds exactly the current geometry of the registered doors, one entry per door |
| Houses.RequestsRebuildExactly | src/js/objects.ts:383-390 | a tick calls back with `true` exactly when the door is past a bound while still turning towards it |
| Houses.TickAt | src/js/house.ts:20-24 | one door's tick changes only that door; when the door asks for a rebuild, the collider is first rebuilt from the doors as they stood; otherwise the collider is unchanged |
| Houses.AnimateFromKeepsCollider | src/js/house.ts:20-24 | when no remaining door asks for a rebuild, the doors collider is left alone |
| Houses.AnimateFromSnapshot | src/js/house.ts:20-24 | when some remaining door asks for a rebuild, the collider ends as a snapshot in which each door is caught either before or after its tick |
| Houses.AnimateDoors | src/js/house.ts:20-24 | animating the doors keeps the registries consistent and the doors' flags exclusive, and leaves the interactables alone |
| Houses.AnimateDoorsTicks | src/js/house.ts:20-24 | every registered door advances exactly once, with the same dt; the collider is unchanged when no door asks for a rebuild, and otherwise is a snapshot of the doors taken during the ticks |
| Houses.TicksKeepRegistry | src/js/house.ts:20-24 | ticking each door in place keeps the keys, the name filing and the flags' exclusivity |
| Houses.InteractWith | src/js/house.ts:32-35 | an unregistered name changes nothing; the doors collider is never touched |
| Houses.CheckInteractions | src/js/house.ts:26-37 | no hit, a nearest hit at distance ≥ 5, or a missing or empty parent name changes nothing; otherwise exactly the one object registered under that name is interacted with (a door through `Interact`, a switch through `SwitchInteract`) and every other entry is unchanged; an unregistered name changes nothing; the registries stay consistent and door flags exclusive |
| Houses.HouseDoors | src/js/house.ts:92-109 | the builder makes three doors, each closed under its own normalisation and at rest |
| Houses.HouseNames | src/js/house.ts:61-109 | the three doors and three switches have six distinct names |
| Houses.BuildHouse | src/js/house.ts:471-482 | the static collider is built before the doors exist, so it holds no door geometry; the doors collider holds exactly the scene's door nodes; the house files its three doors and three switches under their names, every door closed and at rest |
| Houses.UpdateWorldOctreeOnDoor | src/js/house.ts:94 | the callback as wired returns for `false` and throws for `true` |
| Houses.AnimateFromAsWritten | src/js/house.ts:20-24 | the wired callback aborts the loop exactly when a remaining door asks for a rebuild; otherwise the loop completes with the corrected result |
| Houses.AnimateDoorsAsWritten | src/js/house.ts:20-24 | one `animate_doors` call as wired completes exactly when no door asks for a rebuild, and then agrees with `AnimateDoors` |
| Houses.PressAtRest | src/js/house.ts:26-37 | pressing on a door in a house at rest leaves no door asking for a rebuild; the pressed door is closing from its closed pose |
| Houses.ClosingPassesBound | src/js/objects.ts:391-396 | a door closing from its closed pose asks for a rebuild after one tick of positive length |
| Houses.RequestAborts | src/js/house.ts:20-24 | an `animate_doors` call in which some door asks for a rebuild throws as wired; once corrected, it rebuilds the collider as a snapshot |
| Houses.UnboundCallbackAbortsSecondTick | src/js/house.ts:94 | in any house at rest, after a press on a door the next `animate_doors` call completes and the one after it throws as wired; corrected, that call rebuilds the collider |
| Houses.FrontDoorAbortsSecondTick | src/js/house.ts:94 | in a freshly built house, after a press on `front_door` the second `animate_doors` call throws |
| Geometry.Translate | src/js/world.ts:180-181 | translating a capsule moves both endpoints by the offset and keeps its segment and radius |
| Geometry.TranslateCompose | src/js/world.ts:168-181 | two translations compose into one by the sum of the offsets |
| Geometry.SideIsPerpendicular | src/js/world.ts:189-204 | the side vector is horizontal, perpendicular to the forward vector, and as long as it |
| Worlds.NewWorld | src/js/world.ts:40-54 | the player starts at (3,0.8,2)-(3,2.5,2) with radius 0.2, still and airborne; the perspective camera is active, the flashlight is off, and no key is down |
| Worlds.FrameDelta | src/js/world.ts:106 | the substep length is at most 0.05/5 and non-negative for a non-negative frame time; a frame up to 0.05 s is split exactly into five substeps, and a longer frame is capped |
| Worlds.ProbeContact | src/js/world.ts:152-155 | the doors collider is queried first and its hit wins; the static octree is queried exactly when the doors report no contact |
| Worlds.PlayerCollisions | src/js/world.ts:151-170 | with no contact, only `onFloor` changes, to false; on a hit, `onFloor` iff the normal's y is exactly 1, the velocity is untouched on the floor, and the capsule is pushed by normal·depth, keeping its shape |
| Worlds.SlideStopsAtWall | src/js/world.ts:161-166 | against a non-floor unit normal, the velocity after the response has no component along the normal |
| Worlds.SlideKeepsTangent | src/js/world.ts:161-166 | the response leaves every velocity component perpendicular to the normal unchanged |
| Worlds.Integrate | src/js/world.ts:173-179 | on the floor, the velocity is scaled by exp(-4 dt); airborne, gravity -9.81·dt is added to vy, then the velocity is scaled by 0.9 + 0.1·exp(-4 dt) |
| Worlds.FloorDampingSlows | src/js/world.ts:173-179 | on the floor, a decay factor in [0,1] never increases the speed |
| Worlds.MovePlayer | src/js/world.ts:160-182 | the capsule moves by v·dt with the integrated velocity, and the contact found there is resolved: no contact leaves it airborne; a hit adds the push-out and sets `onFloor` by the floor test `normal.y == 1`; on the floor the integrated velocity is kept, against anything else it slides along the surface (its component along the normal removed); the capsule keeps its shape |
| Worlds.UpdatePlayer | src/js/world.ts:172-187 | after the move, the perspective camera sits at the top of the capsule and the orthographic camera at that point plus (1,0,2); nothing else in the world changes |
| Worlds.Controls | src/js/world.ts:206-223 | the collider and the floor flag are kept; Space on the floor sets vy to exactly 5; otherwise vy is unchanged |
| Worlds.ControlsNetPush | src/js/world.ts:206-223 | the velocity change is dt·(15 on the floor, 8 airborne) times (W−S) along the forward vector plus (D−A) along the side vector, followed by the jump |
| Worlds.OppositeKeysCancel | src/js/world.ts:210-221 | holding W and S together, or A and D together, is the same as holding neither |
| Worlds.SameInput | src/js/world.ts:206-223 | two key sets with the same net input and the same Space state steer alike |
| Worlds.KeyDown | src/js/world.ts:94 | `keydown` adds its code to the held keys and changes nothing else |
| Worlds.KeyUp | src/js/world.ts:95 | `keyup` removes its code from the held keys and changes nothing else |
| Worlds.KeyPress | src/js/world.ts:137-149 | F toggles the flashlight, C switches between the perspective and orthographic cameras, E dispatches the last picking result to the house, and any other key changes nothing |
| Worlds.Respawn | src/js/world.ts:225-234 | above height -5 nothing changes; at or below it, the capsule is reset to (0,0.5,10)-(0,2,10) with radius 0.35, and the camera moves to its top with zero rotation; the velocity is kept |
| Worlds.RespawnIdempotent | src/js/world.ts:225-234 | a respawned player is in bounds, so a second check changes nothing |
| Worlds.RespawnAtBoundary | src/js/world.ts:226 | a camera exactly at height -5 triggers the reset |
| Worlds.Substep | src/js/world.ts:107-115 | the player and camera after one substep are, in order, steering, moving against the doors collider as it stood before this substep's door animation (then the static octree), the camera following the capsule top, and the out-of-bounds respawn; the orthographic camera follows the capsule top before the respawn, which leaves it alone; the picking result is the ray cast from the camera after the respawn, which is what a later E press dispatches on; then every door is animated once; the static octree, the keys, the flashlight and the camera choice are kept |
| Worlds.SubstepKeepsInv | src/js/world.ts:107-115 | a substep keeps the registries consistent, the door flags exclusive, the flashlight at 0 or 20, and the capsule at one of its two shapes |
| Worlds.SubstepsKeepInv | src/js/world.ts:105-118 | any number of substeps keeps that invariant |
| Worlds.SubstepsSyncCamera | src/js/world.ts:105-118 | after at least one substep, the camera is at the top of the capsule |
| Worlds.KeyPressKeepsInv | src/js/world.ts:137-149 | key presses keep the invariant |
| Worlds.NewWorldInv | src/js/world.ts:40-54 | a new world over a valid house satisfies the invariant |
| Worlds.Render | src/js/world.ts:105-118 | a frame runs five substeps of the capped length; afterwards the camera is at the top of the capsule, and the invariant is kept |
| Worlds.RunSubsteps | src/js/world.ts:107-115 | the loop runs exactly `n` substeps in order |
| Legacy.NewLegacyWorld | js/app.js:13-29 | the player starts at the same capsule, still and airborne, with camera 0 active |
| Legacy.SameStart | js/app.js:18-25 | both revisions start the player identically |
| Legacy.LegacyProbe | js/app.js:93-95 | both colliders are queried every time, doors first |
| Legacy.ProbesAgree | js/app.js:93-95 | the contact used is the same as the later revision's, and the later revision's queries are a prefix of these |
| Legacy.LegacyCollisions | js/app.js:92-105 | with no contact the player is airborne and otherwise unchanged; on a hit, `onFloor` iff normal.y > 0, the velocity is untouched on the floor, and the capsule is pushed by normal·depth |
| Legacy.FloorTestWeaker | js/app.js:98 | whatever the later floor test accepts, the earlier one accepts too |
| Legacy.CollisionsAgree | js/app.js:96-103 | the two responses coincide exactly when the two floor tests agree on the contact |
| Legacy.SlopeIsFloorOnlyInLegacy | js/app.js:98 | on a slope with normal (0.6,0.8,0), the earlier revision stands and the later one slides |
| Legacy.LegacyIntegrate | js/app.js:108-114 | on the floor, the velocity is scaled by exp(-4 dt); airborne, 10·dt is subtracted from vy, then the velocity is scaled by 0.9 + 0.1·exp(-4 dt) |
| Legacy.FloorIntegrationAgrees | js/app.js:108-114 | on the floor both revisions integrate alike |
| Legacy.LegacyFallsFaster | js/app.js:109-113 | airborne with dt > 0, the horizontal velocity agrees with the later revision and the vertical one ends lower |
| Legacy.LegacyMovePlayer | js/app.js:96-117 | the capsule moves by v·dt with the earlier integration and resolves the contact with the earlier response: no contact leaves it airborne; a hit adds the push-out and sets `onFloor` by `normal.y > 0`; on the floor the velocity is kept, otherwise it slides along the surface; the capsule keeps its shape |
| Legacy.LegacyUpdatePlayer | js/app.js:107-119 | after the move the camera is at the top of the capsule, and nothing else changes |
| Legacy.LegacyKeyDown | js/app.js:73 | `keydown` marks its code held and changes nothing else |
| Legacy.LegacyKeyUp | js/app.js:74 | `keyup` marks its code released and changes nothing else |
| Legacy.KeyDownUp | js/app.js:73-74 | pressing and releasing a key that was up restores the keyboard |
| Legacy.LegacyKeyPress | js/app.js:76-89 | C switches camera 0 to 1 and anything else to 0; other keys change nothing in the modelled state |
| Legacy.CameraSwitchTwice | js/app.js:86-88 | pressing C twice restores the camera choice exactly when it was 0 or 1 |
| Legacy.LegacySubstep | js/app.js:213-222 | the player and camera after a substep are, in order, steering, moving with the earlier integration and collision response against the doors collider from before the door animation, the camera following the capsule top, and the respawn; the picking result is the ray cast from the camera after the respawn; the doors collider is then what the door animation makes of it; the static octree, the keys and the camera choice are kept |
| Legacy.NewLegacyWorldInv | js/app.js:13-29 | the starting state has a capsule of the start shape and camera choice 0 |
| Legacy.LegacyKeyPressKeepsInv | js/app.js:76-89 | key presses keep the capsule shape and the camera choice in {0,1} |
| Legacy.LegacySubstepKeepsInv | js/app.js:213-222 | a substep keeps that invariant |
| Legacy.LegacySubstepsKeepInv | js/app.js:211-225 | any number of substeps keeps that invariant |
| Legacy.LegacySubstepsSyncCamera | js/app.js:211-225 | after at least one substep, the camera is at the top of the capsule |
| Legacy.LegacyRender | js/app.js:211-225 | a frame runs five substeps of the capped length; the camera ends at the top of the capsule and the invariant is kept |
| Legacy.RunLegacySubsteps | js/app.js:213-222 | the loop runs exactly `n` substeps in order |

The keyboard steering of js/app.js:136-156 is the same code as
src/js/world.ts:206-223, so `Legacy.LegacySubstep` reuses `Worlds.Controls`.
The same holds for the respawn of js/app.js:158-166, which reuses
`Worlds.Respawn`.

## Left out

- **Library calls.** These are oracle parameters in `Worlds.Oracles`, not
  computed: `Octree.capsuleIntersect`, `Math.exp(-4 * dt)`, the camera's
  `getWorldDirection` followed by dropping y and `normalize()`, and the
  picking ray (`Raycaster.setFromCamera` / `intersectObjects`). Properties
  that need a unit contact normal or a decay factor in [0,1] take these as
  preconditions.
- **Octree internals.** An octree is the sequence of scene nodes it was fed.
  How it partitions triangles is not modelled.
- **Floating point.** All arithmetic is exact `real`. π is the decimal
  3.141592653589793. The floor test `normal.y === 1` is exact equality on
  reals.
- **Scene construction and rendering.**
  - Not modelled: meshes, materials, textures, the fence, the porch lights,
    the NPC, the windows, and the walls, floor, roof and furniture that
    `HouseBuilder.with*` builds.
  - These are reduced to named static nodes in the order `build` adds them.
  - The furniture and tree models loaded asynchronously join the world
    octree later. This model does not follow them.
- **The DOM and event plumbing.** Not modelled: the renderer,
  `requestAnimationFrame`, window resize, pointer lock, mouse tracking and
  `console.log`. The clock's frame time is a parameter of `Worlds.Render`
  and `Legacy.LegacyRender`.
- **The orthographic camera.** Its position is modelled. Its `lookAt`
  orientation (src/js/world.ts:186) is not.
- **The picking ray at src/js/world.ts:113.** The line is garbled
  (`intersectassets/objects`). The picking result is an oracle of the camera
  alone (`Worlds.Oracles.cast`). The mouse position and the current poses
  of the interactable objects are not arguments; they are folded into the
  oracle.
- **Worlds.Substep, Worlds.Substeps and Worlds.Render: the door callback.**
  These model the door callback as bound: they run the corrected
  `Houses.AnimateDoors`. As written, the first rebuild request throws out of
  `render` and stops the render loop (see Findings).
- **Objects.SwitchInteract: the lever angle.** The lever's angle is
  modelled as a count of quarter turns modulo 4, not as the Euler angle
  three.js stores.
- **Objects.SwitchInteract: the plate's X rotation.** This is the plate's
  own rotation about X. `rotateZ` in `withCeilingLights` leaves its
  XYZ-Euler X angle at π/2, which is what `Houses.HouseSwitches` records.
- **Worlds.Respawn: velocity.** The velocity is kept, as in both
  revisions.
- **Worlds.PlayerCollisions: the floor test.** It tests `normal.y == 1`
  exactly.
- **The `objects` module of js/app.js.** That module (its `House` and
  `Flashlight`) is not part of this model. So:
  - the `KeyF` and `KeyE` branches of the earlier key handler are not
    modelled;
  - what its `House.animate_doors` does to the doors collider is an oracle
    (`Legacy.LegacyOracles.animate`).
- **Legacy.LegacyKeyPress: F and E.** It leaves the state unchanged for F
  and E, because the flashlight and house they act on come from that
  module.
- **Houses.CheckInteractions: the `Valid` precondition.** It requires the
  registries to be consistent (each door filed under its own name, and a
  door entry among the interactables also among the doors). Every house
  `Build` produces has consistent registries, and every step keeps them.
  The code never meets a house without this.
- **Worlds.KeyPress: the `Valid` precondition.** It requires the same
  thing, for the same reason.
- **Worlds.NewWorld: the full camera state.** The cameras start at the
  origin with no rotation. Their projection parameters are rendering detail.

## Findings

| source | as written | input that shows it | evidently intended | confidence | as-written member | corrected member |
|---|---|---|---|---|---|---|
| src/js/house.ts:94 | `withDoors` hands `this.house.updateWorldOctree` to each door without binding it. The door calls it as its own property, so `this` is the door. With `true`, the method stores a stray `doorsOctree` on the door and then reads `this.doors.values()`, which throws a TypeError. The exception leaves `animate_doors` and then `render` (src/js/world.ts:114), so `requestAnimationFrame` (src/js/world.ts:117) is never called again and the render loop stops. The callback runs before the flag is cleared (src/js/objects.ts:383-390), so any later entry into `render`, such as a window resize, throws again. | A freshly built house. Press E on `front_door` at distance 1, then render one frame with a positive frame time. The first substep's `animate_doors` turns the closing door past 0; the second substep's calls back with `true` and throws, inside that first frame. | The callback rebuilds the house's doors collider from the current doors, and the loop goes on with the next door. | not executed | Houses.AnimateDoorsAsWritten, Houses.FrontDoorAbortsSecondTick | Houses.AnimateDoors, Houses.AnimateDoorsTicks |
