# Limb-drag state machine of a two-player climbing game

A Dafny model of the limb-drag core of a physics climbing game. It covers two
classes.

- `Draggable` is one limb (a hand or a foot). It can be highlighted, selected,
  dragged and released. Hazards can damage it for a while or for good. It counts
  its damage timer down once per frame, dispatches gamepad buttons, hurts an idle
  limb of another player on contact, and keeps a flag set of environmental effects.
- `PlayerControls` is one player. It owns its limbs and the single "current limb"
  slot. Selecting a limb first releases every owned limb. The player also owns the
  one-way permanent-damage flag, holds the torso still while a limb is current,
  mutes the torso while dragging, and tracks the global highest point.

The engine is reached only through a few side effects. They are plain fields here:

- the limb joint's motor speed (`motorSpeed`, with the speed stored at start in
  `myMotorSpeed`);
- whether the two segment joints run their motors (`motor1On`, `motor2On`);
- the limb body's type (`bodyType`);
- the torso body's `torsoKinematic`, `torsoFreezeRotation` and `torsoVelocity`;
- the torso audio's `torsoMuted`;
- the direction arrow's visibility and x-scale.

Ambient inputs become parameters:

- the global game state;
- the input device;
- the frame's elapsed time;
- the limb's world position and the pointer's world position;
- the button states and stick axes (`Gamepad.PadInput`);
- the static `highestPoint` (passed in and returned);
- the engine's square root.

Because Dafny cannot define an exact square root on `real`, the engine's square root
is a parameter `sqrt`. The model requires only that it returns the non-negative
root (`Geometry.IsSquareRoot`). Vector lengths come from it. Every length test is
also stated on the squared length: "longer than 1" is `|d|² > 1`, and "shorter
than 0.05" is `|d|² < 0.0025`.

Files and modules:

- `geometry.dfy` (`Geometry`): vectors, squared length, length and normalisation.
- `globals.dfy` (`Globals`): game state, input device, player slot, body type.
- `effects.dfy` (`Effects`): the `[Flags]` environmental effects. A 32-bit flag
  word is modelled as the set of its one-bit positions (`&` is intersection, `|`
  is union, `& ~e` is difference).
- `dragtypes.dfy` (`DragTypes`): the limb kind, a 32-bit enum, and its display name.
- `countdown.dfy` (`Countdown`): the damage timer as a function, with lemmas over
  runs of frames.
- `gamepad.dfy` (`Gamepad`): which of Select, Drag or Release a gamepad frame calls.
- `heights.dfy` (`Heights`): the highest-point scan over child transforms.
- `climbing.dfy` (`Climbing`): the classes `Draggable` and `PlayerControls`. They
  refer to each other, so they share one module.
- `scenarios.dfy` (`Scenarios`): short call sequences on fresh objects that show
  how the operations combine.

Where the intended design and the code differ, the model follows the code:

- `Damage` has no guard. A second hit overwrites a running timer; it does not
  ignore it. Damage does not clear `dragActive` or the player's current limb.
- On contact, the rule checks whether the touching limb (`this`) is damaged, not
  the limb it hits. A limb that is already damaged therefore has its timer reset
  to one second by a new contact.
- `Release` has no "was this limb dragged" check. Releasing any undamaged limb
  clears the player's dragging flag.
- Because Damage keeps `dragActive` and selecting skips damaged limbs, one
  player can have two drag-active limbs at once: drag one, damage it, then
  select another (`Scenarios.TwoDragActiveLimbs`). The design expects exactly
  one.

## Model

| member | source | states |
|---|---|---|
| `Geometry.Normalized` | Draggable.cs:232 | Vector2.Normalize: for a length above 1e-5 the result has squared length 1 and is the input divided by its length; otherwise zero |
| `Geometry.MagnitudeBelow` | Draggable.cs:230-238 | a length is at most (below) a non-negative bound iff its squared length is at most (below) the bound squared, so the code's length tests equal the squared tests |
| `Geometry.Magnitude` | Draggable.cs:249 | the length is non-negative and squares to the squared length |
| `Geometry.MaxReal` | Draggable.cs:249 | Mathf.Max is an upper bound of both arguments and equals one of them |
| `Effects.Has` | Draggable.cs:381-384 | HasEffect(e) holds iff or-ing e into the flags changes nothing; HasEffect(None) always holds |
| `Effects.With` | Draggable.cs:393-398 | after AddEffect(e), HasEffect(e) holds and bits outside e are unchanged |
| `Effects.Without` | Draggable.cs:387-391 | RemoveEffect(e) clears every bit of e when all were present, changes nothing otherwise, and never touches bits outside e |
| `Effects.WithIdempotent` | Draggable.cs:393-398 | adding an effect twice is adding it once |
| `Effects.WithoutSingleClears` | Draggable.cs:387-391 | removing a flag of at most one bit leaves none of its bits set |
| `Effects.WithoutPartialKeeps` | Draggable.cs:387-391 | a two-bit flag of which only one bit is present is not removed at all |
| `Effects.WithWithoutInverse` | Draggable.cs:381-398 | remove after add clears exactly e's bits; add after remove sets them |
| `DragTypes.DragtypeToString` | Draggable.cs:341-356 | the name is "<INVALID TYPE>" exactly for values outside the four declared kinds; the hands are named "Right Hand"/"Left Hand" |
| `DragTypes.DeclaredNamesDistinct` | Draggable.cs:341-356 | the four declared kinds get four different names, so each limb's button name is its own |
| `Countdown.Tick` | Draggable.cs:119-129 | the timer moves only when positive and not permanent; it then never ends below zero, reaches exactly zero iff the frame time covers it, and otherwise loses the frame time |
| `Countdown.ExpiredStays` | Draggable.cs:119 | a timer at or below zero never moves |
| `Countdown.ExpiresAfterDuration` | Draggable.cs:119-129 | temporary damage of duration d is over (timer exactly 0) once frames totalling at least d have elapsed |
| `Countdown.DamagedBeforeDuration` | Draggable.cs:119-129 | before d seconds have elapsed the timer is still positive, holding exactly d minus the elapsed time |
| `Countdown.PermanentFreezes` | Draggable.cs:119 | while damage is permanent no run of frames changes the timer |
| `Countdown.NeverBelowZero` | Draggable.cs:119-129 | a timer starting at or above zero never ends below zero |
| `Gamepad.Dispatch` | Draggable.cs:135-153 | pointer input dispatches nothing; a button press always selects; a held button drags only the current limb, to the position offset by 0.6 times the axes; a button-up releases only when neither applies |
| `Heights.RaiseHighest` | PlayerControls.cs:159-166 | the result is at least the previous highest point and every counted transform's height, and is either the previous point or one of those transforms' positions |
| `Climbing.Draggable.constructor` | Draggable.cs:39-113 | a new limb is idle, undamaged, without effects and ownerless; the motor speed read at start becomes the stored original |
| `Climbing.Draggable.Damaged` | Draggable.cs:87-89 | a limb is damaged whenever its player is damaged for good or its timer is running, and undamaged once the timer is at or below zero and the player is not damaged for good |
| `Climbing.Draggable.Highlight` | Draggable.cs:161-176 | when playing and undamaged the hover flag becomes `enter`; otherwise it is unchanged |
| `Climbing.Draggable.Select` | Draggable.cs:182-218 | when playing and undamaged: the limb is drag-active and current, the player is dragging, the motor speed is the negated stored speed even on a repeated select, the segment motors are off, every other undamaged limb of the player is released and damaged ones are untouched; the limb's own body becomes dynamic when the player owns it (its self-release); segment motors of a limb without both segment joints are never touched; otherwise nothing changes |
| `Climbing.Draggable.Drag` | Draggable.cs:224-254 | when playing and undamaged: the direction is the offset, normalised only when longer than 1, so its squared length is at most 1; the body is static iff the squared length is below 0.0025; the arrow scale is max(length, 0.5), within [0.5, 1]; the player is dragging; otherwise nothing changes |
| `Climbing.Draggable.Release` | Draggable.cs:260-304 | when playing and undamaged: not drag-active, motor speed restored, segment motors on, body dynamic, player not dragging, and the player's slot cleared only if it held this limb; otherwise nothing changes |
| `Climbing.Draggable.Damage` | Draggable.cs:310-332 | unguarded: the timer becomes `duration` (overwriting), the upper segment's motor is off, the player's permanent flag is set when `duration` is 0 and never cleared, the player stops dragging, the torso is let go with zero velocity, and `dragActive` is untouched |
| `Climbing.Draggable.TickDamage` | Draggable.cs:119-129 | the timer becomes `Countdown.Tick` of the old timer; the upper segment's motor comes back on exactly when the timer runs out |
| `Climbing.Draggable.Update` | Draggable.cs:116-155 | the timer advances by one tick, and the upper segment's motor comes back on when it runs out; the arrow shows the drag flag from before the frame; hover and effects never change; the gamepad action chosen by `Gamepad.Dispatch`, when the guards allow it after the tick, has exactly Select's, Drag's or Release's effect on this limb, its player and its other limbs; with no action or a refused one nothing else changes |
| `Climbing.Draggable.HandlePad` | Draggable.cs:133-153 | nothing with keyboard and mouse; with a gamepad, the action `Gamepad.Dispatch` picks has Select's, Drag's or Release's full effect when the limb may act, and otherwise nothing changes; hover, timer, effects and arrow visibility are never touched |
| `Climbing.Draggable.OnTriggerEnter` | Draggable.cs:360-368 | the other limb takes one second of damage iff it exists, belongs to a player with another ID, is not drag-active and this limb is not damaged; otherwise nothing changes; when it lands the other player is damaged for good no more than before, stops dragging and lets go of the torso with zero velocity; the other player's ID, current limb, limbs and mute are always kept; this limb and its player never change |
| `Climbing.Draggable.OnMouseOver` | Draggable.cs:406-410 | with keyboard and mouse, hover is set as Highlight(true) does; with a gamepad nothing changes |
| `Climbing.Draggable.OnMouseExit` | Draggable.cs:412-416 | with keyboard and mouse, hover is cleared as Highlight(false) does; with a gamepad nothing changes |
| `Climbing.Draggable.OnMouseDown` | Draggable.cs:419-423 | with keyboard and mouse, Select's full contract: drag-active and current, motor reversed, segment motors off, the player's other undamaged limbs released; with a gamepad nothing changes |
| `Climbing.Draggable.OnMouseDrag` | Draggable.cs:426-430 | with keyboard and mouse, Drag's full contract towards the pointer: the clamped direction, static iff shorter than 0.05, the arrow scale; with a gamepad nothing changes |
| `Climbing.Draggable.OnMouseUp` | Draggable.cs:432-436 | with keyboard and mouse, Release's full contract: released, player not dragging, the slot cleared only if it held this limb; with a gamepad nothing changes |
| `Climbing.Draggable.HasEffect` | Draggable.cs:381-384 | HasEffect(None) always holds |
| `Climbing.Draggable.AddEffect` | Draggable.cs:393-398 | afterwards HasEffect(e) holds, bits outside e are unchanged, and an effect already present changes nothing (idempotence) |
| `Climbing.Draggable.RemoveEffect` | Draggable.cs:387-391 | when e was fully present none of its bits remain; otherwise nothing changes; bits outside e are unchanged |
| `Climbing.PlayerControls.constructor` | PlayerControls.cs:17-28 | a new player is not dragging, not damaged, and has no current limb |
| `Climbing.PlayerControls.Init` | PlayerControls.cs:68-71 | the player slot becomes the given ID |
| `Climbing.PlayerControls.Start` | PlayerControls.cs:81-101 | dragging and permanent damage are reset; the highest point is the highest non-root child position, or zero if none is higher; every owned limb points back to this player and is otherwise unchanged |
| `Climbing.PlayerControls.Update` | PlayerControls.cs:114-204 | outside play, or once damaged for good, nothing changes; while playing the torso is muted iff dragging, kinematic and rotation-frozen iff a limb is current (then with zero velocity), and the highest point never decreases and covers every hand |
| `Climbing.PlayerControls.Damage` | PlayerControls.cs:211-215 | with at least one limb, the player is damaged for good and stops dragging; every limb reports Damaged with timer 0 and its drag flag untouched |
| `Climbing.PlayerControls.Select` | PlayerControls.cs:220-227 | every undamaged limb (when playing) is released and every other limb is untouched; segment motors of a limb without both segment joints are never touched; afterwards the current limb is `d` |
| `Scenarios.TwoDragActiveLimbs` | Draggable.cs:310-332 | drag one limb, damage it, select another: both limbs of the player are drag-active, the damaged one is still damaged, and the second is current |
| `Scenarios.RepeatContactResets` | Draggable.cs:360-368 | a limb still damaged from a first contact is hit again and its timer goes back up to the full second |

## Left out

- Audio (one-shot clips, random pitch, stopping, the `userRelease` choice of release sounds): presentation, with no state the core reads.
- Sprite tints, the cursor sprite, outline colours, sorting orders, `SetTriggers` on the limb parts and `Cursor.visible`: presentation and collider switches owned by classes that are not part of this model.
- `body.AddForce` with its force constant and the arrow's rotation via `Atan2`: engine physics and trigonometry. Only the clamp, the static/dynamic decision and the arrow scale are kept.
- The FREEHOLD and PAUSED branches of `PlayerControls.Update` and the pause/free-hold/settings calls in the PLAYING branch: they go through `LevelManager`, which is not part of this model. The model keeps only their effect on the modelled state, which is none.
- `InputManager` and `InputAdapter` polling and `Camera.ScreenToWorldPoint`: their results are parameters.
- The `DragtypeString` getter and the `playerTransform` assignment: a direct call of `DragtypeToString`, and an engine reference.
- Float arithmetic: durations, positions and the 0.6 sensitivity are exact `real`s, so single-precision rounding is not modelled.
- Climbing.Draggable.RemoveEffect: "no bit of e remains" is proved only when e was fully present, and for every e of at most one bit (`Effects.WithoutSingleClears`). The code removes nothing when a multi-bit e is only partly present (`Effects.WithoutPartialKeeps`).
- Climbing.Draggable.Drag: requires the engine's square root as a parameter that returns the non-negative root. Unity's own float square root is not modelled.
- Climbing.Draggable.Damage: requires the upper segment's joint to exist, because the code dereferences it without a check. `TickDamage` and `Update` require it only when the timer can run out, and `OnTriggerEnter` only when the hit lands.
