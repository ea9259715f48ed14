/** The limb-drag state machine of a climbing character: a player object owns
    its limbs (Draggable, one per hand or foot) and the single "current limb"
    slot; a limb can be selected, dragged towards a target, released, damaged
    for a while or for good, and hurts an idle limb of another player that it
    touches. The engine is reached only through a few side effects, which are
    kept here as plain fields: the limb joint's motor speed, whether the two
    segment joints run their motors, the limb body's type, and the torso
    body's kinematic, rotation and velocity settings and audio mute.

    Draggable and PlayerControls refer to each other, so they share this
    module. */
module Climbing {
  import opened Geometry
  import opened Globals
  import opened DragTypes
  import Effects
  import Countdown
  import Gamepad
  import Heights

  /** dir_tolerance (0.05), squared: below it a dragged limb is pinned. */
  const DirToleranceSq: real := 0.0025

  /** Smallest x-scale of the direction arrow. */
  const MinArrowScale: real := 0.5

  /** Duration of the damage one limb deals to another on contact. */
  const ContactDamage: real := 1.0

  class Draggable {
    /** Set in the inspector or read once at Start, never changed afterwards. */
    const dragtype: DragType
    /** The limb joint's motor speed as read at Start. */
    const myMotorSpeed: real
    /** Whether the upper and the lower segment carry a hinge joint. */
    const hasMotorJoint1: bool
    const hasMotorJoint2: bool

    var player: PlayerControls?
    var dragActive: bool
    var dragOver: bool
    var dir: Vec2
    var bodyType: BodyType
    /** myJoint.motor.motorSpeed */
    var motorSpeed: real
    /** motorJoint1.useMotor and motorJoint2.useMotor */
    var motor1On: bool
    var motor2On: bool
    var damageDuration: real
    var currentEnvEffects: Effects.EnvEffect
    /** Whether the direction arrow is shown, and its x-scale. */
    var arrowActive: bool
    var arrowScaleX: real

    /** Field initialisers followed by Start: the joint's current motor speed
        becomes the stored original speed. */
    constructor (dragtype: DragType, jointMotorSpeed: real, hasMotorJoint1: bool, hasMotorJoint2: bool,
                 motor1On: bool, motor2On: bool, bodyType: BodyType, arrowScaleX: real)
      ensures this.dragtype == dragtype && myMotorSpeed == jointMotorSpeed && motorSpeed == jointMotorSpeed
      ensures this.hasMotorJoint1 == hasMotorJoint1 && this.hasMotorJoint2 == hasMotorJoint2
      ensures this.motor1On == motor1On && this.motor2On == motor2On
      ensures this.bodyType == bodyType && this.arrowScaleX == arrowScaleX
      ensures player == null && !dragActive && !dragOver && dir == Zero2 && !arrowActive
      ensures damageDuration == 0.0 && currentEnvEffects == Effects.None
    {
      this.dragtype := dragtype;
      myMotorSpeed := jointMotorSpeed;
      this.hasMotorJoint1 := hasMotorJoint1;
      this.hasMotorJoint2 := hasMotorJoint2;
      player := null;
      dragActive := false;
      dragOver := false;
      dir := Zero2;
      this.bodyType := bodyType;
      motorSpeed := jointMotorSpeed;
      this.motor1On := motor1On;
      this.motor2On := motor2On;
      damageDuration := 0.0;
      currentEnvEffects := Effects.None;
      arrowActive := false;
      this.arrowScaleX := arrowScaleX;
    }

    /** The Damaged property: the player is damaged for good, or this limb's
        timer is still running. */
    predicate Damaged(): (r: bool)
      requires player != null
      reads this, player
      // damage for good outlasts any timer
      ensures player.permanentDamage ==> r
      // a running timer means damaged, whatever the player's flag
      ensures damageDuration > 0.0 ==> r
      // an expired timer (zero or below) clears temporary damage
      ensures !player.permanentDamage && damageDuration <= 0.0 ==> !r
    {
      player.permanentDamage || damageDuration > 0.0
    }

    /** The two guards Highlight, Select, Drag and Release open with. */
    predicate MayAct(state: GameState)
      requires player != null
      reads this, player
    {
      state == Playing && !Damaged()
    }

    /** The state Release leaves the limb in. */
    predicate IsReleased()
      reads this
    {
      !dragActive && bodyType == Dynamic && motorSpeed == myMotorSpeed &&
      (hasMotorJoint1 && hasMotorJoint2 ==> motor1On && motor2On)
    }

    /** Everything Release does not touch is as it was. */
    twostate predicate ReleaseKeeps()
      reads this
    {
      player == old(player) && dragOver == old(dragOver) && dir == old(dir) &&
      damageDuration == old(damageDuration) && currentEnvEffects == old(currentEnvEffects) &&
      arrowActive == old(arrowActive) && arrowScaleX == old(arrowScaleX) &&
      (!(hasMotorJoint1 && hasMotorJoint2) ==> motor1On == old(motor1On) && motor2On == old(motor2On))
    }

    /** Everything Damage does not touch is as it was. */
    twostate predicate DamageKeeps()
      reads this
    {
      player == old(player) && dragActive == old(dragActive) && dragOver == old(dragOver) &&
      dir == old(dir) && bodyType == old(bodyType) && motorSpeed == old(motorSpeed) &&
      motor2On == old(motor2On) && currentEnvEffects == old(currentEnvEffects) &&
      arrowActive == old(arrowActive) && arrowScaleX == old(arrowScaleX)
    }

    /** Everything but the owner back-reference is as it was. */
    twostate predicate OwnerKeeps()
      reads this
    {
      dragActive == old(dragActive) && dragOver == old(dragOver) && dir == old(dir) &&
      bodyType == old(bodyType) && motorSpeed == old(motorSpeed) && motor1On == old(motor1On) &&
      motor2On == old(motor2On) && damageDuration == old(damageDuration) &&
      currentEnvEffects == old(currentEnvEffects) && arrowActive == old(arrowActive) &&
      arrowScaleX == old(arrowScaleX)
    }

    /** Pointer hover: remembers whether the pointer is over the limb. */
    method Highlight(state: GameState, enter: bool)
      requires player != null
      modifies this`dragOver
      ensures old(MayAct(state)) ==> dragOver == enter
      ensures !old(MayAct(state)) ==> dragOver == old(dragOver)
    {
      if state != Playing { return; }
      if player.permanentDamage || damageDuration > 0.0 { return; }
      dragOver := enter;
    }

    /** Takes control of this limb: the player first releases all its limbs
        and makes this one current, then the joint motor is reversed and the
        segment motors are switched off. */
    method Select(state: GameState)
      requires player != null && player.Valid()
      modifies this`dragActive, this`motorSpeed, this`motor1On, this`motor2On
      modifies player`dragging, player`currentDraggable, player.draggables
      ensures player == old(player) && player.draggables == old(player.draggables) && player.Valid()
      ensures ReleaseKeeps()
      ensures old(MayAct(state)) ==> bodyType == if this in old(player.draggables) then Dynamic else old(bodyType)
      ensures old(MayAct(state)) ==>
                dragActive && player.dragging && player.currentDraggable == this &&
                motorSpeed == -myMotorSpeed &&
                (hasMotorJoint1 && hasMotorJoint2 ==> !motor1On && !motor2On)
      ensures old(MayAct(state)) ==>
                forall d :: d in player.draggables && d != this ==>
                  d.ReleaseKeeps() && if old(d.Damaged()) then unchanged(d) else d.IsReleased()
      ensures !old(MayAct(state)) ==>
                unchanged(this) && unchanged(player) && forall d :: d in player.draggables ==> unchanged(d)
    {
      if state != Playing { return; }
      if player.permanentDamage || damageDuration > 0.0 { return; }

      player.Select(this, state);
      assert this in player.draggables ==> ReleaseKeeps();

      dragActive := true;
      motorSpeed := -myMotorSpeed;
      if hasMotorJoint1 && hasMotorJoint2 {
        motor1On := false;
        motor2On := false;
      }
      player.dragging := true;
    }

    /** Pulls the limb towards `cursorPosition` from its current `position`:
        the offset is normalised when longer than one, the body is pinned when
        the offset is shorter than the tolerance, and the arrow is scaled to
        the offset's length but never below one half. `sqrt` is the engine's
        square root. */
    method Drag(state: GameState, cursorPosition: Vec2, position: Vec2, sqrt: real -> real)
      requires player != null && IsSquareRoot(sqrt)
      modifies this`dir, this`bodyType, this`arrowScaleX, player`dragging
      ensures old(MayAct(state)) ==>
                var offset := Sub(cursorPosition, position);
                (SqMagnitude(offset) <= 1.0 ==> dir == offset) &&
                (SqMagnitude(offset) > 1.0 ==>
                   SqMagnitude(dir) == 1.0 && dir == Scale(offset, 1.0 / Magnitude(offset, sqrt)))
      ensures old(MayAct(state)) ==> SqMagnitude(dir) <= 1.0
      ensures old(MayAct(state)) ==>
                (bodyType == Static <==> SqMagnitude(dir) < DirToleranceSq) &&
                (bodyType == Dynamic <==> SqMagnitude(dir) >= DirToleranceSq)
      ensures old(MayAct(state)) ==>
                MinArrowScale <= arrowScaleX <= 1.0 && arrowScaleX == MaxReal(Magnitude(dir, sqrt), MinArrowScale)
      ensures old(MayAct(state)) ==> player.dragging
      ensures !old(MayAct(state)) ==> unchanged(this) && unchanged(player)
    {
      if state != Playing { return; }
      if player.permanentDamage || damageDuration > 0.0 { return; }

      dir := Sub(cursorPosition, position);
      MagnitudeBelow(dir, sqrt, 1.0);
      if Magnitude(dir, sqrt) > 1.0 {
        dir := Normalized(dir, sqrt);
      }

      MagnitudeBelow(dir, sqrt, 0.05);
      if Magnitude(dir, sqrt) < 0.05 {
        bodyType := Static;
      } else {
        bodyType := Dynamic;
      }

      MagnitudeBelow(dir, sqrt, 1.0);
      arrowScaleX := MaxReal(Magnitude(dir, sqrt), MinArrowScale);

      player.dragging := true;
    }

    /** Gives up control of this limb, whether or not it was being dragged:
        clears the player's slot if it held this limb, restores the joint
        motor and the segment motors, and frees the body. `userRelease` only
        chooses whether release sounds play. */
    method Release(state: GameState, userRelease: bool)
      requires player != null
      modifies this`dragActive, this`bodyType, this`motorSpeed, this`motor1On, this`motor2On
      modifies player`currentDraggable, player`dragging
      ensures old(MayAct(state)) ==> IsReleased() && !player.dragging
      ensures old(MayAct(state)) ==>
                player.currentDraggable == if old(player.currentDraggable) == this then null else old(player.currentDraggable)
      ensures !(hasMotorJoint1 && hasMotorJoint2) ==> motor1On == old(motor1On) && motor2On == old(motor2On)
      ensures !old(MayAct(state)) ==> unchanged(this) && unchanged(player)
    {
      if state != Playing { return; }
      if player.permanentDamage || damageDuration > 0.0 { return; }

      if player.currentDraggable == this {
        player.currentDraggable := null;
      }

      bodyType := Dynamic;
      motorSpeed := myMotorSpeed;

      if hasMotorJoint1 && hasMotorJoint2 {
        motor1On := true;
        motor2On := true;
      }

      dragActive := false;

      player.dragging := false;
    }

    /** Damage from a hazard, for `duration` seconds, or for good when
        `duration` is zero. There is no guard: a running timer is overwritten
        and a dragged limb stays drag-active. The torso is let go with the
        anchor velocity, which nothing ever sets and so is zero. */
    method Damage(duration: real)
      requires player != null && hasMotorJoint1
      modifies this`damageDuration, this`motor1On
      modifies player`permanentDamage, player`dragging, player`torsoKinematic, player`torsoFreezeRotation,
               player`torsoVelocity
      ensures damageDuration == duration && !motor1On
      ensures player.permanentDamage == (old(player.permanentDamage) || duration == 0.0)
      ensures Damaged() <==> old(player.permanentDamage) || duration >= 0.0
      ensures !player.dragging && !player.torsoKinematic && !player.torsoFreezeRotation && player.torsoVelocity == Zero2
      ensures DamageKeeps()
    {
      if duration == 0.0 {
        player.permanentDamage := true;
      }

      player.torsoKinematic := false;
      player.torsoFreezeRotation := false;
      player.torsoVelocity := Zero2;
      damageDuration := duration;
      motor1On := false;

      player.dragging := false;
    }

    /** One frame of the damage timer: it runs only while it is positive and
        the player is not damaged for good; when it runs out it is clamped to
        zero and the upper segment's motor comes back on. */
    method TickDamage(deltaTime: real)
      requires player != null
      requires hasMotorJoint1 || damageDuration <= 0.0 || player.permanentDamage
      modifies this`damageDuration, this`motor1On
      ensures damageDuration == Countdown.Tick(old(damageDuration), player.permanentDamage, deltaTime)
      ensures old(damageDuration) > 0.0 ==> damageDuration >= 0.0
      ensures motor1On == (if old(damageDuration) > 0.0 && !player.permanentDamage && damageDuration == 0.0
                           then true else old(motor1On))
    {
      if damageDuration > 0.0 && !player.permanentDamage {
        damageDuration := damageDuration - deltaTime;
        if damageDuration <= 0.0 {
          damageDuration := 0.0;
          motor1On := true;
        }
      }
    }

    /** The per-frame update: the damage timer, the arrow's visibility, and
        with a gamepad the dispatch of this limb's button to Select, Drag or
        Release, in that order of priority. `position` is the limb's position
        and `deltaTime` the frame time. */
    method Update(state: GameState, device: InputDevice, pad: Gamepad.PadInput, position: Vec2,
                  deltaTime: real, sqrt: real -> real)
      requires player != null && player.Valid() && IsSquareRoot(sqrt)
      requires hasMotorJoint1 || damageDuration <= 0.0 || player.permanentDamage
      modifies this, player`dragging, player`currentDraggable, player.draggables
      ensures player == old(player) && player.draggables == old(player.draggables) && player.Valid()
      ensures damageDuration == Countdown.Tick(old(damageDuration), old(player.permanentDamage), deltaTime)
      ensures arrowActive == old(dragActive)
      ensures dragOver == old(dragOver) && currentEnvEffects == old(currentEnvEffects)
      // no action, or one the guards refuse: only the timer and the arrow move
      ensures
        var action := Gamepad.Dispatch(device, pad, old(player.currentDraggable) == this, position);
        var allowed := state == Playing && !old(player.permanentDamage) && damageDuration <= 0.0;
        var motor1Ticked := (old(damageDuration) > 0.0 && !old(player.permanentDamage) && damageDuration == 0.0) ||
                            old(motor1On);
        action.NoAction? || !allowed ==>
          dragActive == old(dragActive) && dir == old(dir) && bodyType == old(bodyType) &&
          motorSpeed == old(motorSpeed) && motor2On == old(motor2On) && arrowScaleX == old(arrowScaleX) &&
          motor1On == motor1Ticked &&
          player.dragging == old(player.dragging) && player.currentDraggable == old(player.currentDraggable)
      // a press selects, as Select does
      ensures
        var action := Gamepad.Dispatch(device, pad, old(player.currentDraggable) == this, position);
        var allowed := state == Playing && !old(player.permanentDamage) && damageDuration <= 0.0;
        var motor1Ticked := (old(damageDuration) > 0.0 && !old(player.permanentDamage) && damageDuration == 0.0) ||
                            old(motor1On);
        action.SelectLimb? && allowed ==>
          dragActive && player.dragging && player.currentDraggable == this && motorSpeed == -myMotorSpeed &&
          (hasMotorJoint1 && hasMotorJoint2 ==> !motor1On && !motor2On) &&
          (!(hasMotorJoint1 && hasMotorJoint2) ==> motor1On == motor1Ticked && motor2On == old(motor2On)) &&
          dir == old(dir) && arrowScaleX == old(arrowScaleX) &&
          bodyType == (if this in old(player.draggables) then Dynamic else old(bodyType))
      // a held button drags the current limb, as Drag does
      ensures
        var action := Gamepad.Dispatch(device, pad, old(player.currentDraggable) == this, position);
        var allowed := state == Playing && !old(player.permanentDamage) && damageDuration <= 0.0;
        var motor1Ticked := (old(damageDuration) > 0.0 && !old(player.permanentDamage) && damageDuration == 0.0) ||
                            old(motor1On);
        action.DragTo? && allowed ==>
          var offset := Sub(action.target, position);
          (SqMagnitude(offset) <= 1.0 ==> dir == offset) &&
          (SqMagnitude(offset) > 1.0 ==>
             SqMagnitude(dir) == 1.0 && dir == Scale(offset, 1.0 / Magnitude(offset, sqrt))) &&
          SqMagnitude(dir) <= 1.0 &&
          (bodyType == Static <==> SqMagnitude(dir) < DirToleranceSq) &&
          (bodyType == Dynamic <==> SqMagnitude(dir) >= DirToleranceSq) &&
          MinArrowScale <= arrowScaleX <= 1.0 && arrowScaleX == MaxReal(Magnitude(dir, sqrt), MinArrowScale) &&
          player.dragging && dragActive == old(dragActive) && motorSpeed == old(motorSpeed) &&
          motor1On == motor1Ticked && motor2On == old(motor2On) &&
          player.currentDraggable == old(player.currentDraggable)
      // a button-up releases, as Release does
      ensures
        var action := Gamepad.Dispatch(device, pad, old(player.currentDraggable) == this, position);
        var allowed := state == Playing && !old(player.permanentDamage) && damageDuration <= 0.0;
        var motor1Ticked := (old(damageDuration) > 0.0 && !old(player.permanentDamage) && damageDuration == 0.0) ||
                            old(motor1On);
        action.ReleaseLimb? && allowed ==>
          IsReleased() && !player.dragging &&
          player.currentDraggable == (if old(player.currentDraggable) == this then null else old(player.currentDraggable)) &&
          (!(hasMotorJoint1 && hasMotorJoint2) ==> motor1On == motor1Ticked && motor2On == old(motor2On)) &&
          dir == old(dir) && arrowScaleX == old(arrowScaleX)
      // the player's other limbs change only when this one is selected
      ensures
        var action := Gamepad.Dispatch(device, pad, old(player.currentDraggable) == this, position);
        var allowed := state == Playing && !old(player.permanentDamage) && damageDuration <= 0.0;
        forall d :: d in player.draggables && d != this ==>
          if action.SelectLimb? && allowed
          then d.ReleaseKeeps() && if old(d.Damaged()) then unchanged(d) else d.IsReleased()
          else unchanged(d)
    {
      TickDamage(deltaTime);

      arrowActive := dragActive;

      HandlePad(state, device, pad, position, sqrt);
    }

    /** The input half of Update: nothing with keyboard and mouse, whose
        pointer callbacks act instead; with a gamepad, the operation
        `Gamepad.Dispatch` names. */
    method HandlePad(state: GameState, device: InputDevice, pad: Gamepad.PadInput, position: Vec2, sqrt: real -> real)
      requires player != null && player.Valid() && IsSquareRoot(sqrt)
      modifies this`dragActive, this`dir, this`bodyType, this`motorSpeed, this`motor1On, this`motor2On,
               this`arrowScaleX, player`dragging, player`currentDraggable, player.draggables
      ensures player == old(player) && player.draggables == old(player.draggables) && player.Valid()
      ensures dragOver == old(dragOver) && damageDuration == old(damageDuration) &&
              currentEnvEffects == old(currentEnvEffects) && arrowActive == old(arrowActive)
      ensures
        var action := Gamepad.Dispatch(device, pad, old(player.currentDraggable) == this, position);
        action.NoAction? || !old(MayAct(state)) ==>
          unchanged(this) && unchanged(player) && forall d :: d in player.draggables ==> unchanged(d)
      ensures
        var action := Gamepad.Dispatch(device, pad, old(player.currentDraggable) == this, position);
        action.SelectLimb? && old(MayAct(state)) ==>
          dragActive && player.dragging && player.currentDraggable == this && motorSpeed == -myMotorSpeed &&
          (hasMotorJoint1 && hasMotorJoint2 ==> !motor1On && !motor2On) &&
          (!(hasMotorJoint1 && hasMotorJoint2) ==> motor1On == old(motor1On) && motor2On == old(motor2On)) &&
          dir == old(dir) && arrowScaleX == old(arrowScaleX) &&
          bodyType == (if this in old(player.draggables) then Dynamic else old(bodyType))
      ensures
        var action := Gamepad.Dispatch(device, pad, old(player.currentDraggable) == this, position);
        action.DragTo? && old(MayAct(state)) ==>
          var offset := Sub(action.target, position);
          (SqMagnitude(offset) <= 1.0 ==> dir == offset) &&
          (SqMagnitude(offset) > 1.0 ==>
             SqMagnitude(dir) == 1.0 && dir == Scale(offset, 1.0 / Magnitude(offset, sqrt))) &&
          SqMagnitude(dir) <= 1.0 &&
          (bodyType == Static <==> SqMagnitude(dir) < DirToleranceSq) &&
          (bodyType == Dynamic <==> SqMagnitude(dir) >= DirToleranceSq) &&
          MinArrowScale <= arrowScaleX <= 1.0 && arrowScaleX == MaxReal(Magnitude(dir, sqrt), MinArrowScale) &&
          player.dragging && dragActive == old(dragActive) && motorSpeed == old(motorSpeed) &&
          motor1On == old(motor1On) && motor2On == old(motor2On) &&
          player.currentDraggable == old(player.currentDraggable)
      ensures
        var action := Gamepad.Dispatch(device, pad, old(player.currentDraggable) == this, position);
        action.ReleaseLimb? && old(MayAct(state)) ==>
          IsReleased() && !player.dragging &&
          player.currentDraggable == (if old(player.currentDraggable) == this then null else old(player.currentDraggable)) &&
          (!(hasMotorJoint1 && hasMotorJoint2) ==> motor1On == old(motor1On) && motor2On == old(motor2On)) &&
          dir == old(dir) && arrowScaleX == old(arrowScaleX)
      ensures
        var action := Gamepad.Dispatch(device, pad, old(player.currentDraggable) == this, position);
        forall d :: d in player.draggables && d != this ==>
          if action.SelectLimb? && old(MayAct(state))
          then d.ReleaseKeeps() && if old(d.Damaged()) then unchanged(d) else d.IsReleased()
          else unchanged(d)
    {
      if device == KeyboardAndMouse { return; }

      var action := Gamepad.Dispatch(device, pad, player.currentDraggable == this, position);
      match action {
        case SelectLimb => Select(state);
        case DragTo(target) => Drag(state, target, position, sqrt);
        case ReleaseLimb => Release(state, true);
        case NoAction =>
      }
    }

    /** Contact with another limb: `other` is the limb the touching collider
        belongs to, or null for anything else. It takes one second of damage
        when it belongs to a player with another ID and is not being dragged,
        and this limb is not damaged itself; otherwise nothing happens. */
    method OnTriggerEnter(other: Draggable?)
      requires player != null
      requires other != null ==> other.player != null
      requires other != null && other.player.playerid != player.playerid && !other.dragActive && !Damaged() ==>
                 other.hasMotorJoint1
      modifies if other == null then {} else {other, other.player}
      ensures unchanged(this) && unchanged(player)
      ensures other != null ==>
                other.player == old(other.player) && other.player.playerid == old(other.player.playerid) &&
                other.player.currentDraggable == old(other.player.currentDraggable) &&
                other.player.draggables == old(other.player.draggables) &&
                other.player.torsoMuted == old(other.player.torsoMuted)
      ensures old(other != null && other.player.playerid != player.playerid && !other.dragActive && !Damaged()) ==>
                other.damageDuration == ContactDamage && !other.motor1On && other.DamageKeeps() && other.Damaged() &&
                other.player.permanentDamage == old(other.player.permanentDamage) && !other.player.dragging &&
                !other.player.torsoKinematic && !other.player.torsoFreezeRotation && other.player.torsoVelocity == Zero2
      ensures old(other == null || other.player.playerid == player.playerid || other.dragActive || Damaged()) ==>
                other != null ==> unchanged(other) && unchanged(other.player)
    {
      if other == null { return; }
      if other.player.playerid == player.playerid { return; }
      if other.dragActive { return; }
      if Damaged() { return; }

      other.Damage(ContactDamage);
    }

    /** Pointer callbacks: with keyboard and mouse they forward to Highlight,
        Select, Drag and Release; with a gamepad they do nothing. `worldPointer`
        is the pointer's position in world coordinates. */
    method OnMouseOver(state: GameState, device: InputDevice)
      requires player != null
      modifies this`dragOver
      ensures device.KeyboardAndMouse? && old(MayAct(state)) ==> dragOver
      ensures device.Joystick? || !old(MayAct(state)) ==> dragOver == old(dragOver)
    {
      if device != KeyboardAndMouse { return; }
      Highlight(state, true);
    }

    method OnMouseExit(state: GameState, device: InputDevice)
      requires player != null
      modifies this`dragOver
      ensures device.KeyboardAndMouse? && old(MayAct(state)) ==> !dragOver
      ensures device.Joystick? || !old(MayAct(state)) ==> dragOver == old(dragOver)
    {
      if device != KeyboardAndMouse { return; }
      Highlight(state, false);
    }

    method OnMouseDown(state: GameState, device: InputDevice)
      requires player != null && player.Valid()
      modifies this`dragActive, this`motorSpeed, this`motor1On, this`motor2On
      modifies player`dragging, player`currentDraggable, player.draggables
      ensures player == old(player) && player.draggables == old(player.draggables) && player.Valid()
      ensures ReleaseKeeps()
      ensures device.KeyboardAndMouse? && old(MayAct(state)) ==>
                bodyType == if this in old(player.draggables) then Dynamic else old(bodyType)
      ensures device.KeyboardAndMouse? && old(MayAct(state)) ==>
                dragActive && player.dragging && player.currentDraggable == this &&
                motorSpeed == -myMotorSpeed &&
                (hasMotorJoint1 && hasMotorJoint2 ==> !motor1On && !motor2On)
      ensures device.KeyboardAndMouse? && old(MayAct(state)) ==>
                forall d :: d in player.draggables && d != this ==>
                  d.ReleaseKeeps() && if old(d.Damaged()) then unchanged(d) else d.IsReleased()
      ensures device.Joystick? || !old(MayAct(state)) ==>
                unchanged(this) && unchanged(player) && forall d :: d in player.draggables ==> unchanged(d)
    {
      if device != KeyboardAndMouse { return; }
      Select(state);
    }

    method OnMouseDrag(state: GameState, device: InputDevice, worldPointer: Vec2, position: Vec2, sqrt: real -> real)
      requires player != null && IsSquareRoot(sqrt)
      modifies this`dir, this`bodyType, this`arrowScaleX, player`dragging
      ensures device.KeyboardAndMouse? && old(MayAct(state)) ==>
                var offset := Sub(worldPointer, position);
                (SqMagnitude(offset) <= 1.0 ==> dir == offset) &&
                (SqMagnitude(offset) > 1.0 ==>
                   SqMagnitude(dir) == 1.0 && dir == Scale(offset, 1.0 / Magnitude(offset, sqrt)))
      ensures device.KeyboardAndMouse? && old(MayAct(state)) ==>
                SqMagnitude(dir) <= 1.0 &&
                (bodyType == Static <==> SqMagnitude(dir) < DirToleranceSq) &&
                (bodyType == Dynamic <==> SqMagnitude(dir) >= DirToleranceSq)
      ensures device.KeyboardAndMouse? && old(MayAct(state)) ==>
                MinArrowScale <= arrowScaleX <= 1.0 && arrowScaleX == MaxReal(Magnitude(dir, sqrt), MinArrowScale)
      ensures device.KeyboardAndMouse? && old(MayAct(state)) ==> player.dragging
      ensures device.Joystick? || !old(MayAct(state)) ==> unchanged(this) && unchanged(player)
    {
      if device != KeyboardAndMouse { return; }
      Drag(state, worldPointer, position, sqrt);
    }

    method OnMouseUp(state: GameState, device: InputDevice)
      requires player != null
      modifies this`dragActive, this`bodyType, this`motorSpeed, this`motor1On, this`motor2On
      modifies player`currentDraggable, player`dragging
      ensures device.KeyboardAndMouse? && old(MayAct(state)) ==> IsReleased() && !player.dragging
      ensures device.KeyboardAndMouse? && old(MayAct(state)) ==>
                player.currentDraggable == if old(player.currentDraggable) == this then null else old(player.currentDraggable)
      ensures !(hasMotorJoint1 && hasMotorJoint2) ==> motor1On == old(motor1On) && motor2On == old(motor2On)
      ensures device.Joystick? || !old(MayAct(state)) ==> unchanged(this) && unchanged(player)
    {
      if device != KeyboardAndMouse { return; }
      Release(state, true);
    }

    /** HasEffect */
    function HasEffect(e: Effects.EnvEffect): (r: bool)
      reads this
      ensures e == Effects.None ==> r
    {
      Effects.Has(currentEnvEffects, e)
    }

    /** Adds an effect unless every bit of it is already present. */
    method AddEffect(e: Effects.EnvEffect)
      modifies this`currentEnvEffects
      ensures HasEffect(e)
      ensures currentEnvEffects - e == old(currentEnvEffects) - e
      ensures old(HasEffect(e)) ==> currentEnvEffects == old(currentEnvEffects)
      ensures currentEnvEffects == Effects.With(old(currentEnvEffects), e)
    {
      if !HasEffect(e) {
        currentEnvEffects := currentEnvEffects + e;
      }
    }

    /** Removes an effect, but only when every bit of it is present. */
    method RemoveEffect(e: Effects.EnvEffect)
      modifies this`currentEnvEffects
      ensures old(HasEffect(e)) ==> currentEnvEffects * e == Effects.None
      ensures !old(HasEffect(e)) ==> currentEnvEffects == old(currentEnvEffects)
      ensures currentEnvEffects - e == old(currentEnvEffects) - e
      ensures currentEnvEffects == Effects.Without(old(currentEnvEffects), e)
    {
      if HasEffect(e) {
        currentEnvEffects := currentEnvEffects - e;
      }
    }
  }

  class PlayerControls {
    var playerid: PlayerID
    var dragging: bool
    var permanentDamage: bool
    var draggables: seq<Draggable>
    var currentDraggable: Draggable?
    /** The torso's rigid body (isKinematic, freezeRotation, velocity) and
        the torso audio source's mute flag. */
    var torsoKinematic: bool
    var torsoFreezeRotation: bool
    var torsoVelocity: Vec2
    var torsoMuted: bool

    /** Every owned limb points back to this player, and none is listed twice. */
    ghost predicate Valid()
      reads this, draggables
    {
      (forall d :: d in draggables ==> d.player == this) &&
      (forall i, j :: 0 <= i < j < |draggables| ==> draggables[i] != draggables[j])
    }

    /** Field initialisers; the limbs arrive with Start. */
    constructor ()
      ensures playerid == One && !dragging && !permanentDamage && draggables == [] && currentDraggable == null
      ensures !torsoKinematic && !torsoFreezeRotation && torsoVelocity == Zero2 && !torsoMuted
      ensures Valid()
    {
      playerid := One;
      dragging := false;
      permanentDamage := false;
      draggables := [];
      currentDraggable := null;
      torsoKinematic := false;
      torsoFreezeRotation := false;
      torsoVelocity := Zero2;
      torsoMuted := false;
    }

    /** Assigns the local player slot. */
    method Init(id: PlayerID)
      modifies this`playerid
      ensures playerid == id
    {
      playerid := id;
    }

    /** Resets the flags, computes the global highest point afresh from every
        child transform but the root, and takes ownership of the limbs found
        among the children. Returns the new highest point. */
    method Start(children: seq<Draggable>, transforms: seq<Heights.Transform>) returns (highestPoint: Vec3)
      requires forall i, j :: 0 <= i < j < |children| ==> children[i] != children[j]
      modifies this`dragging, this`permanentDamage, this`draggables, children
      ensures !dragging && !permanentDamage && draggables == children && Valid()
      ensures forall d :: d in children ==> d.OwnerKeeps()
      ensures highestPoint.y >= 0.0
      ensures forall i :: 0 <= i < |transforms| && !transforms[i].isRoot ==> transforms[i].position.y <= highestPoint.y
      ensures highestPoint == Zero3 ||
              exists i :: 0 <= i < |transforms| && !transforms[i].isRoot && highestPoint == transforms[i].position
    {
      highestPoint := Zero3;
      dragging := false;
      permanentDamage := false;

      highestPoint := Heights.RaiseHighest(highestPoint, transforms, false);

      draggables := children;
      for i := 0 to |children|
        invariant draggables == children && !dragging && !permanentDamage
        invariant forall j :: 0 <= j < i ==> children[j].player == this
        invariant forall d :: d in children ==> d.OwnerKeeps()
      {
        children[i].player := this;
      }
    }

    /** One frame while playing: nothing while damaged for good; otherwise the
        torso is muted exactly while dragging, the highest point is raised to
        the highest hand, and the torso is held still exactly while a limb is
        current. Other game states change nothing modelled here. Returns the
        new global highest point. */
    method Update(state: GameState, transforms: seq<Heights.Transform>, highestPoint: Vec3) returns (newHighest: Vec3)
      modifies this`torsoMuted, this`torsoKinematic, this`torsoFreezeRotation, this`torsoVelocity
      ensures state != Playing || permanentDamage ==> unchanged(this) && newHighest == highestPoint
      ensures state == Playing && !permanentDamage ==>
                torsoMuted == dragging &&
                (torsoKinematic <==> currentDraggable != null) &&
                (torsoFreezeRotation <==> currentDraggable != null) &&
                (currentDraggable != null ==> torsoVelocity == Zero2) &&
                (currentDraggable == null ==> torsoVelocity == old(torsoVelocity))
      ensures newHighest.y >= highestPoint.y
      ensures state == Playing && !permanentDamage ==>
                forall i :: 0 <= i < |transforms| && transforms[i].tag == Heights.HandTag ==>
                  transforms[i].position.y <= newHighest.y
      ensures newHighest == highestPoint ||
              exists i :: 0 <= i < |transforms| && transforms[i].tag == Heights.HandTag &&
                newHighest == transforms[i].position
    {
      newHighest := highestPoint;
      if state != Playing { return; }
      if permanentDamage { return; }

      torsoMuted := dragging;

      newHighest := Heights.RaiseHighest(highestPoint, transforms, true);

      if currentDraggable != null {
        torsoKinematic := true;
        torsoFreezeRotation := true;
        torsoVelocity := Zero2;
      } else {
        torsoKinematic := false;
        torsoFreezeRotation := false;
      }
    }

    /** Permanent damage, the hard fail: every owned limb takes Damage(0). */
    method Damage()
      requires Valid()
      requires forall d :: d in draggables ==> d.hasMotorJoint1
      modifies this`permanentDamage, this`dragging, this`torsoKinematic, this`torsoFreezeRotation,
               this`torsoVelocity, draggables
      ensures Valid()
      ensures draggables != [] ==>
                permanentDamage && !dragging && !torsoKinematic && !torsoFreezeRotation && torsoVelocity == Zero2
      ensures draggables == [] ==> unchanged(this)
      ensures forall d :: d in draggables ==>
                d.damageDuration == 0.0 && !d.motor1On && d.Damaged() && d.DamageKeeps()
    {
      for i := 0 to |draggables|
        invariant Valid()
        invariant i > 0 ==> permanentDamage && !dragging && !torsoKinematic && !torsoFreezeRotation &&
                            torsoVelocity == Zero2
        invariant i == 0 ==> unchanged(this)
        invariant forall j :: 0 <= j < i ==> draggables[j].damageDuration == 0.0 && !draggables[j].motor1On
        invariant forall j :: i <= j < |draggables| ==> unchanged(draggables[j])
        invariant forall d :: d in draggables ==> d.DamageKeeps()
      {
        draggables[i].Damage(0.0);
      }
    }

    /** Releases every owned limb (not as a user action), then makes `d` the
        current limb. */
    method Select(d: Draggable?, state: GameState)
      requires Valid()
      modifies this`currentDraggable, this`dragging, draggables
      ensures Valid() && currentDraggable == d
      ensures forall k :: k in draggables ==> k.ReleaseKeeps()
      ensures forall k :: k in draggables ==> if old(k.MayAct(state)) then k.IsReleased() else unchanged(k)
      ensures dragging == if exists k :: k in draggables && old(k.MayAct(state)) then false else old(dragging)
    {
      for i := 0 to |draggables|
        invariant Valid()
        invariant forall k :: k in draggables ==> k.ReleaseKeeps()
        invariant forall j :: 0 <= j < i ==>
                    if old(draggables[j].MayAct(state)) then draggables[j].IsReleased() else unchanged(draggables[j])
        invariant forall j :: i <= j < |draggables| ==> unchanged(draggables[j])
        invariant dragging == if exists j :: 0 <= j < i && old(draggables[j].MayAct(state)) then false else old(dragging)
      {
        draggables[i].Release(state, false);
      }
      currentDraggable := d;
    }
  }
}
