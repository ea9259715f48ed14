/** Gamepad dispatch of a limb (Draggable.Update, second half): with a gamepad,
    each frame the limb's own button is read and at most one of Select, Drag or
    Release is called, in that order of priority. With keyboard and mouse the
    pointer callbacks call those operations instead and the frame does nothing. */
module Gamepad {
  import opened Geometry
  import opened Globals

  /** How far one full axis deflection moves the drag target per frame. */
  const DragSensitivity: real := 0.6

  /** The button states of this limb's button and the two stick axes, as the
      input library reports them for the limb's player in this frame. */
  datatype PadInput = PadInput(buttonDown: bool, button: bool, buttonUp: bool, horizontal: real, vertical: real)

  datatype PadAction = NoAction | SelectLimb | DragTo(target: Vec2) | ReleaseLimb

  /** The operation a frame calls, given whether the player's current limb is
      this one and where the limb is. */
  function Dispatch(device: InputDevice, pad: PadInput, isCurrent: bool, position: Vec2): (a: PadAction)
    // pointer input never acts through the frame update
    ensures device.KeyboardAndMouse? ==> a == NoAction
    // a press is never lost: it always selects
    ensures device.Joystick? && pad.buttonDown ==> a == SelectLimb
    // only a press selects
    ensures a == SelectLimb ==> pad.buttonDown
    // holding the button drags, but only the player's current limb
    ensures a.DragTo? ==> isCurrent && pad.button && !pad.buttonDown
    ensures device.Joystick? && !pad.buttonDown && pad.button && isCurrent ==> a.DragTo?
    ensures a.DragTo? ==>
              a.target.x - position.x == pad.horizontal * DragSensitivity &&
              a.target.y - position.y == pad.vertical * DragSensitivity
    // a button-up releases when neither of the above applies
    ensures a.ReleaseLimb? <==> (device.Joystick? && pad.buttonUp && !pad.buttonDown && !(pad.button && isCurrent))
  {
    if device.KeyboardAndMouse? then NoAction
    else if pad.buttonDown then SelectLimb
    else if pad.button && isCurrent then
      DragTo(Vec2(position.x + pad.horizontal * DragSensitivity, position.y + pad.vertical * DragSensitivity))
    else if pad.buttonUp then ReleaseLimb
    else NoAction
  }
}
