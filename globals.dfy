/** The enumerations the limb code reads from its surroundings: the global game
    mode, the active input device, the local player slot and the kind of a
    rigid body. */
module Globals {

  /** Globals.GameState, as far as the two classes distinguish it. */
  datatype GameState = Playing | Paused | Freehold

  /** InputAdapter.inputDevice */
  datatype InputDevice = KeyboardAndMouse | Joystick

  /** The input library's local player slot. */
  datatype PlayerID = One | Two | Three | Four

  /** RigidbodyType2D */
  datatype BodyType = Dynamic | Kinematic | Static
}
