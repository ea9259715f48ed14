/** Draggable.DragType: which extremity a limb is. Being a C# enum over a 32-bit
    integer, a DragType variable can hold any int32 value, not only the four
    declared ones. */
module DragTypes {

  newtype DragType = x: int | -0x8000_0000 <= x < 0x8000_0000

  const HandRight: DragType := 0
  const HandLeft: DragType := 1
  const FootRight: DragType := 2
  const FootLeft: DragType := 3

  const InvalidName: string := "<INVALID TYPE>"

  predicate IsDeclared(t: DragType) {
    t == HandRight || t == HandLeft || t == FootRight || t == FootLeft
  }

  /** Display name of a limb kind; the name also selects the limb's button in
      the input configuration. */
  function DragtypeToString(t: DragType): (s: string)
    ensures s == InvalidName <==> !IsDeclared(t)
    ensures t == HandRight || t == HandLeft <==> s == "Right Hand" || s == "Left Hand"
  {
    if t == HandRight then "Right Hand"
    else if t == HandLeft then "Left Hand"
    else if t == FootLeft then "Left Foot"
    else if t == FootRight then "Right Foot"
    else InvalidName
  }

  /** The four declared kinds have four different names, so each limb's button
      name is its own. */
  lemma {:induction false} DeclaredNamesDistinct(a: DragType, b: DragType)
    requires IsDeclared(a) && IsDeclared(b) && a != b
    ensures DragtypeToString(a) != DragtypeToString(b)
  {
    var sa, sb := DragtypeToString(a), DragtypeToString(b);
    if |sa| == |sb| {
      assert sa[0] != sb[0] || sa[6] != sb[6];
    }
  }
}
