/** The "highest point reached" scan of PlayerControls: a walk over the
    player's child transforms that raises a running highest point whenever a
    counted transform lies strictly higher. */
module Heights {
  import opened Geometry

  /** A child transform of the player object: its world position, its tag and
      whether it is the player's own root transform. */
  datatype Transform = Transform(position: Vec3, tag: string, isRoot: bool)

  const HandTag: string := "Hand"

  /** Start counts every child but the root; a playing frame counts only the
      transforms tagged as hands. */
  predicate Counted(t: Transform, handsOnly: bool) {
    if handsOnly then t.tag == HandTag else !t.isRoot
  }

  method RaiseHighest(highest: Vec3, transforms: seq<Transform>, handsOnly: bool) returns (r: Vec3)
    ensures r.y >= highest.y
    ensures forall i :: 0 <= i < |transforms| && Counted(transforms[i], handsOnly) ==> transforms[i].position.y <= r.y
    ensures r == highest || exists i :: 0 <= i < |transforms| && Counted(transforms[i], handsOnly) && r == transforms[i].position
  {
    r := highest;
    for i := 0 to |transforms|
      invariant r.y >= highest.y
      invariant forall j :: 0 <= j < i && Counted(transforms[j], handsOnly) ==> transforms[j].position.y <= r.y
      invariant r == highest || exists j :: 0 <= j < i && Counted(transforms[j], handsOnly) && r == transforms[j].position
    {
      var t := transforms[i];
      if !Counted(t, handsOnly) {
        continue;
      }
      if t.position.y > r.y {
        r := t.position;
      }
    }
  }
}
