/** Short sequences of calls that show how the operations combine. Each one
    builds fresh players and limbs, so it changes nothing that already exists. */
module Scenarios {
  import opened Globals
  import opened DragTypes
  import opened Climbing

  /** A limb damaged while it is being dragged stays drag-active, and selecting
      another limb of the same player leaves the damaged one alone: the player
      ends up with two drag-active limbs, although only one can be current. */
  method TwoDragActiveLimbs() returns (p: PlayerControls, a: Draggable, b: Draggable)
    ensures a != b && a in p.draggables && b in p.draggables
    ensures a.player == p && a.dragActive && b.dragActive && a.Damaged()
    ensures p.currentDraggable == b
  {
    p := new PlayerControls();
    a := new Draggable(HandRight, 1.0, true, true, true, true, Dynamic, MinArrowScale);
    b := new Draggable(HandLeft, 1.0, true, true, true, true, Dynamic, MinArrowScale);
    var _ := p.Start([a, b], []);

    a.Select(Playing);
    a.Damage(2.0);
    b.Select(Playing);
  }

  /** Contact damage is not guarded by the hit limb's own timer: a limb still
      damaged from a first contact is hit again and its timer is set back to
      the full second. `before` is its timer just before the second hit. */
  method RepeatContactResets() returns (attacker: Draggable, target: Draggable, before: real)
    ensures before > 0.0 && target.damageDuration == ContactDamage && before < target.damageDuration
    ensures target.player != null && target.Damaged() && !target.motor1On
  {
    var p1 := new PlayerControls();
    var p2 := new PlayerControls();
    p2.Init(Two);
    attacker := new Draggable(FootRight, 1.0, true, true, true, true, Dynamic, MinArrowScale);
    target := new Draggable(FootLeft, 1.0, true, true, true, true, Dynamic, MinArrowScale);
    var _ := p1.Start([attacker], []);
    assert attacker in [attacker];
    var _ := p2.Start([target], []);
    assert target in [target];

    attacker.OnTriggerEnter(target);
    target.TickDamage(0.5);
    before := target.damageDuration;
    attacker.OnTriggerEnter(target);
  }
}
