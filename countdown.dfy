/** The damage timer of a limb (Draggable.Update, first block): once per frame a
    positive remaining duration loses the frame's elapsed time and is clamped
    to zero when it runs out; while the player is permanently damaged the timer
    does not move. */
module Countdown {

  /** One frame of the countdown. */
  function Tick(remaining: real, permanent: bool, deltaTime: real): (r: real)
    ensures remaining <= 0.0 || permanent ==> r == remaining
    ensures remaining > 0.0 && !permanent ==> 0.0 <= r
    ensures remaining > 0.0 && !permanent ==> (r == 0.0 <==> deltaTime >= remaining)
    ensures remaining > 0.0 && !permanent && r != 0.0 ==> r == remaining - deltaTime
  {
    if remaining > 0.0 && !permanent then
      var next := remaining - deltaTime;
      if next <= 0.0 then 0.0 else next
    else
      remaining
  }

  /** The timer after a run of frames with the given elapsed times. */
  function Run(remaining: real, permanent: bool, deltaTimes: seq<real>): real
    decreases |deltaTimes|
  {
    if deltaTimes == [] then remaining
    else Run(Tick(remaining, permanent, deltaTimes[0]), permanent, deltaTimes[1..])
  }

  /** Total time elapsed over a run of frames. */
  function Elapsed(deltaTimes: seq<real>): real
    decreases |deltaTimes|
  {
    if deltaTimes == [] then 0.0 else deltaTimes[0] + Elapsed(deltaTimes[1..])
  }

  predicate NonNegative(deltaTimes: seq<real>) {
    forall i :: 0 <= i < |deltaTimes| ==> deltaTimes[i] >= 0.0
  }

  /** An expired (or never started) timer stays where it is. */
  lemma {:induction false} ExpiredStays(remaining: real, permanent: bool, deltaTimes: seq<real>)
    requires remaining <= 0.0
    ensures Run(remaining, permanent, deltaTimes) == remaining
    decreases |deltaTimes|
  {
    if deltaTimes != [] {
      ExpiredStays(Tick(remaining, permanent, deltaTimes[0]), permanent, deltaTimes[1..]);
    }
  }

  /** Temporary damage of duration d is over once at least d seconds have
      elapsed. */
  lemma {:induction false} ExpiresAfterDuration(remaining: real, deltaTimes: seq<real>)
    requires remaining > 0.0 && NonNegative(deltaTimes)
    requires Elapsed(deltaTimes) >= remaining
    ensures Run(remaining, false, deltaTimes) == 0.0
    decreases |deltaTimes|
  {
    var next := Tick(remaining, false, deltaTimes[0]);
    if next == 0.0 {
      ExpiredStays(next, false, deltaTimes[1..]);
    } else {
      assert NonNegative(deltaTimes[1..]) by {
        forall i | 0 <= i < |deltaTimes[1..]| ensures deltaTimes[1..][i] >= 0.0 {
          assert deltaTimes[1..][i] == deltaTimes[i + 1];
        }
      }
      ExpiresAfterDuration(next, deltaTimes[1..]);
    }
  }

  /** Before d seconds have elapsed the limb is still damaged, with exactly the
      unelapsed time left. */
  lemma {:induction false} DamagedBeforeDuration(remaining: real, deltaTimes: seq<real>)
    requires remaining > 0.0 && NonNegative(deltaTimes)
    requires Elapsed(deltaTimes) < remaining
    ensures Run(remaining, false, deltaTimes) == remaining - Elapsed(deltaTimes)
    ensures Run(remaining, false, deltaTimes) > 0.0
    decreases |deltaTimes|
  {
    if deltaTimes != [] {
      assert NonNegative(deltaTimes[1..]) by {
        forall i | 0 <= i < |deltaTimes[1..]| ensures deltaTimes[1..][i] >= 0.0 {
          assert deltaTimes[1..][i] == deltaTimes[i + 1];
        }
      }
      ElapsedNonNegative(deltaTimes[1..]);
      DamagedBeforeDuration(remaining - deltaTimes[0], deltaTimes[1..]);
    }
  }

  lemma {:induction false} ElapsedNonNegative(deltaTimes: seq<real>)
    requires NonNegative(deltaTimes)
    ensures Elapsed(deltaTimes) >= 0.0
    decreases |deltaTimes|
  {
    if deltaTimes != [] {
      assert NonNegative(deltaTimes[1..]) by {
        forall i | 0 <= i < |deltaTimes[1..]| ensures deltaTimes[1..][i] >= 0.0 {
          assert deltaTimes[1..][i] == deltaTimes[i + 1];
        }
      }
      ElapsedNonNegative(deltaTimes[1..]);
    }
  }

  /** Permanent damage freezes the timer: no amount of elapsed time changes it. */
  lemma {:induction false} PermanentFreezes(remaining: real, deltaTimes: seq<real>)
    ensures Run(remaining, true, deltaTimes) == remaining
    decreases |deltaTimes|
  {
    if deltaTimes != [] {
      PermanentFreezes(remaining, deltaTimes[1..]);
    }
  }

  /** A timer that starts at or above zero never ends below zero, whatever the
      frame times. */
  lemma {:induction false} NeverBelowZero(remaining: real, permanent: bool, deltaTimes: seq<real>)
    requires remaining >= 0.0
    ensures Run(remaining, permanent, deltaTimes) >= 0.0
    decreases |deltaTimes|
  {
    if deltaTimes != [] {
      NeverBelowZero(Tick(remaining, permanent, deltaTimes[0]), permanent, deltaTimes[1..]);
    }
  }
}
