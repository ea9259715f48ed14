/** Draggable.EnvEffect: a [Flags] enumeration over a 32-bit integer, used as a
    bit set of the environmental effects acting on a limb. A flag word is
    modelled by the set of positions of its one-bits: `&` is intersection,
    `|` is union and `& ~e` is difference. */
module Effects {

  /** A bit position of a 32-bit word. */
  type Bit = b: nat | b < 32

  type EnvEffect = set<Bit>

  const None: EnvEffect := {}
  const Balloon: EnvEffect := {0}

  /** HasEffect: `(flags & e) == e`, every bit of `e` is set in `flags`. */
  function Has(flags: EnvEffect, e: EnvEffect): (r: bool)
    ensures r <==> flags + e == flags
    ensures e == None ==> r
  {
    flags * e == e
  }

  /** The flag word AddEffect leaves: unchanged when `e` is already present,
      otherwise `flags | e`. */
  function With(flags: EnvEffect, e: EnvEffect): (r: EnvEffect)
    ensures Has(r, e)
    ensures r - e == flags - e
    ensures r * e == e
  {
    if Has(flags, e) then flags else flags + e
  }

  /** The flag word RemoveEffect leaves: `flags & ~e` when every bit of `e` is
      present, otherwise unchanged. */
  function Without(flags: EnvEffect, e: EnvEffect): (r: EnvEffect)
    ensures Has(flags, e) ==> r * e == None
    ensures !Has(flags, e) ==> r == flags
    ensures r - e == flags - e
  {
    if Has(flags, e) then flags - e else flags
  }

  /** A flag word with at most one bit set (every declared EnvEffect value). */
  predicate SingleFlag(e: EnvEffect) {
    forall b, c :: b in e && c in e ==> b == c
  }

  /** Adding twice is adding once. */
  lemma WithIdempotent(flags: EnvEffect, e: EnvEffect)
    ensures With(With(flags, e), e) == With(flags, e)
  {
  }

  /** Removing a flag with at most one bit leaves none of its bits, whether or
      not it was present. */
  lemma WithoutSingleClears(flags: EnvEffect, e: EnvEffect)
    requires SingleFlag(e)
    ensures Without(flags, e) * e == None
  {
  }

  /** A multi-bit flag that is only partly present is not removed at all. */
  lemma WithoutPartialKeeps()
    ensures Without({0}, {0, 1}) * {0, 1} == {0}
  {
  }

  /** Removing after adding clears exactly the bits of `e`; adding after
      removing sets them. */
  lemma WithWithoutInverse(flags: EnvEffect, e: EnvEffect)
    ensures Without(With(flags, e), e) == flags - e
    ensures With(Without(flags, e), e) == flags + e
  {
  }
}
