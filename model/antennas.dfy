/** Antennas of networks/antenna.py: a type name and a gain; two antennas can talk
    exactly when their type names agree. */
module Antennas {

  datatype Antenna = Antenna(antennaType: string, gain: real)

  predicate IsCompatibleWith(a: Antenna, other: Antenna) {
    a.antennaType == other.antennaType
  }

  /** Compatibility is reflexive, symmetric and transitive, and ignores the gains. */
  lemma CompatibilityIsEquivalence(a: Antenna, b: Antenna, c: Antenna, g: real, h: real)
    ensures IsCompatibleWith(a, a)
    ensures IsCompatibleWith(a, b) <==> IsCompatibleWith(b, a)
    ensures IsCompatibleWith(a, b) && IsCompatibleWith(b, c) ==> IsCompatibleWith(a, c)
    ensures IsCompatibleWith(a, b) <==> IsCompatibleWith(Antenna(a.antennaType, g), Antenna(b.antennaType, h))
  {
  }

  /** Index of the first antenna of `antennas` compatible with `other`, if any. */
  function FirstCompatible(antennas: seq<Antenna>, other: Antenna): (r: nat)
    ensures r <= |antennas|
    ensures r < |antennas| ==> IsCompatibleWith(antennas[r], other)
    ensures forall k :: 0 <= k < r ==> !IsCompatibleWith(antennas[k], other)
  {
    if antennas == [] then 0
    else if IsCompatibleWith(antennas[0], other) then 0
    else 1 + FirstCompatible(antennas[1..], other)
  }
}
