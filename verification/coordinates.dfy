/** The geodetic conversion both location sentences use for latitude and longitude. */
module Coordinates {

  /** Whole degrees plus decimal minutes, as signed decimal degrees: the value is
      negated exactly when the hemisphere letter is the `negative` one (`S` for
      latitude, `W` for longitude). No range is checked. */
  function ToDecimalDegrees(degrees: nat, minutes: real, hemisphere: char, negative: char): (r: real)
    ensures (if hemisphere == negative then -r else r) == degrees as real + minutes / 60.0
    ensures minutes >= 0.0 ==> (hemisphere == negative ==> r <= 0.0) && (hemisphere != negative ==> r >= 0.0)
  {
    var magnitude := degrees as real + minutes / 60.0;
    if hemisphere == negative then -magnitude else magnitude
  }

  /** The magnitude stays below `limit` degrees plus the largest minutes over 60. */
  lemma {:induction false} DecimalDegreesBound(degrees: nat, minutes: real, hemisphere: char, negative: char, limit: nat, maxMinutes: real)
    requires degrees <= limit && 0.0 <= minutes < maxMinutes
    ensures -(limit as real + maxMinutes / 60.0) < ToDecimalDegrees(degrees, minutes, hemisphere, negative)
    ensures ToDecimalDegrees(degrees, minutes, hemisphere, negative) < limit as real + maxMinutes / 60.0
  {
    assert minutes / 60.0 < maxMinutes / 60.0;
  }
}
