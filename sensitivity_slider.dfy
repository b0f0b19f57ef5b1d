/**
 * The captions of `SensitivitySlider` (src/components/SensitivitySlider.tsx):
 * the z-score threshold is banded at 2.0, 2.5 and 3.0 into a sensitivity
 * label and a text colour. A lower threshold flags more points, so it reads
 * as a higher sensitivity.
 */
module SensitivitySlider {

  /** `getSensitivityLabel`. */
  function SensitivityLabel(threshold: real): (caption: string)
    ensures caption == "Very High" <==> threshold <= 2.0
    ensures caption == "High" <==> 2.0 < threshold <= 2.5
    ensures caption == "Medium" <==> 2.5 < threshold <= 3.0
    ensures caption == "Low" <==> 3.0 < threshold
  {
    if threshold <= 2.0 then "Very High"
    else if threshold <= 2.5 then "High"
    else if threshold <= 3.0 then "Medium"
    else "Low"
  }

  /** `getSensitivityColor`. */
  function SensitivityColor(threshold: real): (color: string)
    ensures color == "text-red-600" <==> threshold <= 2.0
    ensures color == "text-orange-600" <==> 2.0 < threshold <= 2.5
    ensures color == "text-yellow-600" <==> 2.5 < threshold <= 3.0
    ensures color == "text-green-600" <==> 3.0 < threshold
  {
    if threshold <= 2.0 then "text-red-600"
    else if threshold <= 2.5 then "text-orange-600"
    else if threshold <= 3.0 then "text-yellow-600"
    else "text-green-600"
  }

  /** How sensitive a label says the detection is, from 0 for "Low" to 3 for "Very High". */
  function Level(caption: string): nat {
    if caption == "Very High" then 3
    else if caption == "High" then 2
    else if caption == "Medium" then 1
    else 0
  }

  /** Both captions use the same cut points: two thresholds share a label exactly when they share a colour. */
  lemma ColorMatchesLabel(a: real, b: real)
    ensures SensitivityLabel(a) == SensitivityLabel(b) <==> SensitivityColor(a) == SensitivityColor(b)
  {
  }

  /** Raising the threshold never raises the stated sensitivity. */
  lemma LabelMonotone(a: real, b: real)
    requires a <= b
    ensures Level(SensitivityLabel(b)) <= Level(SensitivityLabel(a))
  {
  }

  /** The page's default threshold of 2.5 reads "High", in orange. */
  lemma DefaultCaption()
    ensures SensitivityLabel(2.5) == "High" && SensitivityColor(2.5) == "text-orange-600"
  {
  }
}
