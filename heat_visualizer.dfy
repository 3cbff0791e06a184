/** The traffic-light classifier of core/utils/heat_visualizer.py. In normal
    mode a higher score is better (a buildability-like percentage); in inverse
    mode a higher score is worse (a risk-like fraction). */
module HeatVisualizer {
  /** The returned triple `(emoji, color_tag, label)`, the label as `level`. */
  datatype Heat = Heat(emoji: string, color: string, level: string)

  const RedCircle := "\U{1F534}"
  const YellowCircle := "\U{1F7E1}"
  const GreenCircle := "\U{1F7E2}"
  const OrangeCircle := "\U{1F7E0}"

  const Critical := Heat(RedCircle, "RED", "CRITICAL")
  const InverseModerate := Heat(YellowCircle, "YELLOW", "MODERATE")
  const InverseLow := Heat(GreenCircle, "GREEN", "LOW")
  const LowRisk := Heat(GreenCircle, "GREEN", "LOW RISK")
  const NormalModerate := Heat(YellowCircle, "YELLOW", "MODERATE")
  const HighRisk := Heat(OrangeCircle, "ORANGE", "HIGH")

  /** `classify_heat(score, inverse)`. */
  function ClassifyHeat(score: real, inverse: bool): (h: Heat)
    ensures inverse ==> (h == Critical <==> score >= 0.7)
    ensures inverse ==> (h == InverseModerate <==> 0.4 <= score < 0.7)
    ensures inverse ==> (h == InverseLow <==> score < 0.4)
    ensures !inverse ==> (h == LowRisk <==> score >= 85.0)
    ensures !inverse ==> (h == NormalModerate <==> 70.0 <= score < 85.0)
    ensures !inverse ==> (h == HighRisk <==> 50.0 <= score < 70.0)
    ensures !inverse ==> (h == Critical <==> score < 50.0)
  {
    if inverse then
      if score >= 0.7 then Critical
      else if score >= 0.4 then InverseModerate
      else InverseLow
    else
      if score >= 85.0 then LowRisk
      else if score >= 70.0 then NormalModerate
      else if score >= 50.0 then HighRisk
      else Critical
  }

  /** How alarming a triple is: green 0, yellow 1, orange 2, red 3. */
  function Severity(h: Heat): nat {
    if h.color == "GREEN" then 0
    else if h.color == "YELLOW" then 1
    else if h.color == "ORANGE" then 2
    else 3
  }

  /** Every score maps to exactly one of the mode's triples. */
  lemma ClassifyHeatTotal(score: real, inverse: bool)
    ensures inverse ==> ClassifyHeat(score, inverse) in [Critical, InverseModerate, InverseLow]
    ensures !inverse ==> ClassifyHeat(score, inverse) in [LowRisk, NormalModerate, HighRisk, Critical]
  {
  }

  /** Raising the score never makes a normal-mode label more severe nor an
      inverse-mode label less severe. */
  lemma SeverityMonotone(x: real, y: real)
    requires x <= y
    ensures Severity(ClassifyHeat(y, false)) <= Severity(ClassifyHeat(x, false))
    ensures Severity(ClassifyHeat(x, true)) <= Severity(ClassifyHeat(y, true))
  {
  }
}
