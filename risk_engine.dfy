/** The schedule risk score of core/risk/risk_engine.py: a linear score in the
    total duration and the number of conflicts, and a three-level label. */
module RiskEngine {
  /** `{"risk_score": ..., "risk_level": ...}`: exactly these two keys. */
  datatype Risk = Risk(riskScore: int, riskLevel: string)

  const Low := "Low"
  const Moderate := "Moderate"
  const High := "High"

  /** The label of a score: below 15, below 40, or above. */
  function RiskLevel(score: int): (level: string)
    ensures level == Low <==> score < 15
    ensures level == Moderate <==> 15 <= score < 40
    ensures level == High <==> 40 <= score
  {
    if score < 15 then Low
    else if score < 40 then Moderate
    else High
  }

  /** `calculate_risk(total_duration, conflict_count)`. */
  function CalculateRisk(totalDuration: int, conflictCount: nat): (r: Risk)
    ensures r.riskScore == 2 * totalDuration + 10 * conflictCount
    ensures r.riskLevel == RiskLevel(r.riskScore)
  {
    var durationFactor := totalDuration * 2;
    var conflictFactor := conflictCount * 10;
    var riskScore := durationFactor + conflictFactor;
    Risk(riskScore, RiskLevel(riskScore))
  }

  /** Severity order of the labels. */
  function LevelRank(level: string): nat {
    if level == Low then 0 else if level == Moderate then 1 else 2
  }

  /** A longer schedule or more conflicts never lower the score nor the label. */
  lemma RiskMonotone(t1: int, c1: nat, t2: int, c2: nat)
    requires t1 <= t2 && c1 <= c2
    ensures CalculateRisk(t1, c1).riskScore <= CalculateRisk(t2, c2).riskScore
    ensures LevelRank(CalculateRisk(t1, c1).riskLevel) <= LevelRank(CalculateRisk(t2, c2).riskLevel)
  {
  }

  /** Non-negative inputs give a non-negative score. */
  lemma RiskNonNegative(totalDuration: int, conflictCount: nat)
    requires totalDuration >= 0
    ensures CalculateRisk(totalDuration, conflictCount).riskScore >= 0
  {
  }

  /** The score has no upper clamp: every bound is exceeded by some duration. */
  lemma RiskUnclamped(bound: int) returns (totalDuration: int)
    ensures CalculateRisk(totalDuration, 0).riskScore > bound
  {
    totalDuration := if bound < 0 then 0 else bound + 1;
  }
}
