/** Threat classes, detection candidates, and the calibration of confidence to severity. */
module Alerts {

  datatype ThreatClass = VolumetricDos | BotnetC2 | DgaDns | EncryptedMalware | ReconScan | DataExfil

  datatype Candidate = Candidate(threatClass: ThreatClass, confidence: real)

  datatype Severity = Low | Moderate | High | Critical {
    function Rank(): nat {
      match this
      case Low => 0
      case Moderate => 1
      case High => 2
      case Critical => 3
    }
  }

  /** `calibrate_severity` */
  function CalibrateSeverity(confidence: real): Severity {
    if confidence >= 0.95 then Critical
    else if confidence >= 0.90 then High
    else if confidence >= 0.80 then Moderate
    else Low
  }
}
