/** `ValidatorQuality` and its textual form (the `kQualities` table). */
module Qualities {
  import opened Wrappers

  /** Declared in the order of the enumeration: LOW = 0, MEDIUM = 1, HIGH = 2. */
  datatype Quality = Low | Medium | High

  /** The enumeration's integer value; the source compares qualities by it. */
  function Rank(q: Quality): (r: nat)
    ensures r <= 2 && ["LOW", "MEDIUM", "HIGH"][r] == QualityName(q)
  {
    match q
    case Low => 0
    case Medium => 1
    case High => 2
  }

  /** `toString(ValidatorQuality)`: `kQualities[q]`. */
  function QualityName(q: Quality): (s: string)
    ensures s in ["LOW", "MEDIUM", "HIGH"]
  {
    match q
    case Low => "LOW"
    case Medium => "MEDIUM"
    case High => "HIGH"
  }

  /** `parseQuality`: finds the name in `kQualities`, else "Unknown QUALITY <q>". */
  function ParseQuality(s: string): (r: Result<Quality, string>)
    ensures r.Ok? <==> s in ["LOW", "MEDIUM", "HIGH"]
    ensures r.Ok? ==> QualityName(r.value) == s
    ensures r.Err? ==> r.error == "Unknown QUALITY " + s
  {
    if s == "LOW" then Ok(Low)
    else if s == "MEDIUM" then Ok(Medium)
    else if s == "HIGH" then Ok(High)
    else Err("Unknown QUALITY " + s)
  }

  /** Printing then parsing a quality gives it back. */
  lemma ParseQualityName(q: Quality)
    ensures ParseQuality(QualityName(q)) == Ok(q)
  {
  }
}
