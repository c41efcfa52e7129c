/** The alert-history table's severity column: four bands on the size of the 24h change. */
module Severity {
  import opened Common

  datatype Level = Critical | High | Medium | Low

  /** `get_severity`: bands with inclusive lower bounds at 15, 10 and 5 percent, either direction. */
  function GetSeverity(pct: real): Level {
    var a := Abs(pct);
    if a >= 15.0 then Critical else if a >= 10.0 then High else if a >= 5.0 then Medium else Low
  }

  /** The text the table shows for each level. */
  function Label(l: Level): string {
    match l
    case Critical => "\U{1F534} Critical"
    case High => "\U{1F7E0} High"
    case Medium => "\U{1F7E1} Medium"
    case Low => "\U{1F7E2} Low"
  }

  /** The rank of a level, Low lowest. */
  function Rank(l: Level): nat {
    match l
    case Low => 0
    case Medium => 1
    case High => 2
    case Critical => 3
  }

  /** Each level is one band of |pct|, and a change and its opposite get the same level. */
  lemma SeverityBands(pct: real)
    ensures GetSeverity(pct) == Critical <==> Abs(pct) >= 15.0
    ensures GetSeverity(pct) == High <==> 10.0 <= Abs(pct) < 15.0
    ensures GetSeverity(pct) == Medium <==> 5.0 <= Abs(pct) < 10.0
    ensures GetSeverity(pct) == Low <==> Abs(pct) < 5.0
    ensures GetSeverity(-pct) == GetSeverity(pct)
  {
  }

  /** A bigger change never gets a lower level. */
  lemma SeverityMonotone(p: real, q: real)
    requires Abs(p) <= Abs(q)
    ensures Rank(GetSeverity(p)) <= Rank(GetSeverity(q))
  {
  }

  /** With the pipeline's threshold of 5%, every change that raises an alert is at least Medium,
      and every change below it is Low. */
  lemma AlertedIsAboveLow(pct: real)
    ensures GetSeverity(pct) != Low <==> Abs(pct) >= 5.0
  {
  }

  /** The labels tell the levels apart. */
  lemma LabelsDistinct(a: Level, b: Level)
    ensures Label(a) == Label(b) <==> a == b
  {
    if a != b {
      assert Label(a)[0] != Label(b)[0];
    }
  }
}
