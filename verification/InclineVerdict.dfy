/**
  The gradient check inside the verdict: what `incline_findings` finds on the resampled profile is
  among the findings of `assess_route`, so a route with a steep stretch drawn on it is never offered
  as accessible.
*/
module InclineVerdict {
  import opened Geometry
  import A = Accessibility
  import E = Elevation

  /** Where the grid's samples lie: coordinates, and distance from the start. */
  datatype Place = Place(point: LatLon, at: real)

  function IndexOf(f: E.Finding): nat {
    match f
    case Steep(index) => index
    case Sustained(index) => index
  }

  /** The findings of the gradient check as the verdict takes them. */
  function AsFindings(found: seq<E.Finding>, place: nat -> Place): (out: seq<A.Finding>)
    ensures |out| == |found|
    ensures forall i {:trigger out[i]} | 0 <= i < |out| ::
              var p := place(IndexOf(found[i])); out[i] == A.Finding(A.Incline, p.point.lat, p.point.lon, p.at)
  {
    seq(|found|, i requires 0 <= i < |found| =>
      var p := place(IndexOf(found[i])); A.Finding(A.Incline, p.point.lat, p.point.lon, p.at))
  }

  /** `assess_route` with the findings of its own gradient check. */
  function Judged(line: Line, t: A.Tags, profile: seq<real>, place: nat -> Place): A.Report
    requires IsLine(line)
  {
    A.Assessed(line, t, AsFindings(E.InclineFindings(profile), place))
  }

  /** FAIL exactly when a tag fails or the gradient check finds something. */
  lemma FailIff(line: Line, t: A.Tags, profile: seq<real>, place: nat -> Place)
    requires IsLine(line) && Sum(line.lengths) > 0.0
    ensures Judged(line, t, profile, place).verdict == A.Fail <==> A.SomeFail(line, t) || E.InclineFindings(profile) != []
  {
    A.FailIff(line, t, AsFindings(E.InclineFindings(profile), place));
  }

  lemma FindingsIff(profile: seq<real>, steep: seq<E.Stretch>)
    requires |profile| >= 3 && E.AreRuns(E.Flags(profile), steep)
    ensures E.InclineFindings(profile) != [] <==> steep != [] || E.SustainedFinding(E.Gradients(profile)) != []
  {
    E.DrawingAndVerdictAgree(profile, steep);
  }

  /** With nothing in the tags against the route: drawn steep, or a sustained climb, and no other way to FAIL. */
  lemma RefusedIff(line: Line, t: A.Tags, profile: seq<real>, place: nat -> Place, steep: seq<E.Stretch>)
    requires IsLine(line) && Sum(line.lengths) > 0.0 && !A.SomeFail(line, t)
    requires |profile| >= 3 && E.AreRuns(E.Flags(profile), steep)
    ensures Judged(line, t, profile, place).verdict == A.Fail
       <==> steep != [] || E.SustainedFinding(E.Gradients(profile)) != []
  {
    FailIff(line, t, profile, place);
    FindingsIff(profile, steep);
  }

  /** Drawn steep is refused, whatever the tags say, with a finding at a sample inside a drawn stretch. */
  lemma DrawnSteepIsRefused(line: Line, t: A.Tags, profile: seq<real>, place: nat -> Place, steep: seq<E.Stretch>)
    returns (k: nat)
    requires IsLine(line) && |line.points| >= 2 && Sum(line.lengths) > 0.0
    requires |profile| >= 3 && E.AreRuns(E.Flags(profile), steep) && steep != []
    ensures Judged(line, t, profile, place).verdict == A.Fail && E.Within(steep, k)
    ensures A.Finding(A.Incline, place(k).point.lat, place(k).point.lon, place(k).at)
            in Judged(line, t, profile, place).findings
  {
    E.DrawingAndVerdictAgree(profile, steep);
    FailIff(line, t, profile, place);
    var found := AsFindings(E.InclineFindings(profile), place);
    k := IndexOf(E.InclineFindings(profile)[0]);
    assert found[0] in A.AllFindings(line, t, found);
  }
}
