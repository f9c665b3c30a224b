/**
 * Head-pose direction rule: the classification of the decomposed pitch and
 * yaw (in degrees) into a "vertical,horizontal" string. The landmark
 * extraction and the pose solve are collaborators; what they report is the
 * input `PoseObservation`.
 */
module HeadPose {
  import opened Wrappers

  /** What the face mesh and the pose solve report for one frame. */
  datatype PoseObservation =
    | NoFaceLandmarks
    | SolveFailed
    | Solved(pitch: real, yaw: real, roll: real)

  const PitchThresholdDown: real := -15.0
  const YawThresholdLeft: real := -15.0
  const YawThresholdRight: real := 15.0

  /** The two open bands next to +-180 degrees that count as a centred pitch. */
  predicate InWrapBand(pitch: real) {
    (-180.0 < pitch < -170.0) || (170.0 < pitch < 180.0)
  }

  function Vertical(pitch: real): (v: string)
    ensures v == "Center" <==> InWrapBand(pitch)
    ensures v == "Down" <==> !InWrapBand(pitch) && pitch < PitchThresholdDown
    ensures v == "Up" <==> !InWrapBand(pitch) && pitch >= PitchThresholdDown
  {
    if InWrapBand(pitch) then "Center"
    else if pitch < PitchThresholdDown then "Down"
    else "Up"
  }

  function Horizontal(yaw: real): (h: string)
    ensures h == "Left" <==> yaw < YawThresholdLeft
    ensures h == "Right" <==> yaw > YawThresholdRight
    ensures h == "Center" <==> YawThresholdLeft <= yaw <= YawThresholdRight
  {
    if yaw < YawThresholdLeft then "Left"
    else if yaw > YawThresholdRight then "Right"
    else "Center"
  }

  /** The whitespace characters removed by Python's `str.strip` that can matter here. */
  predicate IsSpace(c: char) {
    c == ' ' || c == '\t' || c == '\n' || c == '\r' || c == '\U{B}' || c == '\U{C}'
  }

  function StripLeft(s: string): string {
    if s != [] && IsSpace(s[0]) then StripLeft(s[1..]) else s
  }

  function StripRight(s: string): string {
    if s != [] && IsSpace(s[|s| - 1]) then StripRight(s[..|s| - 1]) else s
  }

  function Strip(s: string): string {
    StripRight(StripLeft(s))
  }

  /**
   * The direction string, with Python's `strip()` applied to the formatted
   * result. The strip is a no-op: no label starts or ends with whitespace,
   * so the direction is the two labels joined by a comma.
   */
  function Direction(pitch: real, yaw: real): (d: string)
    ensures d == Vertical(pitch) + "," + Horizontal(yaw)
  {
    var s := Vertical(pitch) + "," + Horizontal(yaw);
    assert !IsSpace(s[0]);
    assert StripLeft(s) == s;
    assert !IsSpace(s[|s| - 1]);
    Strip(s)
  }

  const CenterCenter: string := "Center,Center"

  /** The pose reading of one frame: `None` on either early exit. */
  function GetHeadPose(obs: PoseObservation): (r: Option<string>)
    ensures r.None? <==> obs.NoFaceLandmarks? || obs.SolveFailed?
    ensures obs.Solved? ==> r == Some(Direction(obs.pitch, obs.yaw))
  {
    match obs
    case NoFaceLandmarks => None
    case SolveFailed => None
    case Solved(pitch, yaw, _) => Some(Direction(pitch, yaw))
  }

  /** The direction is "Center,Center" exactly when the pitch is in the band and |yaw| <= 15. */
  lemma CenterCenterIff(pitch: real, yaw: real)
    ensures Direction(pitch, yaw) == CenterCenter <==>
            InWrapBand(pitch) && YawThresholdLeft <= yaw <= YawThresholdRight
  {
    JoinLengths(Vertical(pitch), Horizontal(yaw));
  }

  /** The labels differ in length, so the length of their join already decides. */
  lemma JoinLengths(v: string, h: string)
    requires v == "Center" || v == "Down" || v == "Up"
    requires h == "Left" || h == "Right" || h == "Center"
    ensures v + "," + h == CenterCenter <==> v == "Center" && h == "Center"
  {
    if v == "Center" && h == "Center" {
      assert v + "," + h == CenterCenter;
    } else {
      assert |v + "," + h| != |CenterCenter|;
    }
  }

  /** Boundary values of the pitch rule. */
  lemma PitchExamples()
    ensures Vertical(0.0) == "Up" && Vertical(20.0) == "Up" && Vertical(-20.0) == "Down"
    ensures Vertical(175.0) == "Center" && Vertical(-175.0) == "Center"
    ensures Vertical(170.0) == "Up" && Vertical(-170.0) == "Down"
    ensures Vertical(180.0) == "Up" && Vertical(-180.0) == "Down"
    ensures Vertical(-15.0) == "Up"
  {
  }
}
