/**
 * Gaze classification. The face mesh and the ratio arithmetic are
 * collaborators: for each face the mesh reports, the input gives the left
 * eye's ratio (measured from its inner corner) and the right eye's ratio
 * (measured from its outer corner).
 */
module EyeGaze {

  /** The horizontal iris ratios computed for one detected face. */
  datatype EyeRatios = EyeRatios(leftRatio: real, rightRatio: real)

  const RightThreshold: real := 0.35
  const LeftThreshold: real := 0.65

  /** The value of `eye_pos` when the mesh reports no face. */
  const UnknownEyePos: string := "Unknown,Unknown"

  /** The one threshold rule, applied to either eye's ratio. */
  function GazeLabel(ratio: real): (g: string)
    ensures g == "Right" <==> ratio < RightThreshold
    ensures g == "Left" <==> ratio > LeftThreshold
    ensures g == "Center" <==> RightThreshold <= ratio <= LeftThreshold
  {
    if ratio < RightThreshold then "Right"
    else if ratio > LeftThreshold then "Left"
    else "Center"
  }

  /** The nine gaze strings a face can give. */
  const FaceEyePositions: set<string> := {
    "Right,Right", "Right,Center", "Right,Left",
    "Center,Right", "Center,Center", "Center,Left",
    "Left,Right", "Left,Center", "Left,Left"}

  /** The gaze string of one face: the left eye's label first. */
  function FaceEyePos(f: EyeRatios): (p: string)
    ensures p in FaceEyePositions
    ensures p != UnknownEyePos
  {
    var a, b := GazeLabel(f.leftRatio), GazeLabel(f.rightRatio);
    JoinedLabels(a, b);
    a + "," + b
  }

  /** Joining two gaze labels gives one of the nine gaze strings, each spelled out. */
  lemma JoinedLabels(a: string, b: string)
    requires a == "Right" || a == "Center" || a == "Left"
    requires b == "Right" || b == "Center" || b == "Left"
    ensures a + "," + b in FaceEyePositions && a + "," + b != UnknownEyePos
  {
    if a == "Right" {
      if b == "Right" {
        assert a + "," + b == "Right,Right";
      } else if b == "Center" {
        assert a + "," + b == "Right,Center";
      } else {
        assert a + "," + b == "Right,Left";
      }
    } else if a == "Center" {
      if b == "Right" {
        assert a + "," + b == "Center,Right";
      } else if b == "Center" {
        assert a + "," + b == "Center,Center";
      } else {
        assert a + "," + b == "Center,Left";
      }
    } else {
      if b == "Right" {
        assert a + "," + b == "Left,Right";
      } else if b == "Center" {
        assert a + "," + b == "Left,Center";
      } else {
        assert a + "," + b == "Left,Left";
      }
    }
  }

  /** The `eye_pos` that results from a list of faces: the last face's, or the default. */
  function EyePos(faces: seq<EyeRatios>): (p: string)
    ensures p != ""
    ensures faces == [] ==> p == UnknownEyePos
    ensures faces != [] ==> p == FaceEyePos(faces[|faces| - 1])
  {
    if faces == [] then UnknownEyePos else FaceEyePos(faces[|faces| - 1])
  }

  /**
   * One frame of gaze processing: every reported face overwrites `eye_pos`
   * in turn, and the frame is handed back unchanged.
   */
  method ProcessFrame<Frame>(frame: Frame, faces: seq<EyeRatios>) returns (out: Frame, eyePos: string)
    ensures out == frame
    ensures eyePos != ""
    ensures faces == [] ==> eyePos == UnknownEyePos
    ensures faces != [] ==> eyePos == FaceEyePos(faces[|faces| - 1])
  {
    eyePos := UnknownEyePos;
    for i := 0 to |faces|
      invariant i == 0 ==> eyePos == UnknownEyePos
      invariant i > 0 ==> eyePos == FaceEyePos(faces[i - 1])
    {
      var f := faces[i];
      var leftGaze := GazeLabel(f.leftRatio);
      var rightGaze := GazeLabel(f.rightRatio);
      eyePos := leftGaze + "," + rightGaze;
    }
    out := frame;
  }

  /** Both labels can be read back from the gaze string: the left one first. */
  lemma FaceEyePosDecodes(f: EyeRatios, g: EyeRatios)
    requires FaceEyePos(f) == FaceEyePos(g)
    ensures GazeLabel(f.leftRatio) == GazeLabel(g.leftRatio)
    ensures GazeLabel(f.rightRatio) == GazeLabel(g.rightRatio)
  {
    var a, b := GazeLabel(f.leftRatio), GazeLabel(f.rightRatio);
    var c, d := GazeLabel(g.leftRatio), GazeLabel(g.rightRatio);
    assert a + "," + b == c + "," + d;
    assert a == c by {
      // The three labels start with three different letters.
      assert (a + "," + b)[0] == a[0];
      assert (c + "," + d)[0] == c[0];
    }
    assert b == (a + "," + b)[|a| + 1..];
    assert d == (c + "," + d)[|c| + 1..];
  }

  /** Boundary values of the ratio rule: both thresholds are on the centred side. */
  lemma GazeExamples()
    ensures GazeLabel(0.2) == "Right" && GazeLabel(0.5) == "Center" && GazeLabel(0.8) == "Left"
    ensures GazeLabel(0.35) == "Center" && GazeLabel(0.65) == "Center"
  {
  }
}
