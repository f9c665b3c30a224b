/**
 * The attention-gated capture controller: per frame, a cooldown check, the
 * object count, the cached coarse-face gate, gaze and head pose, then
 * capture, recognition and arming of the cooldown; and the frame loop that
 * refreshes the coarse-face cache every 30 frames.
 *
 * `Step` and `RunLoop` state what one frame and a whole run do; the class
 * `FaceRecognitionSystem` holds the mutable state and its methods are
 * proved to do what those functions say. Calls to collaborators, the saved
 * image and the log lines are recorded as a trace of effects.
 */
module Runner {
  import opened Wrappers
  import ObjectDetection
  import HeadPose
  import EyeGaze
  import FaceRecognition

  /** How long captures are suppressed after one, in seconds. */
  const CooldownSeconds: real := 30.0

  /** The coarse-face cache is refreshed on frames whose count is a multiple of this. */
  const FaceRefreshInterval: nat := 30

  /** The pixels of a frame; the controller never looks inside them. */
  type Pixels = seq<int>

  /** A coarse face region from the cascade detector. */
  datatype Region = Region(x: int, y: int, w: int, h: int)

  /** What the collaborators report about one frame. */
  datatype FrameInputs = FrameInputs(
    frame: Pixels,
    boxes: seq<ObjectDetection.Box>,
    gazeFaces: seq<EyeGaze.EyeRatios>,
    pose: HeadPose.PoseObservation,
    stored: FaceRecognition.Image)

  /** The collaborators that stay fixed for a session: the detector's class names and the gallery. */
  datatype Session = Session(
    classNames: map<nat, string>,
    knownEncodings: seq<FaceRecognition.Encoding>,
    knownNames: seq<string>,
    dist: FaceRecognition.Metric)

  predicate Ready(s: Session, inputs: FrameInputs) {
    |s.knownNames| == |s.knownEncodings| && ObjectDetection.KnownClasses(inputs.boxes, s.classNames)
  }

  datatype LogLine =
    | HeadPoseLogged(pose: Option<string>)
    | ImageCaptured
    | ResultsLogged(labels: seq<string>)
    | FacesLogged(faces: seq<Region>)
    | OpenFailed
    | ReadFailed
    | QuitRequested
    | Stopped

  /** Observable effects: collaborator calls, the saved image, log lines. */
  datatype Effect =
    | DetectObjects
    | GazeLandmarks
    | PoseLandmarks
    | DetectFaces
    | SaveImage(image: Pixels)
    | Recognize
    | Log(line: LogLine)

  /** What `process_frame` returns: the reported labels and the head pose, if evaluated. */
  datatype FrameResult = FrameResult(objects: seq<string>, headPose: Option<string>)

  datatype Outcome = Returned(result: FrameResult) | Raised(error: FaceRecognition.RecognitionError)

  datatype StepResult = StepResult(cooldownUntil: real, outcome: Outcome, effects: seq<Effect>)

  /** `person_count`: the number of confident detections, of any class. */
  function PersonCount(s: Session, inputs: FrameInputs): (n: nat)
    requires Ready(s, inputs)
    ensures n <= |inputs.boxes|
    ensures n == 0 <==> forall i :: 0 <= i < |inputs.boxes| ==> !ObjectDetection.Kept(inputs.boxes[i])
  {
    var labels := ObjectDetection.KeptLabels(inputs.boxes, s.classNames);
    if labels != [] then
      ObjectDetection.KeptLabelsMembers(inputs.boxes, s.classNames, labels[0]);
      |labels|
    else
      forall i | 0 <= i < |inputs.boxes| ensures !ObjectDetection.Kept(inputs.boxes[i]) {
        ObjectDetection.KeptLabelsMembers(inputs.boxes, s.classNames, s.classNames[inputs.boxes[i].clsId]);
      }
      |labels|
  }

  /** Gaze and head pose are evaluated only for one reported object and a non-empty face cache. */
  predicate GatePasses(s: Session, faces: seq<Region>, inputs: FrameInputs)
    requires Ready(s, inputs)
  {
    PersonCount(s, inputs) == 1 && |faces| > 0
  }

  /** One call of `process_frame`, given the cooldown and the cached faces. */
  function Step(s: Session, cooldownUntil: real, faces: seq<Region>, now: real, inputs: FrameInputs): (r: StepResult)
    requires Ready(s, inputs)
    ensures r.cooldownUntil == cooldownUntil || (now >= cooldownUntil && r.cooldownUntil == now + CooldownSeconds)
    ensures r.effects == [] <==> now < cooldownUntil
    ensures r.outcome.Raised? ==> r.cooldownUntil == cooldownUntil
  {
    if now < cooldownUntil then
      StepResult(cooldownUntil, Returned(FrameResult([], None)), [])
    else
      var objects := ObjectDetection.KeptLabels(inputs.boxes, s.classNames);
      if GatePasses(s, faces, inputs) then
        var eyePos := EyeGaze.EyePos(inputs.gazeFaces);
        var headPose := HeadPose.GetHeadPose(inputs.pose);
        var evaluated := [DetectObjects, GazeLandmarks, PoseLandmarks, Log(HeadPoseLogged(headPose))];
        if eyePos != "" && headPose == Some(HeadPose.CenterCenter) then
          var captured := evaluated + [SaveImage(inputs.frame), Recognize];
          match FaceRecognition.RecognitionOf(inputs.stored, s.knownEncodings, s.knownNames, s.dist)
          case Err(e) => StepResult(cooldownUntil, Raised(e), captured)
          case Ok(labels) =>
            StepResult(now + CooldownSeconds, Returned(FrameResult(objects, headPose)),
                       captured + [Log(ImageCaptured), Log(ResultsLogged(labels))])
        else
          StepResult(cooldownUntil, Returned(FrameResult(objects, headPose)), evaluated)
      else
        StepResult(cooldownUntil, Returned(FrameResult(objects, None)), [DetectObjects])
  }

  /** One frame as the loop sees it: the clock, the cascade's regions, the collaborators' reports, the quit key. */
  datatype FrameObservation = FrameObservation(now: real, coarseFaces: seq<Region>, inputs: FrameInputs, quitKey: bool)

  predicate AllReady(s: Session, frames: seq<FrameObservation>) {
    forall i :: 0 <= i < |frames| ==> Ready(s, frames[i].inputs)
  }

  predicate RefreshDue(frameCount: nat) {
    frameCount % FaceRefreshInterval == 0
  }

  datatype RunEnd = NotOpened | StreamEnded | UserQuit | StoppedRunning | Crashed(error: FaceRecognition.RecognitionError)

  datatype RunResult = RunResult(cooldownUntil: real, faces: seq<Region>, effects: seq<Effect>, end: RunEnd)

  /** The frame loop from frame number `frameCount` on, over the frames still to be read. */
  function RunLoop(s: Session, running: bool, cooldownUntil: real, faces: seq<Region>,
                   frames: seq<FrameObservation>, frameCount: nat): (r: RunResult)
    requires AllReady(s, frames)
    ensures r.end == StoppedRunning <==> !running
    ensures r.end != NotOpened
    ensures !r.end.Crashed? ==> r.effects != [] && r.effects[|r.effects| - 1] == Log(Stopped)
    decreases |frames|
  {
    if !running then RunResult(cooldownUntil, faces, [Log(Stopped)], StoppedRunning)
    else if frames == [] then RunResult(cooldownUntil, faces, [Log(ReadFailed), Log(Stopped)], StreamEnded)
    else
      var obs := frames[0];
      var faces' := if RefreshDue(frameCount) then obs.coarseFaces else faces;
      var refresh := if RefreshDue(frameCount) then [DetectFaces, Log(FacesLogged(faces'))] else [];
      var r := Step(s, cooldownUntil, faces', obs.now, obs.inputs);
      match r.outcome
      case Raised(e) => RunResult(r.cooldownUntil, faces', refresh + r.effects, Crashed(e))
      case Returned(_) =>
        if obs.quitKey then
          RunResult(r.cooldownUntil, faces', refresh + r.effects + [Log(QuitRequested), Log(Stopped)], UserQuit)
        else
          var rest := RunLoop(s, running, r.cooldownUntil, faces', frames[1..], frameCount + 1);
          RunResult(rest.cooldownUntil, rest.faces, refresh + r.effects + rest.effects, rest.end)
  }

  /** `run`: give up when the video source cannot be opened, otherwise loop from frame 0. */
  function RunSpec(s: Session, sourceOpen: bool, running: bool, cooldownUntil: real, faces: seq<Region>,
                   frames: seq<FrameObservation>): (r: RunResult)
    requires AllReady(s, frames)
    ensures r.end == NotOpened <==> !sourceOpen
    ensures !sourceOpen ==> r.cooldownUntil == cooldownUntil && r.faces == faces && Log(Stopped) !in r.effects
    ensures sourceOpen && !r.end.Crashed? ==> r.effects != [] && r.effects[|r.effects| - 1] == Log(Stopped)
  {
    if !sourceOpen then RunResult(cooldownUntil, faces, [Log(OpenFailed)], NotOpened)
    else RunLoop(s, running, cooldownUntil, faces, frames, 0)
  }

  // ---------------------------------------------------------------------
  // Properties of one frame
  // ---------------------------------------------------------------------

  /** The recognition attempted on a capture, at the default tolerance. */
  function CaptureRecognition(s: Session, inputs: FrameInputs): Result<seq<string>, FaceRecognition.RecognitionError>
    requires Ready(s, inputs)
  {
    FaceRecognition.RecognitionOf(inputs.stored, s.knownEncodings, s.knownNames, s.dist)
  }

  /** The capture branch is taken: the gate passed and the head pose is centred on both axes. */
  predicate CaptureDue(s: Session, cooldownUntil: real, faces: seq<Region>, now: real, inputs: FrameInputs)
    requires Ready(s, inputs)
  {
    now >= cooldownUntil && GatePasses(s, faces, inputs) &&
    HeadPose.GetHeadPose(inputs.pose) == Some(HeadPose.CenterCenter)
  }

  /** During the cooldown a frame returns nothing, calls no collaborator and changes nothing. */
  lemma SuppressedDuringCooldown(s: Session, cooldownUntil: real, faces: seq<Region>, now: real, inputs: FrameInputs)
    requires Ready(s, inputs) && now < cooldownUntil
    ensures Step(s, cooldownUntil, faces, now, inputs) == StepResult(cooldownUntil, Returned(FrameResult([], None)), [])
  {
  }

  /**
   * The cooldown moves only on a capture whose recognition returns, and then
   * to exactly 30 seconds after the frame's clock reading; it never moves back.
   */
  lemma CooldownArmedOnlyByCapture(s: Session, cooldownUntil: real, faces: seq<Region>, now: real, inputs: FrameInputs)
    requires Ready(s, inputs)
    ensures var r := Step(s, cooldownUntil, faces, now, inputs);
            (r.cooldownUntil != cooldownUntil <==>
               CaptureDue(s, cooldownUntil, faces, now, inputs) && CaptureRecognition(s, inputs).Ok?) &&
            (r.cooldownUntil != cooldownUntil ==> r.cooldownUntil == now + CooldownSeconds) &&
            r.cooldownUntil >= cooldownUntil
  {
    var r := Step(s, cooldownUntil, faces, now, inputs);
    if now >= cooldownUntil && GatePasses(s, faces, inputs) {
      assert EyeGaze.EyePos(inputs.gazeFaces) != "";
      if HeadPose.GetHeadPose(inputs.pose) == Some(HeadPose.CenterCenter) {
        assert SaveImage(inputs.frame) in r.effects && Recognize in r.effects;
      } else {
        assert r.effects == [DetectObjects, GazeLandmarks, PoseLandmarks, Log(HeadPoseLogged(HeadPose.GetHeadPose(inputs.pose)))];
      }
    } else if now >= cooldownUntil {
      assert r.effects == [DetectObjects];
    }
  }

  /**
   * Gaze and head pose are evaluated exactly when the cooldown is over, one
   * object is reported and the face cache is non-empty; otherwise the
   * returned head pose is `None`.
   */
  lemma AttentionGate(s: Session, cooldownUntil: real, faces: seq<Region>, now: real, inputs: FrameInputs)
    requires Ready(s, inputs)
    ensures var r := Step(s, cooldownUntil, faces, now, inputs);
            (GazeLandmarks in r.effects <==> now >= cooldownUntil && GatePasses(s, faces, inputs)) &&
            (PoseLandmarks in r.effects <==> now >= cooldownUntil && GatePasses(s, faces, inputs)) &&
            (!GatePasses(s, faces, inputs) ==> r.outcome.Returned? && r.outcome.result.headPose == None)
  {
  }

  /**
   * An image is saved and recognised exactly when the capture branch is due,
   * and the image saved is the frame as it came in.
   */
  lemma CaptureIff(s: Session, cooldownUntil: real, faces: seq<Region>, now: real, inputs: FrameInputs)
    requires Ready(s, inputs)
    ensures var r := Step(s, cooldownUntil, faces, now, inputs);
            (SaveImage(inputs.frame) in r.effects <==> CaptureDue(s, cooldownUntil, faces, now, inputs)) &&
            (Recognize in r.effects <==> CaptureDue(s, cooldownUntil, faces, now, inputs)) &&
            (forall e :: e in r.effects && e.SaveImage? ==> e.image == inputs.frame)
  {
    var r := Step(s, cooldownUntil, faces, now, inputs);
    if now >= cooldownUntil && GatePasses(s, faces, inputs) {
      assert EyeGaze.EyePos(inputs.gazeFaces) != "";
      if HeadPose.GetHeadPose(inputs.pose) == Some(HeadPose.CenterCenter) {
        assert SaveImage(inputs.frame) in r.effects && Recognize in r.effects;
      } else {
        assert r.effects == [DetectObjects, GazeLandmarks, PoseLandmarks, Log(HeadPoseLogged(HeadPose.GetHeadPose(inputs.pose)))];
      }
    } else if now >= cooldownUntil {
      assert r.effects == [DetectObjects];
    }
  }

  /** The gaze reading never changes what a frame does. */
  lemma GazeNeverGates(s: Session, cooldownUntil: real, faces: seq<Region>, now: real,
                       inputs: FrameInputs, gazeFaces: seq<EyeGaze.EyeRatios>)
    requires Ready(s, inputs)
    ensures Step(s, cooldownUntil, faces, now, inputs) ==
            Step(s, cooldownUntil, faces, now, inputs.(gazeFaces := gazeFaces))
  {
    assert EyeGaze.EyePos(inputs.gazeFaces) != "";
    assert EyeGaze.EyePos(gazeFaces) != "";
  }

  /** Outside the cooldown, the reported labels are the detector's whatever the gate decides. */
  lemma ObjectsAlwaysReported(s: Session, cooldownUntil: real, faces: seq<Region>, now: real, inputs: FrameInputs)
    requires Ready(s, inputs) && now >= cooldownUntil
    ensures var r := Step(s, cooldownUntil, faces, now, inputs);
            r.outcome.Returned? ==> r.outcome.result.objects == ObjectDetection.KeptLabels(inputs.boxes, s.classNames)
  {
  }

  /** A recognition error leaves the frame before the cooldown is armed. */
  lemma RecognitionErrorKeepsCooldown(s: Session, cooldownUntil: real, faces: seq<Region>, now: real, inputs: FrameInputs)
    requires Ready(s, inputs)
    ensures var r := Step(s, cooldownUntil, faces, now, inputs);
            (r.outcome.Raised? <==> CaptureDue(s, cooldownUntil, faces, now, inputs) && CaptureRecognition(s, inputs).Err?) &&
            (r.outcome.Raised? ==> r.cooldownUntil == cooldownUntil && r.outcome.error == CaptureRecognition(s, inputs).error)
  {
    if now >= cooldownUntil && GatePasses(s, faces, inputs) {
      assert EyeGaze.EyePos(inputs.gazeFaces) != "";
    }
  }

  /**
   * The count behind the gate is of every confident label: a lone confident
   * box of any class passes it.
   */
  lemma AnyClassCounts(s: Session, faces: seq<Region>, inputs: FrameInputs, b: ObjectDetection.Box)
    requires Ready(s, inputs) && inputs.boxes == [b] && b.conf > ObjectDetection.ConfidenceThreshold
    requires faces != []
    ensures GatePasses(s, faces, inputs)
    ensures PersonCount(s, inputs) == 1
  {
    assert inputs.boxes[..0] == [];
    assert inputs.boxes[0] == b;
    assert ObjectDetection.KeptLabels(inputs.boxes, s.classNames) == [s.classNames[b.clsId]];
  }

  /**
   * After a capture at `t0`, every frame before `t0 + 30` is suppressed and
   * every frame from then on is evaluated again.
   */
  lemma CooldownWindow(s: Session, cooldownUntil: real, faces: seq<Region>, t0: real, inputs: FrameInputs,
                       t: real, later: FrameInputs)
    requires Ready(s, inputs) && Ready(s, later)
    requires CaptureDue(s, cooldownUntil, faces, t0, inputs) && CaptureRecognition(s, inputs).Ok?
    ensures var armed := Step(s, cooldownUntil, faces, t0, inputs).cooldownUntil;
            var r := Step(s, armed, faces, t, later);
            (t0 <= t < t0 + CooldownSeconds ==> r == StepResult(armed, Returned(FrameResult([], None)), [])) &&
            (t >= t0 + CooldownSeconds ==> DetectObjects in r.effects)
  {
    CooldownArmedOnlyByCapture(s, cooldownUntil, faces, t0, inputs);
  }

  // ---------------------------------------------------------------------
  // Properties of the frame loop
  // ---------------------------------------------------------------------

  /** The cooldown never moves back over a run. */
  lemma {:induction false} RunCooldownMonotone(s: Session, running: bool, cooldownUntil: real, faces: seq<Region>,
                                               frames: seq<FrameObservation>, frameCount: nat)
    requires AllReady(s, frames)
    ensures RunLoop(s, running, cooldownUntil, faces, frames, frameCount).cooldownUntil >= cooldownUntil
    decreases |frames|
  {
    if running && frames != [] {
      var obs := frames[0];
      var faces' := if RefreshDue(frameCount) then obs.coarseFaces else faces;
      var r := Step(s, cooldownUntil, faces', obs.now, obs.inputs);
      CooldownArmedOnlyByCapture(s, cooldownUntil, faces', obs.now, obs.inputs);
      if r.outcome.Returned? && !obs.quitKey {
        RunCooldownMonotone(s, running, r.cooldownUntil, faces', frames[1..], frameCount + 1);
      }
    }
  }

  /**
   * How many frames the loop reads before it ends: every frame it reads is
   * processed, and a raise or the quit key ends the loop after that frame.
   */
  function FramesRead(s: Session, running: bool, cooldownUntil: real, faces: seq<Region>,
                      frames: seq<FrameObservation>, frameCount: nat): (n: nat)
    requires AllReady(s, frames)
    ensures n <= |frames|
    ensures n == 0 <==> !running || frames == []
    decreases |frames|
  {
    if !running || frames == [] then 0
    else
      var obs := frames[0];
      var faces' := if RefreshDue(frameCount) then obs.coarseFaces else faces;
      var r := Step(s, cooldownUntil, faces', obs.now, obs.inputs);
      if r.outcome.Raised? || obs.quitKey then 1
      else 1 + FramesRead(s, running, r.cooldownUntil, faces', frames[1..], frameCount + 1)
  }

  /**
   * The face cache after a run holds the cascade's regions from the last
   * frame the loop read whose count is a multiple of 30.
   */
  lemma {:induction false} RunFacesFromRefresh(s: Session, running: bool, cooldownUntil: real, faces: seq<Region>,
                                               frames: seq<FrameObservation>, frameCount: nat)
    requires AllReady(s, frames)
    ensures var n := FramesRead(s, running, cooldownUntil, faces, frames, frameCount);
            forall m :: frameCount <= m < frameCount + n && RefreshDue(m) &&
                        (forall m' :: m < m' < frameCount + n ==> !RefreshDue(m')) ==>
                          RunLoop(s, running, cooldownUntil, faces, frames, frameCount).faces ==
                          frames[m - frameCount].coarseFaces
    decreases |frames|
  {
    if running && frames != [] {
      var obs := frames[0];
      var faces' := if RefreshDue(frameCount) then obs.coarseFaces else faces;
      var r := Step(s, cooldownUntil, faces', obs.now, obs.inputs);
      if r.outcome.Returned? && !obs.quitKey {
        var rest := frames[1..];
        var n := FramesRead(s, running, cooldownUntil, faces, frames, frameCount);
        assert n == 1 + FramesRead(s, running, r.cooldownUntil, faces', rest, frameCount + 1);
        var out := RunLoop(s, running, r.cooldownUntil, faces', rest, frameCount + 1).faces;
        assert RunLoop(s, running, cooldownUntil, faces, frames, frameCount).faces == out;
        RunFacesFromRefresh(s, running, r.cooldownUntil, faces', rest, frameCount + 1);
        forall m | frameCount <= m < frameCount + n && RefreshDue(m) &&
                   (forall m' :: m < m' < frameCount + n ==> !RefreshDue(m'))
          ensures out == frames[m - frameCount].coarseFaces
        {
          if m == frameCount {
            NoRefreshKeepsFaces(s, running, r.cooldownUntil, faces', rest, frameCount + 1);
          } else {
            assert rest[m - (frameCount + 1)] == frames[m - frameCount];
          }
        }
      }
    }
  }

  /** Between refreshes the face cache is untouched: a run that reads no refresh frame keeps it. */
  lemma {:induction false} NoRefreshKeepsFaces(s: Session, running: bool, cooldownUntil: real, faces: seq<Region>,
                                               frames: seq<FrameObservation>, frameCount: nat)
    requires AllReady(s, frames)
    requires forall n :: frameCount <= n < frameCount + FramesRead(s, running, cooldownUntil, faces, frames, frameCount) ==>
               !RefreshDue(n)
    ensures RunLoop(s, running, cooldownUntil, faces, frames, frameCount).faces == faces
    decreases |frames|
  {
    if running && frames != [] {
      var obs := frames[0];
      assert !RefreshDue(frameCount);
      var r := Step(s, cooldownUntil, faces, obs.now, obs.inputs);
      if r.outcome.Returned? && !obs.quitKey {
        NoRefreshKeepsFaces(s, running, r.cooldownUntil, faces, frames[1..], frameCount + 1);
      }
    }
  }

  /**
   * A run of one frame: the cascade runs and the cache is replaced exactly
   * when the frame count is a multiple of 30, and `process_frame` is given
   * the cache as it stands after that refresh.
   */
  lemma RefreshBeforeProcessing(s: Session, cooldownUntil: real, faces: seq<Region>,
                                frames: seq<FrameObservation>, frameCount: nat)
    requires AllReady(s, frames) && |frames| == 1
    ensures var obs := frames[0];
            var refreshed := if RefreshDue(frameCount) then obs.coarseFaces else faces;
            var r := RunLoop(s, true, cooldownUntil, faces, frames, frameCount);
            r.faces == refreshed &&
            (DetectFaces in r.effects <==> RefreshDue(frameCount)) &&
            r.cooldownUntil == Step(s, cooldownUntil, refreshed, obs.now, obs.inputs).cooldownUntil
  {
    var obs := frames[0];
    var refreshed := if RefreshDue(frameCount) then obs.coarseFaces else faces;
    StepNeverDetectsFaces(s, cooldownUntil, refreshed, obs.now, obs.inputs);
    assert frames[1..] == [];
  }

  /** Only the loop calls the cascade detector; a frame's processing never does. */
  lemma StepNeverDetectsFaces(s: Session, cooldownUntil: real, faces: seq<Region>, now: real, inputs: FrameInputs)
    requires Ready(s, inputs)
    ensures DetectFaces !in Step(s, cooldownUntil, faces, now, inputs).effects
  {
  }

  lemma AppendAssoc<T>(a: seq<T>, b: seq<T>, c: seq<T>)
    ensures a + b + c == a + (b + c)
  {
  }

  class FaceRecognitionSystem {
    const classNames: map<nat, string>
    const knownEncodings: seq<FaceRecognition.Encoding>
    const knownNames: seq<string>
    const dist: FaceRecognition.Metric
    var cooldownUntil: real
    var faces: seq<Region>
    var running: bool
    ghost var effects: seq<Effect>

    function Collaborators(): Session {
      Session(classNames, knownEncodings, knownNames, dist)
    }

    constructor (galleryFiles: seq<FaceRecognition.GalleryFile>, classNames: map<nat, string>, dist: FaceRecognition.Metric)
      ensures this.classNames == classNames && this.dist == dist
      ensures |knownEncodings| == |knownNames| == |FaceRecognition.Gallery(galleryFiles)|
      ensures forall k :: 0 <= k < |knownNames| ==>
                knownNames[k] == FaceRecognition.Name(FaceRecognition.Gallery(galleryFiles)[k].filename) &&
                knownEncodings[k] == FaceRecognition.Gallery(galleryFiles)[k].face.value
      ensures cooldownUntil == 0.0 && faces == [] && running && effects == []
    {
      var encodings, names := FaceRecognition.LoadDatabase(galleryFiles);
      this.classNames := classNames;
      this.dist := dist;
      knownEncodings, knownNames := encodings, names;
      cooldownUntil := 0.0;
      faces := [];
      running := true;
      effects := [];
    }

    /** `process_frame`, with the clock reading `now` and the collaborators' reports as inputs. */
    method ProcessFrame(now: real, inputs: FrameInputs) returns (outcome: Outcome)
      requires Ready(Collaborators(), inputs)
      modifies this
      ensures var r := Step(Collaborators(), old(cooldownUntil), old(faces), now, inputs);
              cooldownUntil == r.cooldownUntil && outcome == r.outcome && effects == old(effects) + r.effects
      ensures faces == old(faces) && running == old(running)
    {
      if now < cooldownUntil {
        return Returned(FrameResult([], None));
      }
      var detectedObjects := ObjectDetection.DetectObject(inputs.boxes, classNames);
      var personCount := |detectedObjects|;
      var headPose: Option<string> := None;
      if personCount == 1 && |faces| > 0 {
        var frame, eyePos := EyeGaze.ProcessFrame(inputs.frame, inputs.gazeFaces);
        headPose := HeadPose.GetHeadPose(inputs.pose);
        ghost var evaluated := [DetectObjects, GazeLandmarks, PoseLandmarks, Log(HeadPoseLogged(headPose))];
        if eyePos != "" && headPose == Some(HeadPose.CenterCenter) {
          var results := FaceRecognition.RecognizeFromImage(inputs.stored, knownEncodings, knownNames, dist);
          ghost var captured := evaluated + [SaveImage(frame), Recognize];
          if results.Err? {
            effects := effects + captured;
            return Raised(results.error);
          }
          effects := effects + captured + [Log(ImageCaptured), Log(ResultsLogged(results.value))];
          cooldownUntil := now + CooldownSeconds;
        } else {
          effects := effects + evaluated;
        }
      } else {
        effects := effects + [DetectObjects];
      }
      return Returned(FrameResult(detectedObjects, headPose));
    }

    /**
     * `run`: read frames until the stream ends, the quit key is seen or a
     * frame raises; refresh the coarse-face cache before `process_frame` on
     * every 30th frame, counting from 0.
     */
    method Run(sourceOpen: bool, frames: seq<FrameObservation>) returns (end: RunEnd)
      requires AllReady(Collaborators(), frames)
      modifies this
      ensures var r := RunSpec(Collaborators(), sourceOpen, old(running), old(cooldownUntil), old(faces), frames);
              cooldownUntil == r.cooldownUntil && faces == r.faces && effects == old(effects) + r.effects && end == r.end
      ensures running == old(running)
    {
      if !sourceOpen {
        effects := effects + [Log(OpenFailed)];
        return NotOpened;
      }
      ghost var total := RunLoop(Collaborators(), running, cooldownUntil, faces, frames, 0);
      var frameCount := 0;
      end := StoppedRunning;
      while running
        invariant 0 <= frameCount <= |frames|
        invariant running == old(running)
        invariant AllReady(Collaborators(), frames[frameCount..])
        invariant var r := RunLoop(Collaborators(), running, cooldownUntil, faces, frames[frameCount..], frameCount);
                  r.cooldownUntil == total.cooldownUntil && r.faces == total.faces && r.end == total.end &&
                  effects + r.effects == old(effects) + total.effects
        decreases |frames| - frameCount
      {
        if frameCount == |frames| {
          ghost var effects0 := effects;
          effects := effects + [Log(ReadFailed)];
          end := StreamEnded;
          AppendAssoc(effects0, [Log(ReadFailed)], [Log(Stopped)]);
          break;
        }
        var obs := frames[frameCount];
        ghost var rest := frames[frameCount..];
        assert rest[0] == obs && rest[1..] == frames[frameCount + 1..];
        ghost var before := RunLoop(Collaborators(), running, cooldownUntil, faces, rest, frameCount);
        ghost var refreshed := if RefreshDue(frameCount) then obs.coarseFaces else faces;
        ghost var refresh := if RefreshDue(frameCount) then [DetectFaces, Log(FacesLogged(refreshed))] else [];
        ghost var step := Step(Collaborators(), cooldownUntil, refreshed, obs.now, obs.inputs);
        ghost var effects0 := effects;
        if frameCount % FaceRefreshInterval == 0 {
          faces := obs.coarseFaces;
          effects := effects + [DetectFaces, Log(FacesLogged(faces))];
        }
        assert faces == refreshed && effects == effects0 + refresh;
        var outcome := ProcessFrame(obs.now, obs.inputs);
        ghost var effects1 := effects;
        assert effects1 == effects0 + refresh + step.effects;
        if outcome.Raised? {
          assert before == RunResult(step.cooldownUntil, refreshed, refresh + step.effects, Crashed(outcome.error));
          AppendAssoc(effects0, refresh, step.effects);
          return Crashed(outcome.error);
        }
        if obs.quitKey {
          ghost var tail := [Log(QuitRequested), Log(Stopped)];
          assert before == RunResult(step.cooldownUntil, refreshed, refresh + step.effects + tail, UserQuit);
          effects := effects + [Log(QuitRequested)];
          end := UserQuit;
          AppendAssoc(effects0, refresh, step.effects);
          AppendAssoc(effects0, refresh + step.effects, tail);
          AppendAssoc(effects1, [Log(QuitRequested)], [Log(Stopped)]);
          break;
        }
        ghost var after := RunLoop(Collaborators(), running, cooldownUntil, faces, frames[frameCount + 1..], frameCount + 1);
        assert before == RunResult(after.cooldownUntil, after.faces, refresh + step.effects + after.effects, after.end);
        AppendAssoc(effects0, refresh, step.effects);
        AppendAssoc(effects0, refresh + step.effects, after.effects);
        frameCount := frameCount + 1;
      }
      assert effects + [Log(Stopped)] == old(effects) + total.effects;
      effects := effects + [Log(Stopped)];
    }
  }
}
