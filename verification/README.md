# Attention-gated capture controller, modelled in Dafny

This project models the core of a doorbell-camera system. A frame loop reads a video stream. Every 30 frames it refreshes a cache of coarse face regions. For each frame it checks for exactly one confident detection (of any object class), a non-empty face cache and a head pose of `"Center,Center"`; the gaze reading plays no part. When all three hold, it saves the frame, recognises the faces in it against a gallery of known faces, and then suppresses all processing for a 30-second cooldown.

The computer-vision primitives are collaborators. Their outputs are inputs to the model:

- the object detector's boxes and class names;
- the face mesh's gaze ratios;
- the pose solve's pitch and yaw;
- the cascade detector's regions;
- the face encodings and the distance metric.

The clock reading of each frame is a parameter too. Collaborator calls, the saved image and the log lines are recorded as a trace of effects. "No detector call during the cooldown" is then a statement about that trace.

Modules, one per source file:

- `ObjectDetection` (`object_detection.dfy`): the confidence filter over detector boxes.
- `HeadPose` (`head_pose.dfy`): the pitch/yaw to `"vertical,horizontal"` rule and its two `None` exits.
- `EyeGaze` (`eye_gaze.dfy`): the per-eye ratio threshold rule and the `eye_pos` loop.
- `FaceRecognition` (`face_recognition.dfy`): the gallery file-name filter and name extraction, loading the gallery, the first-minimum match rule, recognition of a stored image, and the error exits of the command-line entry point.
- `Runner` (`run_multithreaded.dfy`): the pure specification `Step` of one `process_frame` call and `RunLoop` of the frame loop, the lemmas about them, and the class `FaceRecognitionSystem`. The class holds `cooldownUntil`, `faces` and `running`; its `ProcessFrame` and `Run` methods are proved to do what `Step` and `RunSpec` say.
- `Wrappers` (`wrappers.dfy`): `Option` and `Result`.

Behaviours of the code that are easy to get wrong, all modelled as the code has them:

- The vertical pose is `"Center"` only for a pitch strictly inside (-180, -170) or (170, 180). Any other pitch of -15 or more is `"Up"`, so a pitch of 0 gives `"Up"`, not `"Center"`. The constant `pitch_threshold_up` is defined and never used (head_pose_estimation.py:60,65).
- `person_count` counts every label whose confidence is above 0.5. There is no filter for the person class (object_detection.py:18-19, run_multithreaded.py:40).
- The gaze labels never gate a capture. `eye_pos` is never empty, so the test at run_multithreaded.py:50 reduces to the head-pose comparison.
- An error raised by recognition is not caught. It leaves `process_frame` and ends `run` (`RunEnd.Crashed`) rather than only the frame.
- The controller does not check that the gallery is non-empty. With an empty gallery, a capture whose stored image shows a face raises: numpy's minimum of an empty array (`RecognitionError.EmptyGallery`).

## Model

| member | source | states |
|---|---|---|
| `ObjectDetection.DetectObject` | object_detection.py:7-21 | The loop returns the labels of the boxes with confidence strictly above 0.5, in box order, and never more labels than boxes. |
| `ObjectDetection.KeptLabelsAppend` | object_detection.py:13-19 | Filtering distributes over concatenation, so the output keeps box order. |
| `ObjectDetection.KeptLabelsMembers` | object_detection.py:13-19 | A label is in the output iff some box above the threshold carries that class name; the output is at most as long as the box list. |
| `ObjectDetection.AllConfidentKept` | object_detection.py:15-19 | When every box is confident, the output is each box's class name, one per box, in order. |
| `ObjectDetection.ThresholdIsExclusive` | object_detection.py:18 | A box with confidence exactly 0.5 is not reported. |
| `HeadPose.Vertical` | head_pose_estimation.py:60-65 | `"Center"` iff the pitch is in the open band near +-180; outside it, `"Down"` iff pitch < -15 and `"Up"` otherwise. |
| `HeadPose.Horizontal` | head_pose_estimation.py:62-66 | `"Left"` iff yaw < -15, `"Right"` iff yaw > 15, `"Center"` iff -15 <= yaw <= 15. |
| `HeadPose.GetHeadPose` | head_pose_estimation.py:14-69 | `None` iff there are no face landmarks or the pose solve fails; otherwise the direction string of the solved pitch and yaw. |
| `HeadPose.Direction` | head_pose_estimation.py:68 | The trailing `strip()` changes nothing: the direction is the vertical label, a comma and the horizontal label. |
| `HeadPose.CenterCenterIff` | head_pose_estimation.py:65-68 | The direction is `"Center,Center"` iff the pitch is in the wrap-around band and -15 <= yaw <= 15. |
| `HeadPose.PitchExamples` | head_pose_estimation.py:65 | Pitch 0, 20, 170, -15 and 180 give `"Up"`; -20, -170 and -180 give `"Down"`; 175 and -175 give `"Center"`. |
| `EyeGaze.GazeLabel` | eye_gaze_detection.py:51-52 | `"Right"` iff ratio < 0.35, `"Left"` iff ratio > 0.65, and `"Center"` iff 0.35 <= ratio <= 0.65. |
| `EyeGaze.FaceEyePos` | eye_gaze_detection.py:54 | One face's gaze string is one of the nine `left,right` label pairs, and never the no-face default. |
| `EyeGaze.EyePos` | eye_gaze_detection.py:21-54 | Never empty; `"Unknown,Unknown"` without faces, otherwise the last face's left label, a comma and its right label. |
| `EyeGaze.ProcessFrame` | eye_gaze_detection.py:15-61 | The loop over faces returns the frame unchanged and an `eye_pos` that is never empty: the default without faces, otherwise the last face's gaze string. |
| `EyeGaze.FaceEyePosDecodes` | eye_gaze_detection.py:54 | Two faces with the same gaze string have the same left label and the same right label, so the string is unambiguous with the left eye first. |
| `EyeGaze.GazeExamples` | eye_gaze_detection.py:51-52 | Ratios 0.2, 0.5 and 0.8 give Right, Center and Left; 0.35 and 0.65 give Center. |
| `FaceRecognition.LastIndexOf` | face_recognitation.py:11 | The position found holds the character and no later position does; `None` iff the character does not occur. |
| `FaceRecognition.HasImageExtension` | face_recognitation.py:8 | A name that passes the filter is at least as long as its 4- or 5-character extension, and a dot starts that extension. |
| `FaceRecognition.ImageExtensionIgnoresCase` | face_recognitation.py:8 | A name passes the filter iff its lower-cased form does. |
| `FaceRecognition.Splitext` | face_recognitation.py:11 | Root and extension concatenate back to the name. When the last dot has a non-dot character before it, the name is split at that dot; when there is no dot, or only dots come before the last one, the extension is empty. A non-empty extension is one leading dot and no other dot. |
| `FaceRecognition.NameIsPrefix` | face_recognitation.py:11 | The stored name is the whole file name or a proper prefix of it followed by a dot. |
| `FaceRecognition.NameOfImageFile` | face_recognitation.py:8-11 | For a file passing the extension filter, the stored name is the file name minus its 4- or 5-character image extension, unless everything before the extension is dots, in which case it is the whole file name. |
| `FaceRecognition.UpperCaseExtensionExample` | face_recognitation.py:8-11 | `"Bob.JPG"` passes the filter and is stored as `"Bob"`. |
| `FaceRecognition.LastExtensionExample` | face_recognitation.py:8-11 | `"a.b.jpeg"` passes the filter and is stored as `"a.b"`. |
| `FaceRecognition.DotOnlyNameExample` | face_recognitation.py:8-11 | `".png"` passes the filter and is stored as `".png"`. |
| `FaceRecognition.RejectedNameExamples` | face_recognitation.py:8-9 | `"notes.txt"` and `"png"` do not pass the filter. |
| `FaceRecognition.Gallery` | face_recognitation.py:7-19 | The admitted entries are never more than the directory entries, and each has an image extension and a detected face. |
| `FaceRecognition.LoadDatabase` | face_recognitation.py:5-20 | The encodings and names lists have equal length, one per admitted file. At every index they hold that file's first encoding and its name without extension. |
| `FaceRecognition.GalleryListsAt` | face_recognitation.py:17-19 | The encodings and names built from a directory listing line up with its gallery: at every index, that entry's first face encoding and its name without extension. |
| `FaceRecognition.GalleryMembers` | face_recognitation.py:7-19 | A directory entry is in the gallery iff it has an image extension and a face. |
| `FaceRecognition.GalleryAppend` | face_recognitation.py:7-19 | The gallery of concatenated listings is the concatenation of their galleries, so directory order is kept. |
| `FaceRecognition.ArgMin` | face_recognitation.py:29 | The index holds a minimum distance and every earlier distance is strictly larger, so it is the first minimum. |
| `FaceRecognition.FaceDistances` | face_recognitation.py:28 | One distance per gallery encoding, in gallery order, each the metric between that encoding and the query face. |
| `FaceRecognition.MatchFace` | face_recognitation.py:28-29 | Raises (`EmptyGallery`) iff the gallery has no encodings. |
| `FaceRecognition.MatchFaceNearest` | face_recognitation.py:28-29 | In terms of the metric: when some gallery encoding is within the tolerance, the result is the name of the first nearest one; when none is, `"Unknown"`. |
| `FaceRecognition.MatchDistances` | face_recognitation.py:22-29 | Raises iff there are no gallery distances. If some distance is within the tolerance (inclusive), the result is the name at the first minimum. If every distance exceeds the tolerance, the result is `"Unknown"`. |
| `FaceRecognition.LabelFaces` | face_recognitation.py:26-31 | Raises iff there is a face and the gallery is empty. Otherwise it gives exactly one label per face, in face order, each the match rule's result for that face. |
| `FaceRecognition.RecognizeFaces` | face_recognitation.py:22-31 | The matching loop returns exactly what `LabelFaces` specifies. |
| `FaceRecognition.RecognitionOf` | face_recognitation.py:33-38 | An unreadable image gives `ImageNotFound` and nothing else does; a readable one gives one label per face when it returns. |
| `FaceRecognition.RecognizeFromImage` | face_recognitation.py:33-38 | Returns exactly what `RecognitionOf` specifies, at the default tolerance 0.6. |
| `FaceRecognition.MatchExamples` | face_recognitation.py:29 | Distances 0.7/0.8 give `"Unknown"`; 0.3/0.8 give the first name; a tie at 0.5 gives the first name; a distance equal to 0.6 matches. |
| `FaceRecognition.RecognizeCommand` | face_recognitation.py:57-70 | A missing directory raises first. Then a gallery without encodings raises. Then camera mode wins. Then a usable query path gives `ImageNotFound` for an unreadable image, and otherwise exactly the match results of its faces, one per face, against the loaded gallery's encodings and names. Otherwise it raises for the missing query source. |
| `Runner.PersonCount` | run_multithreaded.py:39-40 | The count is at most the number of boxes, and it is 0 iff no box is above the confidence threshold. |
| `Runner.Step` | run_multithreaded.py:32-67 | One `process_frame` call: the cooldown is kept or, outside the cooldown, set to now + 30; there is no collaborator call or log line iff now is before the cooldown; a raise keeps the cooldown. |
| `Runner.RunLoop` | run_multithreaded.py:76-102 | The loop ends with `StoppedRunning` iff `running` is false, never with `NotOpened`, and unless it crashed its last log line is the stop message. |
| `Runner.RunSpec` | run_multithreaded.py:69-102 | `run` ends with `NotOpened` iff the video source cannot be opened; it then changes neither cooldown nor cache and skips the stop message. Otherwise, unless it crashed, its last log line is the stop message. |
| `Runner.FramesRead` | run_multithreaded.py:77-98 | The loop reads at most the frames the stream has, and none iff `running` is false or the stream is empty. |
| `Runner.SuppressedDuringCooldown` | run_multithreaded.py:34-37 | While now < cooldown, a frame returns `([], None)`, makes no collaborator call or log line, and keeps the cooldown. |
| `Runner.CooldownArmedOnlyByCapture` | run_multithreaded.py:50-65 | The cooldown changes iff the capture branch is taken and recognition returns. It then becomes exactly now + 30, and it never decreases. |
| `Runner.AttentionGate` | run_multithreaded.py:40-48 | Gaze and pose landmarks are requested iff the cooldown is over, exactly one label is reported and the face cache is non-empty. Otherwise the returned head pose is `None`. |
| `Runner.CaptureIff` | run_multithreaded.py:50-59 | An image is saved and recognition runs iff the gate passed and the head pose is `"Center,Center"`. The saved image is the frame as it came in. |
| `Runner.GazeNeverGates` | run_multithreaded.py:45-50 | Replacing the gaze reports changes nothing about a frame's result, cooldown or effects. |
| `Runner.ObjectsAlwaysReported` | run_multithreaded.py:39-67 | Outside the cooldown, a returning frame reports exactly the detector's filtered labels, whatever the gate decides. |
| `Runner.RecognitionErrorKeepsCooldown` | run_multithreaded.py:59-65 | A frame raises iff the capture branch is taken and recognition fails. It then raises that error and leaves the cooldown unchanged. |
| `Runner.AnyClassCounts` | run_multithreaded.py:39-44 | One confident box of any class makes the person count 1 and, with cached faces, passes the gate. |
| `Runner.CooldownWindow` | run_multithreaded.py:34-65 | After a capture at t0, a frame at t0 <= t < t0 + 30 is suppressed with no effects. A frame at t >= t0 + 30 calls the detector again. |
| `Runner.StepNeverDetectsFaces` | run_multithreaded.py:32-67 | `process_frame` never runs the cascade detector. |
| `Runner.RunCooldownMonotone` | run_multithreaded.py:76-98 | Over a whole run, the cooldown never decreases. |
| `Runner.RunFacesFromRefresh` | run_multithreaded.py:84-88 | After a run, the face cache holds the cascade regions of the last frame read whose count is a multiple of 30. |
| `Runner.NoRefreshKeepsFaces` | run_multithreaded.py:83-85 | A run that reads no frame whose count is a multiple of 30 leaves the face cache unchanged. |
| `Runner.RefreshBeforeProcessing` | run_multithreaded.py:84-88 | On a one-frame run, the cache is replaced and the cascade called iff the count is a multiple of 30. `process_frame` runs on the refreshed cache. |
| `Runner.FaceRecognitionSystem.constructor` | run_multithreaded.py:11-17 | The gallery is loaded as `LoadDatabase` specifies. The cooldown starts at 0, the face cache empty, `running` true. |
| `Runner.FaceRecognitionSystem.ProcessFrame` | run_multithreaded.py:32-67 | The new cooldown, the outcome and the appended effects are exactly those of `Step` on the old state. The face cache and `running` are unchanged. |
| `Runner.FaceRecognitionSystem.Run` | run_multithreaded.py:69-102 | The final cooldown, face cache, appended effects and the way the run ends are exactly those of `RunSpec`. `running` is unchanged. |

## Left out

- The inference primitives are inputs, not models: the YOLO detector, the MediaPipe face mesh, `solvePnP` and the angle decomposition, the Haar cascade in `detect_faces`, and the face encodings and distances.
- The arithmetic that produces the gaze ratios is left out. It covers the pixel truncation and the `1e-6` denominators (eye_gaze_detection.py:34-49). Each ratio is a given real, so the left/right mirroring of the ratio formulas is not modelled.
- Video capture, display, the `q` key (a per-frame boolean input), `cv2.imwrite`, `os.makedirs`, the time-stamped file name and the log file are abstract effects. Log lines carry no timestamps.
- The `main()` webcam loops of the vision scripts and `recognize_from_camera` are I/O-only drivers. `RecognizeCommand` reports camera mode without running it.
- Python's `str.lower` is modelled for ASCII letters only. `os.path.splitext` is modelled for bare file names without a directory separator, which is what a directory listing yields.
- Runner.FaceRecognitionSystem.constructor: a missing gallery directory (an exception from the directory listing) and unreadable gallery images are not modelled.
- FaceRecognition.RecognizeCommand: it loads the gallery with the same `LoadDatabase`, so unreadable gallery images are not modelled there either; the missing directory is its `DatabaseNotFound` exit.
- Exceptions from the collaborators other than recognition are not modelled: the object detector (run_multithreaded.py:39), the face mesh and pose solve (run_multithreaded.py:45-46), the cascade detector (run_multithreaded.py:85), `cv2.imwrite` (run_multithreaded.py:55) and the log-file write (run_multithreaded.py:29-30). A frame's inputs cannot describe a failing call. Nothing in `process_frame` or `run` catches exceptions, so any of these would end `run` as a recognition error does (`RunEnd.Crashed`).
- The console output is not modelled: the `print` calls at run_multithreaded.py:56,60,73 and face_recognitation.py:15,67-68 only write to standard output and change no state.
- Floating-point effects (NaN distances, rounding) are not modelled; angles, ratios, confidences, distances and times are reals.
- The detector's class table is assumed to name every class id the detector reports, as the lookup at object_detection.py:16 requires.
- Runner.FaceRecognitionSystem.ProcessFrame: the effect trace is appended once per branch rather than call by call. The order of effects in the trace is the order of the calls in `process_frame`.
- `running` is never set to false by any code of the system. The model keeps it as a field that `Run` reads and never changes.
- The web backend, the database helper, the process launcher and the thin driver script lie outside the core and are not modelled.
