# PPE compliance evaluation and alert policy, in Dafny

This project models the decision logic of a construction-site PPE inspector
(personal protective equipment: helmet, vest, gloves, boots). An external
object-detection model, a web UI, speech synthesis and audio playback are
glued around a small core, and the model covers that core:

- **detection.py** (module `PpeDetection`, file `detection.dfy`). The
  process-wide requirement table `REQUIRED_PPE` maps each item to a minimum
  confidence, a `present` flag and a colour. It is the class
  `RequiredPpeTable`, whose entries live in an array that is updated in
  place. `reset_ppe_status` is `ResetPpeStatus`, and `detect_ppe` is
  `DetectPpe`. `DetectPpe` clears the flags. A detection counts when its
  normalised class name (`lower().strip()`) is a key of the table and its
  confidence is strictly above that key's threshold. Each such detection
  sets the key's flag and draws a box with a caption. The frame is a
  `Frame` object holding the log of drawn annotations, not pixels. The
  method then returns the missing keys in table order and the spoken alert,
  which is "possibly missing … (low confidence)" for items whose
  *configured* threshold is below 0.6 and "confirmed missing" otherwise.
- **app.py** (module `App`, file `app.dfy`). The application has its own
  `detect_ppe`. It lists the four required items that the *last* detection
  result does not name, because `detected_classes` is reassigned for every
  result. On the photo-upload path the model gives both the banner and the
  spoken message. On the live path, `LiveSession.Step` is one pass of the
  camera loop. That loop keeps `last_alert_time`, which starts at 0. A
  positive or negative alert is spoken only when audio is enabled and more
  than 5 seconds (strictly) have passed since the last alert. The time
  moves only when an alert is spoken.

The files `wrappers.dfy` (Option, Result), `lists.dfy` (subsequences,
duplicate-freedom) and `strings.dfy` (Python's `isspace`, `lower`, `strip`,
`join`) hold the helpers.

The model has no clock, camera or model call. Each of these is an input
instead: a detection is `(class name, confidence, box)`, a detection result
in app.py is the list of class names the model gave, and every live frame
carries the time `time.time()` would have returned.

Three points about the code that the model makes explicit:

- detection.py keeps presence in the global table and uses it as per-frame
  scratch state, clearing it at the start of each call. `NoStalePresence`
  proves that a frame's outcome never depends on a previous frame.
- detection.py's threshold-dependent wording has no cooldown: it speaks on
  every frame with missing items. The cooldown lives in app.py, together
  with app.py's own fixed messages, and app.py never calls detection.py.
- The live loop starts from `last_alert_time = 0`. Frames at t = 0, 3 and 6
  with the same findings therefore alert only at 6, because 0 − 0 > 5 is
  false. An alert at both 0 and 6 happens only when an alert was already
  due at t = 0. `App.CooldownExample` proves both runs.

## Model

| member | source | states |
|---|---|---|
| `Strings.Lower` | detection.py:36 | `lower()` keeps the length, maps each character on its own and leaves no upper-case letter |
| `Strings.Strip` | detection.py:36 | `strip()` is the input with only whitespace removed from its two ends: a slice of the input with whitespace outside it, no whitespace at either end of the result, and empty exactly when the input is all whitespace |
| `Strings.Normalize` | detection.py:36 | `lower().strip()` always yields a name with no upper-case letter and no whitespace at either end |
| `Strings.NormalizeFixesNormal` | detection.py:36 | `lower().strip()` leaves a lower-case name without surrounding whitespace unchanged, and always produces such a name |
| `Strings.NormalizeIdempotent` | detection.py:36 | normalising a class name twice is the same as normalising it once |
| `Strings.Join` | detection.py:64-66 | `', '.join` of no items is empty and of one item is that item |
| `Strings.JoinAppend` | detection.py:64-66 | joining two non-empty lists gives their two joins with one separator between them, which fixes every join of two or more items |
| `PpeDetection.IndexOf` | detection.py:39 | dictionary lookup: the key's position if it is a key (the first position holding it), none exactly when no entry has that key |
| `PpeDetection.Truncate` | detection.py:44 | `int()` on a box coordinate truncates toward zero: within one unit of the value, on the zero side |
| `PpeDetection.Qualifies` | detection.py:39 | a detection that counts has a key equal to its normalised name, with a threshold strictly below its confidence |
| `PpeDetection.QualifiesByThreshold` | detection.py:39 | with distinct keys, a detection whose normalised name is key `k` counts exactly when its confidence is strictly above `k`'s own threshold |
| `PpeDetection.Annotate` | detection.py:41-50 | the drawn box has the detection's corners truncated by `int()`, and the mark carries the normalised name, the detection's confidence and the colour of that key's entry; its caption sits 10 pixels above the box's top-left corner |
| `PpeDetection.Annotations` | detection.py:30-50 | a frame's drawing has at most one mark per detection |
| `PpeDetection.AnnotationsAreQualifyingMarks` | detection.py:39-50 | every mark drawn is that of a qualifying detection of the frame, and every qualifying detection's mark is drawn |
| `PpeDetection.ResetAll` | detection.py:18-21 | every flag is cleared; keys, thresholds, colours and the number of entries are unchanged |
| `PpeDetection.Mark` | detection.py:39-40 | one detection changes no key, threshold or colour; a qualifying one sets its key's flag and leaves every other entry as it was; any other leaves the table unchanged |
| `PpeDetection.Evaluated` | detection.py:24-40 | after a frame the table keeps its keys, order, thresholds and colours, and with distinct keys an item is present exactly when some detection normalises to its key with confidence strictly above that item's own threshold |
| `PpeDetection.MissingLabels` | detection.py:53 | an item is listed exactly when some entry has that key and is not present; the list is a subsequence of the keys in table order |
| `PpeDetection.LowConfidenceItems` | detection.py:58-61 | exactly the missing items whose configured threshold is below 0.6, in the order of the missing list |
| `PpeDetection.AlertMessage` | detection.py:56-68 | an alert is produced exactly when the missing list is non-empty |
| `PpeDetection.SettingsDecideQualification` | detection.py:39 | whether a detection qualifies, and what is drawn for it, depends only on keys, thresholds and colours, never on the `present` flags |
| `PpeDetection.NoStalePresence` | detection.py:24 | two tables that differ only in leftover flags give the same presence and the same drawing for every frame |
| `PpeDetection.AnnotationsConcat` | detection.py:30-50 | the drawing for two runs of detections is the first run's followed by the second's, so marks appear in input order |
| `PpeDetection.AnnotationsOfOne` | detection.py:39-50 | a qualifying detection draws exactly its own mark, and any other detection draws nothing |
| `PpeDetection.IgnoredDetection` | detection.py:39 | a detection with an unknown name, or with confidence at or below the threshold, changes neither presence nor the drawing, wherever it occurs |
| `PpeDetection.MissingInTableOrder` | detection.py:53 | the missing list follows table order and names each item at most once |
| `PpeDetection.MissingAfterFrame` | detection.py:53 | after a frame, an item is missing exactly when it is a key and no detection of it qualified |
| `PpeDetection.EmptyFrameMissesAll` | detection.py:53 | with no detections, every key is missing, in table order |
| `PpeDetection.ShippedEmptyFrame` | detection.py:11-16 | with the shipped table and no detections the missing list is `["helmet", "vest", "gloves", "boots"]` |
| `PpeDetection.ShippedHasNoLowConfidence` | detection.py:58-61 | with the shipped thresholds (0.7, 0.65, 0.6, 0.6) no item is ever "low confidence" |
| `PpeDetection.ShippedAlertIsConfirmed` | detection.py:63-66 | with the shipped table every alert is "Safety violation! Confirmed missing: " followed by all missing items joined by ", " |
| `PpeDetection.LowThresholdAlert` | detection.py:63-64 | when some missing item has a threshold below 0.6, the alert lists only those items, in the "Possibly missing … (Low confidence)" form |
| `PpeDetection.TwoItemExample` | detection.py:36-53 | helmet (threshold 0.7) seen at 0.9 and vest (0.65) seen at 0.5: only the vest is missing and only the helmet is drawn |
| `PpeDetection.HelmetVestExample` | detection.py:36-53 | the same example with the names "helmet" and "vest": only "vest" is missing, and the only mark drawn is the helmet detection's, named "helmet" |
| `PpeDetection.Frame.Draw` | detection.py:45-50 | drawing one box and caption appends exactly one mark to the frame |
| `PpeDetection.RequiredPpeTable.constructor` | detection.py:11-16 | the table holds the given entries, which have distinct keys |
| `PpeDetection.RequiredPpeTable.ResetPpeStatus` | detection.py:18-21 | in place: every flag is false afterwards and nothing else in the table changes |
| `PpeDetection.RequiredPpeTable.MarkOne` | detection.py:35-50 | one loop pass: the table becomes `Mark` of the old table, and the frame gains the detection's mark exactly when it qualifies |
| `PpeDetection.RequiredPpeTable.MarkDetections` | detection.py:30-50 | the loop over all detections: flags record exactly the qualifying detections, and the frame gains their marks in input order |
| `PpeDetection.RequiredPpeTable.DetectPpe` | detection.py:23-70 | the table afterwards is the evaluation of this frame alone, the frame gains exactly the marks of the qualifying detections, and the returned missing list and alert are the ones computed from the new table |
| `App.MissingFrom` | app.py:59-60 | an item is missing exactly when it is required and not detected; the list is a subsequence of the required list |
| `App.DetectedClasses` | app.py:53-56 | after the loop only the last result's class names remain, and none remain when there are no results |
| `App.MissingItems` | app.py:49-60 | no results means the "list index out of range" error; otherwise an item is missing exactly when it is required and absent from the last result, in required order |
| `App.DetectPpe` | app.py:48-62 | the loop over the results returns exactly `MissingItems`: "list index out of range" on no results, otherwise the required items absent from the last result, in required order |
| `App.MissingInRequiredOrder` | app.py:59-60 | the missing list keeps the order of `["helmet","vest","gloves","boots"]` and has no duplicates |
| `App.NothingDetectedMissesAll` | app.py:59-60 | with nothing detected, every required item is missing, in order |
| `App.OnlyLastResultCounts` | app.py:53-56 | results before the last one have no effect on the missing list |
| `App.RequiredItemsAreTableKeys` | app.py:59 | the app's required list equals the keys of the evaluator's table, in the same order |
| `App.UploadReport` | app.py:146-153 | a non-empty missing list gives the error banner and "Warning! Missing safety equipment: " plus the joined list; an empty one gives the success banner and "All safety equipment detected. Good job!"; speech occurs exactly when audio is enabled |
| `App.UploadInspection` | app.py:128-156 | a failure in `detect_ppe` is shown as "Processing error: …" and nothing is spoken; otherwise the report is that of the last result's missing list |
| `App.Decide` | app.py:185-195 | an alert is spoken exactly when audio is on and now − last > 5; the alert time becomes now exactly then and is otherwise unchanged; the banner and the spoken wording follow whether anything is missing |
| `App.LiveSession.constructor` | app.py:166-167 | a session starts with `last_alert_time` 0 |
| `App.LiveSession.Step` | app.py:184-195 | one pass updates `last_alert_time` and returns the banner and speech exactly as `Decide` does; without speech the alert time is unchanged |
| `App.LiveRun` | app.py:170-195 | at most one output per frame; the run ends before the last frame exactly when it fails, and a failure happens at a frame with no results, with the "list index out of range" text |
| `App.LiveRunFollowsFrames` | app.py:170-195 | the `i`-th output belongs to the `i`-th frame: it carries that frame's time, and that frame had results |
| `App.LiveInspection` | app.py:159-195 | the loop over captured frames produces exactly the outputs of `LiveRun` from alert time 0, and stops with the exception's text when `detect_ppe` raises |
| `App.LiveRunSpaced` | app.py:185-195 | each spoken alert comes more than 5 seconds after the previous one, and the first comes more than 5 seconds after the starting alert time |
| `App.AlertsAreSpacedByCooldown` | app.py:166-195 | in a session, any two consecutive alerts are more than 5 seconds apart and the first is after t = 5; timestamps need not be monotone |
| `App.SilentWithoutAudio` | app.py:188-195 | with audio disabled nothing is ever spoken |
| `App.FirstFrameAlert` | app.py:166-167 | the first frame of a session speaks exactly when audio is on and its time exceeds 5 |
| `App.SharedCooldown` | app.py:186-195 | one timer for both kinds of alert: an alert at t1 silences any frame whose time is at most t1 + 5, whatever either frame found missing |
| `App.CooldownExample` | app.py:166-195 | frames at 0, 3, 6 with equal findings alert at 0 and 6 when an alert is due at 0, and only at 6 from the initial alert time 0 |

## Left out

- Speech: `play_alert` (in both app.py and alerts.py) uses gTTS synthesis, the pygame mixer, temporary files, sleeps, busy-waiting and its own try/except. This is I/O. The model returns the text that would be spoken as an `Option<string>`.
- The model call is left out: `model(frame, conf=0.9)` with its 0.9 pre-filter, `model.predict`, `results[0].plot()` and the `model.names[int(cls)]` lookup. The model's output is an input: detections carry class names already looked up. App.DetectPpe does not return the plotted frame.
- The nested loops of detection.py, over results and then over the boxes of each result, are flattened into one sequence of detections in the same order.
- Pixel drawing is left out: `cv2.rectangle` and `cv2.putText` with their thickness and font, colour-space conversion, and PIL/numpy image handling. A frame is the log of the marks drawn on it. The caption text `f"{conf:.2f}"` is not formatted; a mark holds the confidence itself.
- Strings.Lower: maps only ASCII A–Z. Python's full Unicode lower-casing is not modelled, and that includes characters whose lower-case form is longer.
- Reals are exact in the model, so floating-point rounding, both in confidences and in `current_time - last_alert_time`, is not modelled.
- Camera handling is left out: `cv2.VideoCapture`, `cam.isOpened()`, the stop button, the "Camera disconnected" break and `cam.release()`. A live session is a finite sequence of frames that were already captured, each stamped with the time `time.time()` would have read.
- Streamlit output other than the status banners is left out: the loading animations, spinners, the sidebar, the image display and the final "Live inspection stopped" notice. `initialize_app` and model loading are left out as well.
- detection.py also defines `ALERT_COOLDOWN` and `CONFIDENCE_THRESHOLD`, but its code reads neither, so the model has no counterpart for them.
- PpeDetection.Annotations: its own contract only bounds the number of marks. Which marks are drawn, and in what order, is stated by `AnnotationsAreQualifyingMarks`, `AnnotationsConcat`, `AnnotationsOfOne` and `IgnoredDetection`.
