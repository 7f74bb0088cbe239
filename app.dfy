/**
 * The inspection logic of app.py: its own `detect_ppe` (the required items
 * that the last detection result does not name), the messages of the
 * photo-upload path, and the live loop, whose spoken alerts share a single
 * five-second cooldown.
 */
module App {
  import opened Wrappers
  import opened Lists
  import opened Strings
  import PpeDetection

  /** `required_ppe` in `detect_ppe`, in order. */
  const RequiredItems: seq<string> := ["helmet", "vest", "gloves", "boots"]

  /** `alert_cooldown` of the live loop, in seconds. */
  const AlertCooldown: real := 5.0

  /** What Python's `IndexError` says when `results[0]` is taken of an empty list. */
  const IndexErrorText: string := "list index out of range"

  const UploadMissingBanner: string := "\U{1F6A8} Missing PPE: "
  const UploadAllPresentBanner: string := "\U{2705} All PPE properly equipped!"
  const UploadMissingSpeech: string := "Warning! Missing safety equipment: "
  const UploadAllPresentSpeech: string := "All safety equipment detected. Good job!"
  const ProcessingErrorBanner: string := "Processing error: "
  const LiveMissingBanner: string := "\U{26A0} Missing: "
  const LiveAllPresentBanner: string := "All PPE detected"
  const LiveMissingSpeech: string := "Warning! Missing: "
  const LiveAllPresentSpeech: string := "All equipment detected"

  /** A message shown on the page: `st.error(...)` or `st.success(...)`. */
  datatype Notice = Error(text: string) | Success(text: string)

  /** What one inspection shows, and what it speaks through `play_alert`, if anything. */
  datatype Report = Report(notice: Notice, speech: Option<string>)

  // ---------------------------------------------------------------------------
  // detect_ppe

  /** `[item for item in required if item not in detected]`. */
  function MissingFrom(required: seq<string>, detected: seq<string>): (m: seq<string>)
    ensures forall x :: x in m <==> x in required && x !in detected
    ensures IsSubsequence(m, required)
  {
    if required == [] then []
    else
      var rest := MissingFrom(required[1..], detected);
      if required[0] in detected then rest
      else
        assert ([required[0]] + rest)[1..] == rest;
        [required[0]] + rest
  }

  /**
   * The loop of `detect_ppe` over the detection results: `detected_classes`
   * is reassigned for every result, so only the last result's class names
   * survive it.
   */
  method DetectedClasses(results: seq<seq<string>>) returns (classes: seq<string>)
    ensures results == [] ==> classes == []
    ensures results != [] ==> classes == results[|results| - 1]
  {
    classes := [];
    for i := 0 to |results|
      invariant i == 0 ==> classes == []
      invariant 0 < i ==> classes == results[i - 1]
    {
      classes := results[i];
    }
  }

  /** What `detect_ppe` returns as its missing list, or the exception `results[0]` raises. */
  function MissingItems(results: seq<seq<string>>): (r: Result<seq<string>>)
    ensures r.Err? <==> results == []
    ensures r.Err? ==> r.message == IndexErrorText
    ensures r.Ok? ==> forall x :: x in r.value <==> x in RequiredItems && x !in results[|results| - 1]
    ensures r.Ok? ==> IsSubsequence(r.value, RequiredItems)
  {
    if results == [] then Err(IndexErrorText)
    else Ok(MissingFrom(RequiredItems, results[|results| - 1]))
  }

  /**
   * `detect_ppe` of app.py, on the class names of each detection result the
   * model returned (the annotated frame comes from the model and is not modelled).
   */
  method DetectPpe(results: seq<seq<string>>) returns (r: Result<seq<string>>)
    ensures r == MissingItems(results)
  {
    if results == [] {
      return Err(IndexErrorText);
    }
    var classes := DetectedClasses(results);
    r := Ok(MissingFrom(RequiredItems, classes));
  }

  /** The missing list keeps the order of the required items and names each at most once. */
  lemma MissingInRequiredOrder(detected: seq<string>)
    ensures IsSubsequence(MissingFrom(RequiredItems, detected), RequiredItems)
    ensures NoDuplicates(MissingFrom(RequiredItems, detected))
  {
    assert NoDuplicates(RequiredItems);
    SubsequenceOfDistinct(MissingFrom(RequiredItems, detected), RequiredItems);
  }

  /** Nothing detected: every required item is missing, in order. */
  lemma {:induction false} NothingDetectedMissesAll(required: seq<string>)
    ensures MissingFrom(required, []) == required
  {
    if required != [] {
      NothingDetectedMissesAll(required[1..]);
    }
  }

  /** Results before the last one have no effect on the missing list. */
  lemma OnlyLastResultCounts(earlier: seq<seq<string>>, last: seq<string>)
    ensures MissingItems(earlier + [last]) == Ok(MissingFrom(RequiredItems, last))
    ensures MissingItems(earlier + [last]) == MissingItems([last])
  {
  }

  /** The application's required list is the list of keys of the evaluator's table. */
  lemma RequiredItemsAreTableKeys()
    ensures RequiredItems == PpeDetection.Labels(PpeDetection.RequiredPpe)
  {
  }

  // ---------------------------------------------------------------------------
  // The photo-upload path

  /** The banner and the spoken message for an uploaded photo's missing list. */
  function UploadReport(missing: seq<string>, enableAudio: bool): (r: Report)
    ensures r.speech.Some? <==> enableAudio
    ensures r.notice.Success? <==> missing == []
    ensures missing == [] ==> r.notice.text == UploadAllPresentBanner
    ensures missing == [] && enableAudio ==> r.speech == Some(UploadAllPresentSpeech)
    ensures missing != [] ==> r.notice.text == UploadMissingBanner + Join(missing, ", ")
    ensures missing != [] && enableAudio ==> r.speech == Some(UploadMissingSpeech + Join(missing, ", "))
  {
    if missing != [] then
      Report(Error(UploadMissingBanner + Join(missing, ", ")),
             if enableAudio then Some(UploadMissingSpeech + Join(missing, ", ")) else None)
    else
      Report(Success(UploadAllPresentBanner),
             if enableAudio then Some(UploadAllPresentSpeech) else None)
  }

  /** The whole upload path: a failing `detect_ppe` is caught and shown, and nothing is spoken. */
  function UploadInspection(results: seq<seq<string>>, enableAudio: bool): (r: Report)
    ensures results == [] ==> r == Report(Error(ProcessingErrorBanner + IndexErrorText), None)
    ensures results != [] ==> r == UploadReport(MissingFrom(RequiredItems, results[|results| - 1]), enableAudio)
  {
    match MissingItems(results)
    case Err(e) => Report(Error(ProcessingErrorBanner + e), None)
    case Ok(missing) => UploadReport(missing, enableAudio)
  }

  // ---------------------------------------------------------------------------
  // The live loop

  /** What one pass of the live loop shows and speaks, and the new `last_alert_time`. */
  datatype Decision = Decision(notice: Notice, speech: Option<string>, last: real)

  /**
   * One pass of the live loop after `detect_ppe`: the banner always reflects
   * the missing list; an alert, positive or negative, is spoken only when
   * audio is on and more than the cooldown has passed since the last one, and
   * only then does the alert time move.
   */
  function Decide(last: real, now: real, missing: seq<string>, enableAudio: bool): (d: Decision)
    ensures d.speech.Some? <==> enableAudio && now - last > AlertCooldown
    ensures d.last == if d.speech.Some? then now else last
    ensures d.notice.Success? <==> missing == []
    ensures d.notice.text == if missing == [] then LiveAllPresentBanner else LiveMissingBanner + Join(missing, ", ")
    ensures d.speech.Some? ==>
      d.speech.value == if missing == [] then LiveAllPresentSpeech else LiveMissingSpeech + Join(missing, ", ")
  {
    var due := enableAudio && now - last > AlertCooldown;
    if missing != [] then
      Decision(Error(LiveMissingBanner + Join(missing, ", ")),
               if due then Some(LiveMissingSpeech + Join(missing, ", ")) else None,
               if due then now else last)
    else
      Decision(Success(LiveAllPresentBanner),
               if due then Some(LiveAllPresentSpeech) else None,
               if due then now else last)
  }

  /** The state the live loop keeps across frames. */
  class LiveSession {
    var lastAlertTime: real

    constructor ()
      ensures lastAlertTime == 0.0
    {
      lastAlertTime := 0.0;
    }

    /** One pass of the live loop, given the current time and the missing list of the frame. */
    method Step(now: real, missing: seq<string>, enableAudio: bool) returns (notice: Notice, speech: Option<string>)
      modifies this
      ensures Decision(notice, speech, lastAlertTime) == Decide(old(lastAlertTime), now, missing, enableAudio)
      ensures speech.None? ==> lastAlertTime == old(lastAlertTime)
    {
      speech := None;
      if missing != [] {
        notice := Error(LiveMissingBanner + Join(missing, ", "));
        if enableAudio && now - lastAlertTime > AlertCooldown {
          speech := Some(LiveMissingSpeech + Join(missing, ", "));
          lastAlertTime := now;
        }
      } else {
        notice := Success(LiveAllPresentBanner);
        if enableAudio && now - lastAlertTime > AlertCooldown {
          speech := Some(LiveAllPresentSpeech);
          lastAlertTime := now;
        }
      }
    }
  }

  /** One captured frame: the time it was processed and the model's results for it. */
  datatype LiveFrame = LiveFrame(now: real, results: seq<seq<string>>)

  /** What the live loop showed and spoke for one frame. */
  datatype LiveOutput = LiveOutput(at: real, notice: Notice, speech: Option<string>)

  /** Everything a live session produced, and the exception that ended it, if one did. */
  datatype LiveLog = LiveLog(outputs: seq<LiveOutput>, failure: Option<string>)

  /** The live loop over a sequence of frames, starting from alert time `last`. */
  function LiveRun(last: real, frames: seq<LiveFrame>, enableAudio: bool): (log: LiveLog)
    ensures |log.outputs| <= |frames|
    ensures log.failure.None? <==> |log.outputs| == |frames|
    ensures log.failure.Some? ==> frames[|log.outputs|].results == [] && log.failure.value == IndexErrorText
    decreases |frames|
  {
    if frames == [] then LiveLog([], None)
    else match MissingItems(frames[0].results)
      case Err(e) => LiveLog([], Some(e))
      case Ok(missing) =>
        var d := Decide(last, frames[0].now, missing, enableAudio);
        var rest := LiveRun(d.last, frames[1..], enableAudio);
        var log := LiveLog([LiveOutput(frames[0].now, d.notice, d.speech)] + rest.outputs, rest.failure);
        assert rest.failure.Some? ==> frames[|log.outputs|] == frames[1..][|rest.outputs|];
        log
  }

  /** The live loop emits one output per frame it processed, in frame order, each stamped with its frame's time. */
  lemma {:induction false} LiveRunFollowsFrames(last: real, frames: seq<LiveFrame>, enableAudio: bool)
    ensures var outputs := LiveRun(last, frames, enableAudio).outputs;
      forall i :: 0 <= i < |outputs| ==> outputs[i].at == frames[i].now && frames[i].results != []
    decreases |frames|
  {
    if frames != [] && frames[0].results != [] {
      var d := Decide(last, frames[0].now, MissingItems(frames[0].results).value, enableAudio);
      LiveRunFollowsFrames(d.last, frames[1..], enableAudio);
      var rest := LiveRun(d.last, frames[1..], enableAudio).outputs;
      var outputs := LiveRun(last, frames, enableAudio).outputs;
      assert outputs == [LiveOutput(frames[0].now, d.notice, d.speech)] + rest;
      forall i | 1 <= i < |outputs| ensures outputs[i].at == frames[i].now && frames[i].results != [] {
        assert outputs[i] == rest[i - 1] && frames[i] == frames[1..][i - 1];
      }
    }
  }

  /** The live inspection: a new session, then one pass per frame until the frames run out or `detect_ppe` raises. */
  method LiveInspection(frames: seq<LiveFrame>, enableAudio: bool) returns (log: LiveLog)
    ensures log == LiveRun(0.0, frames, enableAudio)
  {
    var session := new LiveSession();
    var outputs: seq<LiveOutput> := [];
    var i := 0;
    while i < |frames|
      invariant 0 <= i <= |frames|
      invariant fresh(session)
      invariant LiveRun(0.0, frames, enableAudio) == Continued(outputs, LiveRun(session.lastAlertTime, frames[i..], enableAudio))
    {
      LiveRunAt(session.lastAlertTime, frames, i, enableAudio);
      var missing := DetectPpe(frames[i].results);
      if missing.Err? {
        return LiveLog(outputs, Some(missing.message));
      }
      ghost var rest := LiveRun(Decide(session.lastAlertTime, frames[i].now, missing.value, enableAudio).last, frames[i + 1..], enableAudio);
      var notice, speech := session.Step(frames[i].now, missing.value, enableAudio);
      ContinuedConcat(outputs, LiveOutput(frames[i].now, notice, speech), rest);
      outputs := outputs + [LiveOutput(frames[i].now, notice, speech)];
      i := i + 1;
    }
    assert frames[i..] == [];
    log := LiveLog(outputs, None);
  }

  /** The live loop from frame `i` on, unfolded once. */
  lemma LiveRunAt(last: real, frames: seq<LiveFrame>, i: nat, enableAudio: bool)
    requires i < |frames|
    ensures MissingItems(frames[i].results).Err? ==>
      LiveRun(last, frames[i..], enableAudio) == LiveLog([], Some(MissingItems(frames[i].results).message))
    ensures MissingItems(frames[i].results).Ok? ==>
      var d := Decide(last, frames[i].now, MissingItems(frames[i].results).value, enableAudio);
      LiveRun(last, frames[i..], enableAudio) ==
        Continued([LiveOutput(frames[i].now, d.notice, d.speech)], LiveRun(d.last, frames[i + 1..], enableAudio))
  {
    assert frames[i..][0] == frames[i] && frames[i..][1..] == frames[i + 1..];
  }

  lemma ContinuedConcat(before: seq<LiveOutput>, o: LiveOutput, log: LiveLog)
    ensures Continued(before, Continued([o], log)) == Continued(before + [o], log)
  {
  }

  /** `log` preceded by the outputs `before`. */
  function Continued(before: seq<LiveOutput>, log: LiveLog): LiveLog {
    LiveLog(before + log.outputs, log.failure)
  }

  /** The times at which alerts were spoken. */
  function AlertTimes(outputs: seq<LiveOutput>): (ts: seq<real>)
    ensures |ts| <= |outputs|
    ensures forall t :: t in ts <==> exists o :: o in outputs && o.speech.Some? && o.at == t
  {
    if outputs == [] then []
    else (if outputs[0].speech.Some? then [outputs[0].at] else []) + AlertTimes(outputs[1..])
  }

  /** Each alert time is more than the cooldown after the one before it, the first after `last`. */
  predicate Spaced(last: real, ts: seq<real>)
    decreases |ts|
  {
    ts == [] || (ts[0] - last > AlertCooldown && Spaced(ts[0], ts[1..]))
  }

  lemma {:induction false} LiveRunSpaced(last: real, frames: seq<LiveFrame>, enableAudio: bool)
    ensures Spaced(last, AlertTimes(LiveRun(last, frames, enableAudio).outputs))
    decreases |frames|
  {
    if frames != [] {
      var r := MissingItems(frames[0].results);
      if r.Ok? {
        var d := Decide(last, frames[0].now, r.value, enableAudio);
        var rest := LiveRun(d.last, frames[1..], enableAudio).outputs;
        LiveRunSpaced(d.last, frames[1..], enableAudio);
        var out := LiveRun(last, frames, enableAudio).outputs;
        assert out == [LiveOutput(frames[0].now, d.notice, d.speech)] + rest;
        assert out[1..] == rest;
        assert AlertTimes(out) == (if d.speech.Some? then [frames[0].now] else []) + AlertTimes(rest);
        if d.speech.Some? {
          assert d.last == frames[0].now && frames[0].now - last > AlertCooldown;
          assert AlertTimes(out)[0] == frames[0].now;
          assert AlertTimes(out)[1..] == AlertTimes(rest);
        } else {
          assert d.last == last;
          assert AlertTimes(out) == AlertTimes(rest);
        }
      }
    }
  }

  lemma {:induction false} SpacedPairs(last: real, ts: seq<real>)
    requires Spaced(last, ts)
    ensures ts != [] ==> ts[0] - last > AlertCooldown
    ensures forall i :: 0 < i < |ts| ==> ts[i] - ts[i - 1] > AlertCooldown
    decreases |ts|
  {
    if ts != [] {
      SpacedPairs(ts[0], ts[1..]);
      forall i | 0 < i < |ts| ensures ts[i] - ts[i - 1] > AlertCooldown {
        if i > 1 {
          assert ts[i] == ts[1..][i - 1] && ts[i - 1] == ts[1..][i - 2];
        }
      }
    }
  }

  /**
   * Any two consecutive spoken alerts of a live session are more than the
   * cooldown apart, and the first comes more than the cooldown after time 0,
   * whatever order the timestamps come in.
   */
  lemma AlertsAreSpacedByCooldown(frames: seq<LiveFrame>, enableAudio: bool)
    ensures var ts := AlertTimes(LiveRun(0.0, frames, enableAudio).outputs);
      && (ts != [] ==> ts[0] > AlertCooldown)
      && forall i :: 0 < i < |ts| ==> ts[i] - ts[i - 1] > AlertCooldown
  {
    LiveRunSpaced(0.0, frames, enableAudio);
    SpacedPairs(0.0, AlertTimes(LiveRun(0.0, frames, enableAudio).outputs));
  }

  /** With audio off nothing is ever spoken. */
  lemma {:induction false} SilentWithoutAudio(last: real, frames: seq<LiveFrame>)
    ensures AlertTimes(LiveRun(last, frames, false).outputs) == []
    ensures forall o :: o in LiveRun(last, frames, false).outputs ==> o.speech.None?
    decreases |frames|
  {
    if frames != [] && MissingItems(frames[0].results).Ok? {
      SilentWithoutAudio(last, frames[1..]);
    }
  }

  /** The first frame of a session speaks exactly when audio is on and the clock reads more than the cooldown. */
  lemma FirstFrameAlert(frames: seq<LiveFrame>, enableAudio: bool)
    requires frames != [] && frames[0].results != []
    ensures |LiveRun(0.0, frames, enableAudio).outputs| > 0
    ensures LiveRun(0.0, frames, enableAudio).outputs[0].speech.Some? <==> enableAudio && frames[0].now > AlertCooldown
  {
  }

  /** One timer for both kinds of alert: one spoken at t1 silences any frame at t2 within the cooldown, whatever either frame found missing. */
  lemma SharedCooldown(last: real, t1: real, m1: seq<string>, t2: real, m2: seq<string>, enableAudio: bool)
    requires Decide(last, t1, m1, enableAudio).speech.Some?
    requires t2 - t1 <= AlertCooldown
    ensures Decide(Decide(last, t1, m1, enableAudio).last, t2, m2, enableAudio).speech.None?
  {
  }

  /**
   * Three frames with the same findings at t = 0, 3 and 6: starting from an
   * alert time that makes t = 0 due, alerts are spoken at 0 and 6; from the
   * session's initial alert time 0, only at 6.
   */
  lemma CooldownExample(results: seq<seq<string>>)
    requires results != []
    ensures var frames := [LiveFrame(0.0, results), LiveFrame(3.0, results), LiveFrame(6.0, results)];
      && AlertTimes(LiveRun(-10.0, frames, true).outputs) == [0.0, 6.0]
      && AlertTimes(LiveRun(0.0, frames, true).outputs) == [6.0]
  {
    var f0, f3, f6 := LiveFrame(0.0, results), LiveFrame(3.0, results), LiveFrame(6.0, results);
    var m := MissingItems(results).value;
    // Due at 0: alerts at 0 and 6.
    var run6 := LiveRun(0.0, [f6], true);
    assert [f6][1..] == [];
    assert run6.outputs == [LiveOutput(6.0, Decide(0.0, 6.0, m, true).notice, Decide(0.0, 6.0, m, true).speech)];
    var run3 := LiveRun(0.0, [f3, f6], true);
    assert [f3, f6][1..] == [f6];
    assert run3.outputs == [LiveOutput(3.0, Decide(0.0, 3.0, m, true).notice, None)] + run6.outputs;
    var run0 := LiveRun(-10.0, [f0, f3, f6], true);
    assert [f0, f3, f6][1..] == [f3, f6];
    assert run0.outputs == [LiveOutput(0.0, Decide(-10.0, 0.0, m, true).notice, Decide(-10.0, 0.0, m, true).speech)] + run3.outputs;
    ExampleTimes(run0.outputs, 0.0, 6.0);
    // From the initial alert time 0: only 6 is due.
    var run0' := LiveRun(0.0, [f0, f3, f6], true);
    assert run0'.outputs == [LiveOutput(0.0, Decide(0.0, 0.0, m, true).notice, None)] + run3.outputs;
    ExampleTimes'(run0'.outputs, 6.0);
  }

  lemma ExampleTimes(out: seq<LiveOutput>, a: real, b: real)
    requires |out| == 3 && out[0].speech.Some? && out[1].speech.None? && out[2].speech.Some?
    requires out[0].at == a && out[2].at == b
    ensures AlertTimes(out) == [a, b]
  {
    assert out[1..][1..][1..] == [];
    assert AlertTimes(out[1..][1..]) == [b];
    assert AlertTimes(out[1..]) == [b];
  }

  lemma ExampleTimes'(out: seq<LiveOutput>, b: real)
    requires |out| == 3 && out[0].speech.None? && out[1].speech.None? && out[2].speech.Some?
    requires out[2].at == b
    ensures AlertTimes(out) == [b]
  {
    assert out[1..][1..][1..] == [];
    assert AlertTimes(out[1..][1..]) == [b];
    assert AlertTimes(out[1..]) == [b];
  }
}
