/**
 * The compliance evaluator of detection.py: a fixed requirement table whose
 * `present` flags are cleared and recomputed for every frame, the annotations
 * drawn for the detections that clear their label's threshold, the list of
 * missing items and the spoken alert chosen from it.
 */
module PpeDetection {
  import opened Wrappers
  import opened Lists
  import opened Strings

  /** A colour triple in the order cv2 takes it (blue, green, red). */
  datatype Color = Color(b: int, g: int, r: int)

  /** The corners of a bounding box as the detector reports them. */
  datatype Box = Box(x1: real, y1: real, x2: real, y2: real)

  /** One detection: the detector's class name, its confidence and its box. */
  datatype Detection = Detection(name: string, conf: real, box: Box)

  /** One row of the requirement table. */
  datatype Entry = Entry(name: string, minConfidence: real, present: bool, color: Color)

  /**
   * What is drawn onto the frame for one accepted detection: a rectangle from
   * (x1, y1) to (x2, y2) in whole pixels, and the caption "<label>: <conf>"
   * whose origin is (captionX, captionY), both in the colour of the label.
   */
  datatype Annotation = Annotation(
    x1: int, y1: int, x2: int, y2: int,
    captionX: int, captionY: int,
    name: string, conf: real, color: Color)

  const Green: Color := Color(0, 255, 0)

  /** The table as shipped, in its iteration order. */
  const RequiredPpe: seq<Entry> := [
    Entry("helmet", 0.7, false, Green),
    Entry("vest", 0.65, false, Green),
    Entry("gloves", 0.6, false, Green),
    Entry("boots", 0.6, false, Green)
  ]

  /** A missing item whose configured threshold is below this is only "possibly" missing. */
  const LowConfidenceLimit: real := 0.6

  /** The caption is drawn this many pixels above the box's top-left corner. */
  const CaptionLift: int := 10

  const ConfirmedPrefix: string := "Safety violation! Confirmed missing: "
  const PossiblyPrefix: string := "Warning! Possibly missing: "
  const PossiblySuffix: string := " (Low confidence)"

  /** The keys of the table, in order. */
  function Labels(es: seq<Entry>): (ls: seq<string>)
    ensures |ls| == |es|
    ensures forall k :: 0 <= k < |es| ==> ls[k] == es[k].name
  {
    if es == [] then [] else [es[0].name] + Labels(es[1..])
  }

  /** A dictionary has each key once. */
  predicate DistinctLabels(es: seq<Entry>) {
    forall i, j :: 0 <= i < j < |es| ==> es[i].name != es[j].name
  }

  /** Two tables that differ at most in their `present` flags. */
  predicate SameSettings(a: seq<Entry>, b: seq<Entry>) {
    && |a| == |b|
    && forall k :: 0 <= k < |a| ==>
         a[k].name == b[k].name && a[k].minConfidence == b[k].minConfidence && a[k].color == b[k].color
  }

  /** Dictionary lookup: the position of `label` among the keys, if it is one. */
  function IndexOf(es: seq<Entry>, name: string): (r: Option<nat>)
    ensures r.Some? ==> r.value < |es| && es[r.value].name == name
    ensures r.Some? ==> forall k :: 0 <= k < r.value ==> es[k].name != name
    ensures r.None? <==> forall k :: 0 <= k < |es| ==> es[k].name != name
  {
    if es == [] then None
    else if es[0].name == name then Some(0)
    else match IndexOf(es[1..], name)
      case None => None
      case Some(k) => Some(k + 1)
  }

  /** Python's `int()` on a float: truncation toward zero. */
  function Truncate(x: real): (n: int)
    ensures 0.0 <= x ==> n as real <= x < n as real + 1.0
    ensures x < 0.0 ==> n as real - 1.0 < x <= n as real
  {
    if x >= 0.0 then x.Floor else -((-x).Floor)
  }

  /** The test a detection must pass to count: its label is a key and its confidence is strictly above the threshold. */
  predicate Qualifies(es: seq<Entry>, d: Detection): (b: bool)
    ensures b ==> exists k :: 0 <= k < |es| && es[k].name == Normalize(d.name) && d.conf > es[k].minConfidence
  {
    var idx := IndexOf(es, Normalize(d.name));
    idx.Some? && d.conf > es[idx.value].minConfidence
  }

  /** With distinct keys, a detection of key `k` counts exactly when it beats that key's own threshold. */
  lemma QualifiesByThreshold(es: seq<Entry>, d: Detection, k: nat)
    requires DistinctLabels(es) && k < |es| && es[k].name == Normalize(d.name)
    ensures Qualifies(es, d) <==> d.conf > es[k].minConfidence
  {
    assert IndexOf(es, es[k].name) == Some(k);
  }

  /** The annotation drawn for a qualifying detection. */
  function Annotate(es: seq<Entry>, d: Detection): (a: Annotation)
    requires Qualifies(es, d)
    ensures a.name == Normalize(d.name) && a.conf == d.conf
    ensures exists k :: 0 <= k < |es| && es[k].name == a.name && a.color == es[k].color
    ensures a.x1 == Truncate(d.box.x1) && a.y1 == Truncate(d.box.y1)
    ensures a.x2 == Truncate(d.box.x2) && a.y2 == Truncate(d.box.y2)
    ensures a.captionX == a.x1 && a.captionY == a.y1 - CaptionLift
  {
    var name := Normalize(d.name);
    var e := es[IndexOf(es, name).value];
    var x1, y1 := Truncate(d.box.x1), Truncate(d.box.y1);
    Annotation(x1, y1, Truncate(d.box.x2), Truncate(d.box.y2), x1, y1 - CaptionLift, name, d.conf, e.color)
  }

  /** The annotations drawn for a sequence of detections, oldest first. */
  function Annotations(es: seq<Entry>, ds: seq<Detection>): (r: seq<Annotation>)
    ensures |r| <= |ds|
  {
    if ds == [] then []
    else
      var d := ds[|ds| - 1];
      Annotations(es, ds[..|ds| - 1]) + (if Qualifies(es, d) then [Annotate(es, d)] else [])
  }

  /** Some detection with this label clears the label's threshold. */
  predicate Detected(es: seq<Entry>, ds: seq<Detection>, name: string) {
    exists d :: d in ds && Confirms(es, d, name)
  }

  /** Detection `d` qualifies and is one of `name`. */
  predicate Confirms(es: seq<Entry>, d: Detection, name: string) {
    Normalize(d.name) == name && Qualifies(es, d)
  }

  /** The table with every `present` flag cleared. */
  function ResetAll(es: seq<Entry>): (r: seq<Entry>)
    ensures SameSettings(r, es)
    ensures forall k :: 0 <= k < |r| ==> !r[k].present
  {
    seq(|es|, k requires 0 <= k < |es| => es[k].(present := false))
  }

  /** The table after one frame: each label is present exactly when it was detected in this frame. */
  function Evaluated(es: seq<Entry>, ds: seq<Detection>): (r: seq<Entry>)
    ensures SameSettings(r, es)
    ensures DistinctLabels(es) ==> forall k :: 0 <= k < |r| ==>
      (r[k].present <==> exists d :: d in ds && Normalize(d.name) == es[k].name && d.conf > es[k].minConfidence)
  {
    var r := seq(|es|, k requires 0 <= k < |es| => es[k].(present := Detected(es, ds, es[k].name)));
    assert DistinctLabels(es) ==> forall k :: 0 <= k < |r| ==>
      (r[k].present <==> exists d :: d in ds && Normalize(d.name) == es[k].name && d.conf > es[k].minConfidence) by {
      if DistinctLabels(es) {
        forall k, d: Detection | 0 <= k < |es| && Normalize(d.name) == es[k].name
          ensures Confirms(es, d, es[k].name) <==> d.conf > es[k].minConfidence
        {
          QualifiesByThreshold(es, d, k);
        }
      }
    }
    r
  }

  /** `missing_ppe`: the keys whose `present` flag is false, in table order. */
  function MissingLabels(es: seq<Entry>): (m: seq<string>)
    ensures forall x :: x in m <==> exists k :: 0 <= k < |es| && es[k].name == x && !es[k].present
    ensures IsSubsequence(m, Labels(es))
  {
    if es == [] then []
    else
      var rest := MissingLabels(es[1..]);
      assert Labels(es)[1..] == Labels(es[1..]);
      assert forall x :: x in rest <==> exists k :: 1 <= k < |es| && es[k].name == x && !es[k].present by {
        forall x ensures x in rest <==> exists k :: 1 <= k < |es| && es[k].name == x && !es[k].present {
          if x in rest {
            var k :| 0 <= k < |es[1..]| && es[1..][k].name == x && !es[1..][k].present;
            assert es[k + 1].name == x && !es[k + 1].present;
          }
        }
      }
      if es[0].present then rest else [es[0].name] + rest
  }

  /** `low_confidence_items`: the missing items whose configured threshold is below the limit. */
  function LowConfidenceItems(es: seq<Entry>, missing: seq<string>): (low: seq<string>)
    ensures IsSubsequence(low, missing)
    ensures forall x :: x in low <==> x in missing && IndexOf(es, x).Some? && es[IndexOf(es, x).value].minConfidence < LowConfidenceLimit
  {
    if missing == [] then []
    else
      var rest := LowConfidenceItems(es, missing[1..]);
      var idx := IndexOf(es, missing[0]);
      if idx.Some? && es[idx.value].minConfidence < LowConfidenceLimit then [missing[0]] + rest else rest
  }

  /** The message `detect_ppe` speaks, if any. */
  function AlertMessage(es: seq<Entry>, missing: seq<string>): (r: Option<string>)
    ensures r.Some? <==> missing != []
  {
    if missing == [] then None
    else
      var low := LowConfidenceItems(es, missing);
      if low != [] then Some(PossiblyPrefix + Join(low, ", ") + PossiblySuffix)
      else Some(ConfirmedPrefix + Join(missing, ", "))
  }

  // ---------------------------------------------------------------------------
  // Properties of the evaluation

  /** Only the settings of a table matter to which detections qualify and how they are drawn. */
  lemma SettingsDecideQualification(a: seq<Entry>, b: seq<Entry>, d: Detection)
    requires SameSettings(a, b)
    ensures IndexOf(a, Normalize(d.name)) == IndexOf(b, Normalize(d.name))
    ensures Qualifies(a, d) == Qualifies(b, d)
    ensures Qualifies(a, d) ==> Annotate(a, d) == Annotate(b, d)
  {
    SettingsDecideLookup(a, b, Normalize(d.name));
  }

  /** Tables with the same keys answer every lookup alike. */
  lemma {:induction false} SettingsDecideLookup(a: seq<Entry>, b: seq<Entry>, name: string)
    requires SameSettings(a, b)
    ensures IndexOf(a, name) == IndexOf(b, name)
    decreases |a|
  {
    if a != [] && a[0].name != name {
      assert SameSettings(a[1..], b[1..]) by {
        forall k | 0 <= k < |a[1..]|
          ensures a[1..][k].name == b[1..][k].name
        {
          assert a[1..][k] == a[k + 1] && b[1..][k] == b[k + 1];
        }
      }
      SettingsDecideLookup(a[1..], b[1..], name);
    }
  }

  /** No stale presence: the result of a frame does not depend on the flags a previous frame left behind. */
  lemma NoStalePresence(a: seq<Entry>, b: seq<Entry>, ds: seq<Detection>)
    requires SameSettings(a, b)
    ensures Evaluated(a, ds) == Evaluated(b, ds)
    ensures Annotations(a, ds) == Annotations(b, ds)
  {
    forall d | d in ds ensures Qualifies(a, d) == Qualifies(b, d) {
      SettingsDecideQualification(a, b, d);
    }
    forall k | 0 <= k < |a| ensures Evaluated(a, ds)[k] == Evaluated(b, ds)[k] {
      assert Detected(a, ds, a[k].name) == Detected(b, ds, b[k].name);
    }
    AnnotationsSameSettings(a, b, ds);
  }

  lemma {:induction false} AnnotationsSameSettings(a: seq<Entry>, b: seq<Entry>, ds: seq<Detection>)
    requires SameSettings(a, b)
    ensures Annotations(a, ds) == Annotations(b, ds)
    decreases |ds|
  {
    if ds != [] {
      AnnotationsSameSettings(a, b, ds[..|ds| - 1]);
      SettingsDecideQualification(a, b, ds[|ds| - 1]);
    }
  }

  /** The annotations of two runs of detections are those of each, one after the other. */
  lemma {:induction false} AnnotationsConcat(es: seq<Entry>, a: seq<Detection>, b: seq<Detection>)
    ensures Annotations(es, a + b) == Annotations(es, a) + Annotations(es, b)
    decreases |b|
  {
    if b == [] {
      assert a + b == a;
    } else {
      var init, last := b[..|b| - 1], b[|b| - 1];
      assert (a + b)[..|a + b| - 1] == a + init && (a + b)[|a + b| - 1] == last;
      AnnotationsConcat(es, a, init);
      assert Annotations(es, a + b) == Annotations(es, a + init) + Drawn(es, last);
      assert Annotations(es, b) == Annotations(es, init) + Drawn(es, last);
      AppendAssociates(Annotations(es, a), Annotations(es, init), Drawn(es, last));
    }
  }

  /** The drawing holds exactly the marks of the qualifying detections. */
  lemma {:induction false} AnnotationsAreQualifyingMarks(es: seq<Entry>, ds: seq<Detection>)
    ensures forall m :: m in Annotations(es, ds) ==> exists d :: d in ds && Qualifies(es, d) && m == Annotate(es, d)
    ensures forall d :: d in ds && Qualifies(es, d) ==> Annotate(es, d) in Annotations(es, ds)
    decreases |ds|
  {
    if ds != [] {
      var init, last := ds[..|ds| - 1], ds[|ds| - 1];
      assert ds == init + [last];
      AnnotationsAreQualifyingMarks(es, init);
      assert forall d :: d in ds <==> d in init || d == last;
    }
  }

  /** One detection draws one annotation, with its label, box and confidence, if it qualifies, and nothing otherwise. */
  lemma AnnotationsOfOne(es: seq<Entry>, d: Detection)
    ensures Qualifies(es, d) ==> Annotations(es, [d]) == [Annotate(es, d)]
    ensures !Qualifies(es, d) ==> Annotations(es, [d]) == []
  {
    assert [d][..0] == [];
  }

  /** A detection that does not qualify (unknown label, or confidence at or below the threshold) changes neither presence nor the drawing. */
  lemma IgnoredDetection(es: seq<Entry>, a: seq<Detection>, d: Detection, b: seq<Detection>)
    requires !Qualifies(es, d)
    ensures Evaluated(es, a + [d] + b) == Evaluated(es, a + b)
    ensures Annotations(es, a + [d] + b) == Annotations(es, a + b)
  {
    forall k | 0 <= k < |es| ensures Evaluated(es, a + [d] + b)[k] == Evaluated(es, a + b)[k] {
      DetectedIgnoring(es, a, d, b, es[k].name);
    }
    AnnotationsIgnoring(es, a, d, b);
  }

  lemma DetectedIgnoring(es: seq<Entry>, a: seq<Detection>, d: Detection, b: seq<Detection>, name: string)
    requires !Qualifies(es, d)
    ensures Detected(es, a + [d] + b, name) == Detected(es, a + b, name)
  {
    assert forall x :: x in a + [d] + b <==> x in a + b || x == d;
  }

  lemma AnnotationsIgnoring(es: seq<Entry>, a: seq<Detection>, d: Detection, b: seq<Detection>)
    requires !Qualifies(es, d)
    ensures Annotations(es, a + [d] + b) == Annotations(es, a + b)
  {
    AnnotationsConcat(es, a + [d], b);
    AnnotationsConcat(es, a, [d]);
    AnnotationsOfOne(es, d);
    AnnotationsConcat(es, a, b);
  }

  /** `missing_ppe` lists each missing key once, in table order. */
  lemma MissingInTableOrder(es: seq<Entry>)
    requires DistinctLabels(es)
    ensures IsSubsequence(MissingLabels(es), Labels(es))
    ensures NoDuplicates(MissingLabels(es))
  {
    SubsequenceOfDistinct(MissingLabels(es), Labels(es));
  }

  /** After a frame, an item is reported missing exactly when it is a key and no detection of it qualified. */
  lemma MissingAfterFrame(es: seq<Entry>, ds: seq<Detection>, x: string)
    ensures x in MissingLabels(Evaluated(es, ds)) <==> x in Labels(es) && !Detected(es, ds, x)
  {
    var ev := Evaluated(es, ds);
    if x in Labels(es) && !Detected(es, ds, x) {
      var k :| 0 <= k < |es| && Labels(es)[k] == x;
      assert ev[k].name == x && !ev[k].present;
    }
  }

  /** With no detections every key is missing, in table order. */
  lemma {:induction false} EmptyFrameMissesAll(es: seq<Entry>)
    ensures MissingLabels(Evaluated(es, [])) == Labels(es)
    decreases |es|
  {
    if es != [] {
      var ev := Evaluated(es, []);
      assert !ev[0].present;
      assert ev[1..] == Evaluated(es[1..], []);
      EmptyFrameMissesAll(es[1..]);
    }
  }

  /** With the shipped table and no detections, all four items are missing. */
  lemma ShippedEmptyFrame()
    ensures MissingLabels(Evaluated(RequiredPpe, [])) == ["helmet", "vest", "gloves", "boots"]
  {
    EmptyFrameMissesAll(RequiredPpe);
  }

  /** No shipped threshold is below the limit, so nothing is ever "possibly" missing. */
  lemma {:induction false} ShippedHasNoLowConfidence(es: seq<Entry>, missing: seq<string>)
    requires SameSettings(es, RequiredPpe)
    ensures LowConfidenceItems(es, missing) == []
    decreases |missing|
  {
    if missing != [] {
      ShippedHasNoLowConfidence(es, missing[1..]);
      var idx := IndexOf(es, missing[0]);
      if idx.Some? {
        assert es[idx.value].minConfidence == RequiredPpe[idx.value].minConfidence;
      }
    }
  }

  /** With the shipped table the alert, when there is one, is the "confirmed missing" form listing every missing item. */
  lemma ShippedAlertIsConfirmed(es: seq<Entry>, missing: seq<string>)
    requires SameSettings(es, RequiredPpe)
    requires missing != []
    ensures AlertMessage(es, missing) == Some(ConfirmedPrefix + Join(missing, ", "))
  {
    ShippedHasNoLowConfidence(es, missing);
  }

  /** A configured threshold below the limit changes the wording: only those items are listed, as "possibly missing". */
  lemma LowThresholdAlert(es: seq<Entry>, missing: seq<string>)
    requires LowConfidenceItems(es, missing) != []
    ensures AlertMessage(es, missing) == Some(PossiblyPrefix + Join(LowConfidenceItems(es, missing), ", ") + PossiblySuffix)
  {
  }

  /**
   * A worked example: with a helmet threshold of 0.7 and a vest threshold of
   * 0.65, a helmet seen at 0.9 and a vest seen at 0.5 leave only the vest
   * missing, and only the helmet is drawn.
   */
  lemma TwoItemExample(helmet: string, vest: string, box: Box)
    requires helmet != vest && IsNormal(helmet) && IsNormal(vest)
    ensures var table := [Entry(helmet, 0.7, false, Green), Entry(vest, 0.65, false, Green)];
            var ds := [Detection(helmet, 0.9, box), Detection(vest, 0.5, box)];
            && MissingLabels(Evaluated(table, ds)) == [vest]
            && Qualifies(table, ds[0]) && Annotations(table, ds) == [Annotate(table, ds[0])]
  {
    var table := [Entry(helmet, 0.7, false, Green), Entry(vest, 0.65, false, Green)];
    var ds := [Detection(helmet, 0.9, box), Detection(vest, 0.5, box)];
    TwoItemQualification(helmet, vest, box);
    TwoItemPresence(table, ds, helmet, vest);
    assert ds == [ds[0]] + [ds[1]];
    AnnotationsConcat(table, [ds[0]], [ds[1]]);
    AnnotationsOfOne(table, ds[0]);
    AnnotationsOfOne(table, ds[1]);
  }

  lemma TwoItemPresence(table: seq<Entry>, ds: seq<Detection>, helmet: string, vest: string)
    requires |table| == 2 && table[0].name == helmet && table[1].name == vest && helmet != vest
    requires |ds| == 2 && Normalize(ds[0].name) == helmet && Qualifies(table, ds[0])
    requires Normalize(ds[1].name) == vest && !Qualifies(table, ds[1])
    ensures MissingLabels(Evaluated(table, ds)) == [vest]
  {
    assert Detected(table, ds, helmet) by {
      assert ds[0] in ds && Confirms(table, ds[0], helmet);
    }
    assert !Confirms(table, ds[0], vest) && !Confirms(table, ds[1], vest);
    NotDetectedInTwo(table, ds, vest);
    MissingOfTwo(Evaluated(table, ds));
  }

  lemma NotDetectedInTwo(table: seq<Entry>, ds: seq<Detection>, name: string)
    requires |ds| == 2 && !Confirms(table, ds[0], name) && !Confirms(table, ds[1], name)
    ensures !Detected(table, ds, name)
  {
    assert ds == [ds[0], ds[1]];
  }

  lemma MissingOfTwo(ev: seq<Entry>)
    requires |ev| == 2 && ev[0].present && !ev[1].present
    ensures MissingLabels(ev) == [ev[1].name]
  {
    assert ev[1..][1..] == [];
  }

  lemma TwoItemQualification(helmet: string, vest: string, box: Box)
    requires helmet != vest && IsNormal(helmet) && IsNormal(vest)
    ensures var table := [Entry(helmet, 0.7, false, Green), Entry(vest, 0.65, false, Green)];
            && Qualifies(table, Detection(helmet, 0.9, box)) && Normalize(helmet) == helmet
            && !Qualifies(table, Detection(vest, 0.5, box)) && Normalize(vest) == vest
  {
    var table := [Entry(helmet, 0.7, false, Green), Entry(vest, 0.65, false, Green)];
    NormalizeFixesNormal(helmet);
    NormalizeFixesNormal(vest);
    assert IndexOf(table, helmet) == Some(0);
    assert IndexOf(table, vest) == Some(1);
  }

  /** The same example with the shipped names. */
  lemma HelmetVestExample(box: Box)
    ensures var table := [Entry("helmet", 0.7, false, Green), Entry("vest", 0.65, false, Green)];
            var ds := [Detection("helmet", 0.9, box), Detection("vest", 0.5, box)];
            && MissingLabels(Evaluated(table, ds)) == ["vest"]
            && Qualifies(table, ds[0]) && Annotations(table, ds) == [Annotate(table, ds[0])]
            && Annotations(table, ds)[0].name == "helmet"
  {
    assert IsNormal("helmet") && IsNormal("vest");
    TwoItemExample("helmet", "vest", box);
  }

  // ---------------------------------------------------------------------------
  // The frame and the table as mutable objects

  /** The image being annotated, seen as the log of what has been drawn on it. */
  class Frame {
    var marks: seq<Annotation>

    constructor ()
      ensures marks == []
    {
      marks := [];
    }

    /** `cv2.rectangle` followed by `cv2.putText` for one detection. */
    method Draw(a: Annotation)
      modifies this
      ensures marks == old(marks) + [a]
    {
      marks := marks + [a];
    }
  }

  /** The process-wide requirement table `REQUIRED_PPE`. */
  class RequiredPpeTable {
    const entries: array<Entry>

    ghost predicate Valid()
      reads entries
    {
      DistinctLabels(entries[..])
    }

    constructor (table: seq<Entry>)
      requires DistinctLabels(table)
      ensures Valid() && fresh(entries) && entries[..] == table
    {
      entries := new Entry[|table|](k requires 0 <= k < |table| => table[k]);
    }

    /** `reset_ppe_status`: clears every `present` flag and touches nothing else. */
    method ResetPpeStatus()
      requires Valid()
      modifies entries
      ensures Valid()
      ensures entries[..] == ResetAll(old(entries[..]))
    {
      for i := 0 to entries.Length
        invariant forall k :: 0 <= k < i ==> entries[k] == old(entries[k]).(present := false)
        invariant forall k :: i <= k < entries.Length ==> entries[k] == old(entries[k])
      {
        entries[i] := entries[i].(present := false);
      }
    }

    /**
     * `detect_ppe` on one frame's detections: resets the table, marks and
     * draws every qualifying detection, and returns the missing items and the
     * alert it would speak.
     */
    method DetectPpe(frame: Frame, detections: seq<Detection>) returns (missing: seq<string>, alert: Option<string>)
      requires Valid()
      modifies entries, frame
      ensures Valid()
      ensures entries[..] == Evaluated(old(entries[..]), detections)
      ensures frame.marks == old(frame.marks) + Annotations(old(entries[..]), detections)
      ensures missing == MissingLabels(entries[..])
      ensures alert == AlertMessage(entries[..], missing)
    {
      ResetPpeStatus();
      ghost var cleared := entries[..];
      MarkDetections(frame, detections);
      ScannedIsEvaluated(cleared, entries[..], detections);
      NoStalePresence(cleared, old(entries[..]), detections);
      missing := MissingLabels(entries[..]);
      alert := AlertMessage(entries[..], missing);
    }

    /** The loop of `detect_ppe` over the detections, on a freshly reset table. */
    method MarkDetections(frame: Frame, detections: seq<Detection>)
      requires Valid()
      requires forall k :: 0 <= k < entries.Length ==> !entries[k].present
      modifies entries, frame
      ensures Valid()
      ensures Scanned(old(entries[..]), entries[..], detections)
      ensures frame.marks == old(frame.marks) + Annotations(old(entries[..]), detections)
    {
      ghost var table := entries[..];
      var i := 0;
      assert detections[..0] == [];
      while i < |detections|
        invariant 0 <= i <= |detections|
        invariant Valid()
        invariant Scanned(table, entries[..], detections[..i])
        invariant frame.marks == old(frame.marks) + Annotations(table, detections[..i])
      {
        ghost var before := entries[..];
        ScanStep(table, before, detections, i);
        AppendAssociates(old(frame.marks), Annotations(table, detections[..i]), Drawn(before, detections[i]));
        MarkOne(frame, detections[i]);
        i := i + 1;
      }
      assert detections[..i] == detections;
    }

    /** The body of that loop for one detection: mark its item present and draw it, if it qualifies. */
    method MarkOne(frame: Frame, d: Detection)
      requires Valid()
      modifies entries, frame
      ensures Valid()
      ensures entries[..] == Mark(old(entries[..]), d)
      ensures frame.marks == old(frame.marks) + Drawn(old(entries[..]), d)
    {
      var idx := IndexOf(entries[..], Normalize(d.name));
      if idx.Some? && d.conf > entries[idx.value].minConfidence {
        var mark := Annotate(entries[..], d);
        entries[idx.value] := entries[idx.value].(present := true);
        frame.Draw(mark);
      }
    }
  }

  /** What one detection adds to the drawing. */
  function Drawn(es: seq<Entry>, d: Detection): seq<Annotation> {
    if Qualifies(es, d) then [Annotate(es, d)] else []
  }

  /** Regrouping a concatenation, stated once for the proofs that need it. */
  lemma AppendAssociates<T>(a: seq<T>, b: seq<T>, c: seq<T>)
    ensures a + (b + c) == a + b + c
  {
  }

  /** One pass of the detection loop's body over the table's contents. */
  function Mark(es: seq<Entry>, d: Detection): (r: seq<Entry>)
    ensures SameSettings(r, es)
    ensures Qualifies(es, d) ==> r[IndexOf(es, Normalize(d.name)).value].present
    ensures !Qualifies(es, d) ==> r == es
    ensures forall k :: 0 <= k < |es| && (!Qualifies(es, d) || k != IndexOf(es, Normalize(d.name)).value) ==> r[k] == es[k]
  {
    var idx := IndexOf(es, Normalize(d.name));
    if idx.Some? && d.conf > es[idx.value].minConfidence
    then es[idx.value := es[idx.value].(present := true)]
    else es
  }

  /** What the loop of `detect_ppe` has established after a prefix `ds` of the detections. */
  ghost predicate Scanned(table: seq<Entry>, cur: seq<Entry>, ds: seq<Detection>) {
    && DistinctLabels(table)
    && SameSettings(cur, table)
    && forall k :: 0 <= k < |cur| ==> cur[k].present == Detected(table, ds, table[k].name)
  }

  lemma ScanStep(table: seq<Entry>, cur: seq<Entry>, ds: seq<Detection>, i: nat)
    requires i < |ds|
    requires Scanned(table, cur, ds[..i])
    ensures Scanned(table, Mark(cur, ds[i]), ds[..i + 1])
    ensures Annotations(table, ds[..i + 1]) == Annotations(table, ds[..i]) + Drawn(cur, ds[i])
  {
    var d := ds[i];
    assert ds[..i + 1] == ds[..i] + [d];
    SettingsDecideQualification(cur, table, d);
    var next := Mark(cur, d);
    forall k | 0 <= k < |next| ensures next[k].present == Detected(table, ds[..i + 1], table[k].name) {
      DetectedExtend(table, ds[..i], d, table[k].name);
    }
  }

  lemma ScannedIsEvaluated(table: seq<Entry>, cur: seq<Entry>, ds: seq<Detection>)
    requires Scanned(table, cur, ds)
    ensures cur == Evaluated(table, ds)
  {
  }

  /** Presence after one more detection. */
  lemma DetectedExtend(es: seq<Entry>, ds: seq<Detection>, d: Detection, name: string)
    ensures Detected(es, ds + [d], name) <==> Detected(es, ds, name) || Confirms(es, d, name)
  {
    assert forall x :: x in ds + [d] <==> x in ds || x == d;
  }
}
