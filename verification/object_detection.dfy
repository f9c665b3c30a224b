/**
 * The confidence filter applied to the object detector's boxes.
 * The detector itself is a collaborator: its boxes and its table of class
 * names are inputs.
 */
module ObjectDetection {

  /** One detected box: the class id the detector assigns and its confidence. */
  datatype Box = Box(clsId: nat, conf: real)

  /** A box is reported only when its confidence is strictly above this. */
  const ConfidenceThreshold: real := 0.5

  predicate Kept(b: Box) {
    b.conf > ConfidenceThreshold
  }

  /** Every box's class id has a name in the detector's table. */
  predicate KnownClasses(boxes: seq<Box>, names: map<nat, string>) {
    forall i :: 0 <= i < |boxes| ==> boxes[i].clsId in names
  }

  /** The labels of the kept boxes, in box order. */
  function KeptLabels(boxes: seq<Box>, names: map<nat, string>): seq<string>
    requires KnownClasses(boxes, names)
  {
    if boxes == [] then []
    else
      var b := boxes[|boxes| - 1];
      KeptLabels(boxes[..|boxes| - 1], names) + (if Kept(b) then [names[b.clsId]] else [])
  }

  /**
   * The loop of the detector wrapper: look up each box's label, append it
   * when the confidence passes the threshold.
   */
  method DetectObject(boxes: seq<Box>, names: map<nat, string>) returns (labels: seq<string>)
    requires KnownClasses(boxes, names)
    ensures labels == KeptLabels(boxes, names)
    ensures |labels| <= |boxes|
  {
    labels := [];
    for i := 0 to |boxes|
      invariant labels == KeptLabels(boxes[..i], names)
      invariant |labels| <= i
    {
      assert boxes[..i + 1][..i] == boxes[..i];
      var className := names[boxes[i].clsId];
      if boxes[i].conf > ConfidenceThreshold {
        labels := labels + [className];
      }
    }
    assert boxes[..|boxes|] == boxes;
  }

  /** Filtering distributes over concatenation, so box order is kept. */
  lemma {:induction false} KeptLabelsAppend(a: seq<Box>, b: seq<Box>, names: map<nat, string>)
    requires KnownClasses(a, names) && KnownClasses(b, names)
    ensures KnownClasses(a + b, names)
    ensures KeptLabels(a + b, names) == KeptLabels(a, names) + KeptLabels(b, names)
    decreases |b|
  {
    assert forall i :: 0 <= i < |a + b| ==> (a + b)[i] == if i < |a| then a[i] else b[i - |a|];
    if b != [] {
      var c := b[..|b| - 1];
      assert (a + b)[..|a + b| - 1] == a + c;
      KeptLabelsAppend(a, c, names);
    } else {
      assert a + b == a;
    }
  }

  /** A label is reported exactly when some box with that label passed the threshold. */
  lemma {:induction false} KeptLabelsMembers(boxes: seq<Box>, names: map<nat, string>, l: string)
    requires KnownClasses(boxes, names)
    ensures l in KeptLabels(boxes, names) <==>
            exists i :: 0 <= i < |boxes| && Kept(boxes[i]) && names[boxes[i].clsId] == l
    ensures |KeptLabels(boxes, names)| <= |boxes|
  {
    if boxes != [] {
      var p := boxes[..|boxes| - 1];
      KeptLabelsMembers(p, names, l);
      assert forall i :: 0 <= i < |p| ==> p[i] == boxes[i];
    }
  }

  /** When every box is confident, the output is every box's label in order. */
  lemma {:induction false} AllConfidentKept(boxes: seq<Box>, names: map<nat, string>)
    requires KnownClasses(boxes, names)
    requires forall i :: 0 <= i < |boxes| ==> boxes[i].conf > ConfidenceThreshold
    ensures |KeptLabels(boxes, names)| == |boxes|
    ensures forall i :: 0 <= i < |boxes| ==> KeptLabels(boxes, names)[i] == names[boxes[i].clsId]
  {
    if boxes != [] {
      var p := boxes[..|boxes| - 1];
      assert forall i :: 0 <= i < |p| ==> p[i] == boxes[i];
      AllConfidentKept(p, names);
    }
  }

  /** A box whose confidence is exactly the threshold is not reported. */
  lemma ThresholdIsExclusive(b: Box, names: map<nat, string>)
    requires b.clsId in names && b.conf == 0.5
    ensures KeptLabels([b], names) == []
  {
    assert [b][..0] == [];
  }
}
