/** The YOLO class filter of core/vision/object_filter.py: detections whose
    class is a wall, a door or a column are labelled in place and kept, in
    order; every other detection is dropped. */
module ObjectFilter {
  import opened Wrappers
  import opened Seqs

  /** A detection dict. Its `class_id` is only read; its `label` entry
      (`classLabel`, `None` while the dict has none) is written by the filter. */
  class Detection {
    const classId: int
    var classLabel: Option<string>

    constructor (classId: int, classLabel: Option<string>)
      ensures this.classId == classId && this.classLabel == classLabel
    {
      this.classId := classId;
      this.classLabel := classLabel;
    }
  }

  /** `CLASS_MAP.get(class_id, None)`. */
  function ClassLabel(classId: int): (r: Option<string>)
    ensures r.Some? <==> 0 <= classId <= 8
  {
    if classId == 0 then Some("column")
    else if classId == 1 then Some("curtain_wall")
    else if classId == 2 then Some("dimension")
    else if classId == 3 then Some("door")
    else if classId == 4 then Some("railing")
    else if classId == 5 then Some("door")
    else if classId == 6 then Some("stair")
    else if classId == 7 then Some("wall")
    else if classId == 8 then Some("window")
    else None
  }

  /** The labels the filter keeps. */
  predicate IsStructuralLabel(name: Option<string>) {
    name == Some("wall") || name == Some("door") || name == Some("column")
  }

  predicate IsKept(d: Detection) {
    IsStructuralLabel(ClassLabel(d.classId))
  }

  /** The kept classes are exactly 7, 3, 5 and 0; class 5, the sliding door,
      is labelled "door". */
  lemma KeptClasses(classId: int)
    ensures IsStructuralLabel(ClassLabel(classId)) <==> classId in {0, 3, 5, 7}
    ensures classId == 5 ==> ClassLabel(classId) == Some("door")
  {
  }

  /** `filter_structural_objects(detections)`. */
  method FilterStructuralObjects(detections: seq<Detection>) returns (filtered: seq<Detection>)
    modifies set d | d in detections
    ensures filtered == Filter(detections, IsKept)
    ensures forall d :: d in detections && IsKept(d) ==> d.classLabel == ClassLabel(d.classId)
    ensures forall d :: d in detections && !IsKept(d) ==> d.classLabel == old(d.classLabel)
  {
    filtered := [];
    for i := 0 to |detections|
      invariant filtered == Filter(detections[..i], IsKept)
      invariant forall d :: d in detections[..i] && IsKept(d) ==> d.classLabel == ClassLabel(d.classId)
      invariant forall d :: d in detections && !IsKept(d) ==> d.classLabel == old(d.classLabel)
    {
      var d := detections[i];
      var name := ClassLabel(d.classId);
      FilterSnoc(detections[..i], d, IsKept);
      assert detections[..i + 1] == detections[..i] + [d];
      if name == Some("wall") || name == Some("door") || name == Some("column") {
        d.classLabel := name;
        filtered := filtered + [d];
      }
    }
    assert detections[..|detections|] == detections;
  }

  /** The output is an order-preserving selection of the input. */
  lemma FilteredIsSubsequence(detections: seq<Detection>)
    ensures IsSubsequence(Filter(detections, IsKept), detections)
  {
    FilterIsSubsequence(detections, IsKept);
  }
}
