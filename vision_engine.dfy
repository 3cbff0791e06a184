/** The label normaliser and the bucketing step of core/vision/vision_engine.py:
    raw detector labels are folded onto six structural categories, and
    confident detections are grouped by category. */
module VisionEngine {
  import opened Wrappers
  import opened Seqs
  import opened Strings

  const Walls := "walls"
  const Doors := "doors"
  const Windows := "windows"
  const Columns := "columns"
  const Beams := "beams"
  const Slabs := "slabs"

  /** The six bucket names, in the order of the `structured` dict. */
  const Categories: seq<string> := [Walls, Doors, Windows, Columns, Beams, Slabs]

  /** `_structure_objects`'s default `min_conf`. */
  const DefaultMinConf := 0.4

  /** The `mapping` dict: singular, plural and "sliding_door" spellings. */
  function Mapping(key: string): (r: Option<string>)
    ensures r.Some? ==> r.value in Categories
    ensures key in Categories ==> r == Some(key)
  {
    if key == "wall" || key == "walls" then Some(Walls)
    else if key == "door" || key == "sliding_door" || key == "doors" then Some(Doors)
    else if key == "window" || key == "windows" then Some(Windows)
    else if key == "column" || key == "columns" then Some(Columns)
    else if key == "beam" || key == "beams" then Some(Beams)
    else if key == "slab" || key == "slabs" then Some(Slabs)
    else None
  }

  /** `_normalize_label(label)`, with `raw` the label: lower-case, strip surrounding white space,
      turn spaces into underscores, then look the result up. */
  function NormalizeLabel(raw: string): (r: Option<string>)
    ensures r.Some? ==> r.value in Categories
  {
    Mapping(ReplaceSpaces(Strip(Lower(raw))))
  }

  /** A string without upper-case letters and white space is left alone by
      the three string steps. */
  lemma PlainStringFixed(s: string)
    requires forall k :: 0 <= k < |s| ==> !IsSpace(s[k]) && !('A' <= s[k] <= 'Z')
    ensures ReplaceSpaces(Strip(Lower(s))) == s
  {
    LowerPointwise(s, s);
    StripUnpadded(s);
    ReplaceSpacesPointwise(s, s);
  }

  /** Category names are plain lower-case words. */
  lemma CategoryIsPlain(c: string)
    requires c in Categories
    ensures forall k :: 0 <= k < |c| ==> !IsSpace(c[k]) && !('A' <= c[k] <= 'Z')
  {
    assert forall k :: 0 <= k < |c| ==> 'a' <= c[k] <= 'z';
  }

  /** Normalising a category name gives it back: the normaliser is idempotent
      on its results. */
  lemma NormalizeIdempotent(raw: string)
    ensures NormalizeLabel(raw).Some? ==> NormalizeLabel(NormalizeLabel(raw).value) == NormalizeLabel(raw)
  {
    var r := NormalizeLabel(raw);
    if r.Some? {
      CategoryIsPlain(r.value);
      PlainStringFixed(r.value);
    }
  }

  /** `lower()` of "Sliding Door". */
  lemma LowerSlidingDoor(raw: string, lowered: string)
    requires raw == "Sliding Door" && lowered == "sliding door"
    ensures Lower(raw) == lowered
  {
    LowerPointwise(raw, lowered);
  }

  /** `strip()` of "sliding door". */
  lemma StripSlidingDoor(lowered: string)
    requires lowered == "sliding door"
    ensures Strip(lowered) == lowered
  {
    StripUnpadded(lowered);
  }

  /** `replace(" ", "_")` of "sliding door". */
  lemma JoinSlidingDoor(lowered: string, joined: string)
    requires lowered == "sliding door" && joined == "sliding_door"
    ensures ReplaceSpaces(lowered) == joined
  {
    ReplaceSpacesPointwise(lowered, joined);
  }

  /** "Sliding Door" is a door. */
  lemma NormalizeSlidingDoor(raw: string)
    requires raw == "Sliding Door"
    ensures NormalizeLabel(raw) == Some(Doors)
  {
    var lowered, joined := "sliding door", "sliding_door";
    LowerSlidingDoor(raw, lowered);
    StripSlidingDoor(lowered);
    JoinSlidingDoor(lowered, joined);
    assert Mapping(joined) == Some(Doors);
  }

  /** "stair" is no category. */
  lemma NormalizeStair(raw: string)
    requires raw == "stair"
    ensures NormalizeLabel(raw) == None
  {
    assert |raw| == 5 && raw[0] == 's' && raw[1] == 't' && raw[2] == 'a' && raw[3] == 'i' && raw[4] == 'r';
    PlainStringFixed(raw);
    assert Mapping(raw) == None;
  }

  /** A detection as `_structure_objects` sees it. */
  datatype VisionObject = VisionObject(rawLabel: string, confidence: real)

  /** `obj["confidence"] < min_conf` is false and its label is recognised as
      category `c`. */
  predicate InBucket(o: VisionObject, minConf: real, c: string) {
    !(o.confidence < minConf) && NormalizeLabel(o.rawLabel) == Some(c)
  }

  /** The detections bucket `c` receives, in input order. */
  function Bucket(detections: seq<VisionObject>, minConf: real, c: string): seq<VisionObject> {
    Filter(detections, o => InBucket(o, minConf, c))
  }

  /** Adding one more detection to the input adds it to the end of the
      buckets it belongs to. */
  lemma BucketSnoc(detections: seq<VisionObject>, i: nat, minConf: real)
    requires i < |detections|
    ensures forall c ::
              Bucket(detections[..i + 1], minConf, c)
              == Bucket(detections[..i], minConf, c) + (if InBucket(detections[i], minConf, c) then [detections[i]] else [])
  {
    assert detections[..i + 1] == detections[..i] + [detections[i]];
    forall c {
      FilterSnoc(detections[..i], detections[i], o => InBucket(o, minConf, c));
    }
  }

  /** One iteration of the loop of `_structure_objects`: skip an unconfident
      detection, otherwise append it to the bucket its label names, if any. */
  method Place(structured: map<string, seq<VisionObject>>, obj: VisionObject, minConf: real)
    returns (placed: map<string, seq<VisionObject>>)
    requires structured.Keys == set c | c in Categories
    ensures placed.Keys == structured.Keys
    ensures forall c :: c in Categories ==>
      placed[c] == structured[c] + (if InBucket(obj, minConf, c) then [obj] else [])
  {
    placed := structured;
    if obj.confidence < minConf {
      return;
    }
    var normLabel := NormalizeLabel(obj.rawLabel);
    if normLabel.Some? && normLabel.value != "" {
      placed := structured[normLabel.value := structured[normLabel.value] + [obj]];
    }
  }

  /** `_structure_objects(detections, min_conf)`. */
  method StructureObjects(detections: seq<VisionObject>, minConf: real) returns (structured: map<string, seq<VisionObject>>)
    ensures structured.Keys == set c | c in Categories
    ensures forall c :: c in Categories ==> structured[c] == Bucket(detections, minConf, c)
  {
    structured := map[Walls := [], Doors := [], Windows := [], Columns := [], Beams := [], Slabs := []];
    for i := 0 to |detections|
      invariant structured.Keys == set c | c in Categories
      invariant forall c :: c in Categories ==> structured[c] == Bucket(detections[..i], minConf, c)
    {
      BucketSnoc(detections, i, minConf);
      structured := Place(structured, detections[i], minConf);
    }
    assert detections[..|detections|] == detections;
  }

  /** Every confident detection with a recognised label is in exactly one
      bucket; the others are in none. */
  lemma BucketMembership(detections: seq<VisionObject>, minConf: real, o: VisionObject, c: string)
    requires o in detections && c in Categories
    ensures o in Bucket(detections, minConf, c) <==> !(o.confidence < minConf) && NormalizeLabel(o.rawLabel) == Some(c)
  {
  }

  /** The six buckets, added up. */
  function BucketTotal(detections: seq<VisionObject>, minConf: real): nat {
    |Bucket(detections, minConf, Walls)| + |Bucket(detections, minConf, Doors)|
    + |Bucket(detections, minConf, Windows)| + |Bucket(detections, minConf, Columns)|
    + |Bucket(detections, minConf, Beams)| + |Bucket(detections, minConf, Slabs)|
  }

  /** A detection is kept at all: confident enough and recognised. */
  predicate Recognised(o: VisionObject, minConf: real) {
    !(o.confidence < minConf) && NormalizeLabel(o.rawLabel).Some?
  }

  /** The buckets partition the kept detections: together they hold as many
      entries as there are confident detections with a recognised label. */
  lemma {:induction false} BucketsPartition(detections: seq<VisionObject>, minConf: real)
    ensures BucketTotal(detections, minConf) == |Filter(detections, o => Recognised(o, minConf))|
  {
    if detections != [] {
      BucketsPartition(detections[1..], minConf);
    }
  }
}
