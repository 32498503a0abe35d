/** The image and video tagger the object-detection Lambda runs: it keeps the
    detector's confident boxes, counts them per species and names the annotated copy.
    For videos it follows tracks across frames, locks each track to one species once
    enough confidence has accumulated, and records the largest number of birds of
    each species seen in a single frame. The detector and the tracker are inputs. */
module Tagger {
  import opened Text
  import opened Paths
  import opened Counters

  /** `CONF_THR`: a box counts when its confidence is above this. */
  const ConfidenceThreshold: real := 0.7
  /** `lock_after`: the accumulated confidence at which a track's species is fixed. */
  const LockAfter: real := 10.0

  /** One box the detector reports in an image. */
  datatype Box = Box(species: string, confidence: real)

  /** The `.json` file written beside the annotated copy. */
  datatype Meta = Meta(detected: bool, file: string, fileType: string, mediaType: string, tags: Counter<nat>)

  /** `ext[1:]`: the extension without its dot. */
  function DropDot(ext: string): string {
    if ext == "" then "" else ext[1..]
  }

  // ------------------------------------------------------------------ images

  /** The species of the boxes above the threshold, in detector order. */
  function KeptSpecies(boxes: seq<Box>, threshold: real): (names: seq<string>)
    ensures |names| <= |boxes|
    ensures forall n :: n in names <==> exists b :: b in boxes && b.confidence > threshold && b.species == n
    ensures names == [] <==> forall b :: b in boxes ==> b.confidence <= threshold
  {
    if boxes == [] then []
    else
      var rest := KeptSpecies(boxes[1..], threshold);
      assert forall b :: b in boxes <==> b == boxes[0] || b in boxes[1..];
      if boxes[0].confidence > threshold then [boxes[0].species] + rest else rest
  }

  /** `f"{stem}_annotated{ext}"` for the image at `path`. */
  function AnnotatedImageName(path: string): (r: string)
    ensures var (stem, ext) := SplitExt(Basename(path));
            StartsWith(r, stem + "_annotated") && EndsWith(r, ext)
  {
    var (stem, ext) := SplitExt(Basename(path));
    assert (stem + "_annotated" + ext)[|stem + "_annotated"|..] == ext;
    stem + "_annotated" + ext
  }

  /** `tag_image`: the annotated file's name and the metadata written beside it. */
  function TagImage(path: string, boxes: seq<Box>, threshold: real): (r: (string, Meta))
    ensures r.0 == AnnotatedImageName(path)
    ensures r.1.detected <==> exists b :: b in boxes && b.confidence > threshold
    ensures r.1.file == Basename(path) && r.1.mediaType == "image"
    ensures r.1.fileType == DropDot(SplitExt(Basename(path)).1)
    ensures forall n :: Count(r.1.tags, n) == multiset(KeptSpecies(boxes, threshold))[n]
  {
    var base := Basename(path);
    var names := KeptSpecies(boxes, threshold);
    var counts := Tally(names);
    TallyTotal(names);
    TallyCountsAll(names);
    (AnnotatedImageName(path), Meta(Total(counts) > 0, base, DropDot(SplitExt(base).1), "image", counts))
  }

  lemma TallyCountsAll(names: seq<string>)
    ensures forall n :: Count(Tally(names), n) == multiset(names)[n]
  {
    forall n
      ensures Count(Tally(names), n) == multiset(names)[n]
    {
      TallyCounts(names, n);
    }
  }

  /** The image's tag counts add up to the number of confident boxes. */
  lemma ImageTagsAddUp(path: string, boxes: seq<Box>, threshold: real)
    ensures Total(TagImage(path, boxes, threshold).1.tags) == |KeptSpecies(boxes, threshold)|
  {
    TallyTotal(KeptSpecies(boxes, threshold));
  }

  // ------------------------------------------------------------------ videos

  predicate IsDot(c: char) { c == '.' }

  /** `_fourcc_for`: the codec for a container, looked up without leading dots. */
  function FourCC(ext: string): (r: string)
    ensures r == "XVID" <==> DropWhile(ext, IsDot) == "avi"
    ensures r == "XVID" || r == "mp4v"
  {
    var container := DropWhile(ext, IsDot);
    if container == "avi" then "XVID"
    else if container == "mov" then "mp4v"
    else if container == "mp4" then "mp4v"
    else "mp4v"
  }

  /** A detection after tracking: the track it belongs to, its species and confidence. */
  datatype Tracked = Tracked(trackId: int, species: string, confidence: real)

  /** `accum[tid][sp]` on a missing species is 0. */
  function Weight(c: Counter<real>, k: string): real {
    if k in c.values then c.values[k] else 0.0
  }

  /** `sum(accum[tid].values())` */
  function SumWeights(keys: seq<string>, c: Counter<real>): real {
    if keys == [] then 0.0 else SumWeights(keys[..|keys| - 1], c) + Weight(c, keys[|keys| - 1])
  }

  function Mass(c: Counter<real>): real {
    SumWeights(c.keys, c)
  }

  /** `max(accum[tid], key=accum[tid].get)`: a species whose accumulated confidence is
      the largest. */
  function Heaviest(keys: seq<string>, c: Counter<real>): (r: string)
    requires keys != []
    ensures r in keys
    ensures forall j :: 0 <= j < |keys| ==> Weight(c, keys[j]) <= Weight(c, r)
  {
    var last := keys[|keys| - 1];
    if |keys| == 1 then last
    else
      var init := keys[..|keys| - 1];
      var best := Heaviest(init, c);
      assert forall j :: 0 <= j < |init| ==> keys[j] == init[j];
      if Weight(c, last) > Weight(c, best) then last else best
  }

  /** Of several species with the largest confidence, `max` returns the first in
      insertion order. */
  lemma {:induction false} HeaviestIsFirst(keys: seq<string>, c: Counter<real>)
    requires keys != []
    ensures exists i :: 0 <= i < |keys| && keys[i] == Heaviest(keys, c)
                        && forall j :: 0 <= j < i ==> Weight(c, keys[j]) < Weight(c, Heaviest(keys, c))
  {
    var r := Heaviest(keys, c);
    var last := keys[|keys| - 1];
    if |keys| == 1 {
      assert keys[0] == r;
    } else {
      var init := keys[..|keys| - 1];
      var best := Heaviest(init, c);
      if Weight(c, last) > Weight(c, best) {
        assert r == last;
        assert forall j :: 0 <= j < |keys| - 1 ==> Weight(c, keys[j]) < Weight(c, r) by {
          forall j | 0 <= j < |keys| - 1 ensures Weight(c, keys[j]) < Weight(c, r) {
            assert keys[j] == init[j];
          }
        }
      } else {
        assert r == best;
        HeaviestIsFirst(init, c);
        var i :| 0 <= i < |init| && init[i] == best && forall j :: 0 <= j < i ==> Weight(c, init[j]) < Weight(c, best);
        assert keys[i] == r;
        assert forall j :: 0 <= j < i ==> keys[j] == init[j];
      }
    }
  }

  /** `accum` and `locked`: per track, the confidence gathered for each species, and
      the species a track has been locked to. */
  datatype Tracks = Tracks(accum: map<int, Counter<real>>, locked: map<int, string>)

  ghost predicate AccumsWellFormed(accum: map<int, Counter<real>>) {
    forall id :: id in accum ==> WellFormed(accum[id])
  }

  /** Every lock is the heaviest species of its track, reached after at least
      `lockAfter` confidence. */
  ghost predicate LocksConsistent(t: Tracks, lockAfter: real) {
    AccumsWellFormed(t.accum)
    && forall id :: id in t.locked ==>
         id in t.accum && t.accum[id].keys != []
         && Mass(t.accum[id]) >= lockAfter
         && t.locked[id] == Heaviest(t.accum[id].keys, t.accum[id])
  }

  function AddConfidence(c: Counter<real>, species: string, confidence: real): (r: Counter<real>)
    ensures WellFormed(c) ==> WellFormed(r) && species in r.keys
  {
    Put(c, species, Weight(c, species) + confidence)
  }

  /** Giving one track a well-formed accumulator keeps all of them well formed. */
  lemma AccumsPut(accum: map<int, Counter<real>>, tid: int, a: Counter<real>)
    requires AccumsWellFormed(accum) && WellFormed(a)
    ensures AccumsWellFormed(accum[tid := a])
  {
  }

  /** The tracks after an unlocked track `tid` gathered `a`: it locks when `a` reaches
      `lockAfter`. */
  function Gathered(t: Tracks, tid: int, a: Counter<real>, lockAfter: real): Tracks
    requires a.keys != []
  {
    Tracks(t.accum[tid := a], if Mass(a) >= lockAfter then t.locked[tid := Heaviest(a.keys, a)] else t.locked)
  }

  /** One detection of the frame loop: an unlocked track gathers the confidence and
      may lock; the label is the lock if there is one, else the detected species. */
  function Observe(t: Tracks, d: Tracked, lockAfter: real): (r: (Tracks, string))
    requires AccumsWellFormed(t.accum)
    ensures AccumsWellFormed(r.0.accum)
  {
    var tid := d.trackId;
    if tid in t.locked then (t, t.locked[tid])
    else
      var a := AddConfidence(if tid in t.accum then t.accum[tid] else Empty(), d.species, d.confidence);
      var t1 := Gathered(t, tid, a, lockAfter);
      AccumsPut(t.accum, tid, a);
      (t1, if tid in t1.locked then t1.locked[tid] else d.species)
  }

  /** Gathering keeps the locks of the other tracks and their consistency. */
  lemma GatheredLocks(t: Tracks, tid: int, a: Counter<real>, lockAfter: real)
    requires LocksConsistent(t, lockAfter) && tid !in t.locked && WellFormed(a) && a.keys != []
    ensures var t1 := Gathered(t, tid, a, lockAfter);
            LocksConsistent(t1, lockAfter)
            && forall id :: id in t.locked ==> id in t1.locked && t1.locked[id] == t.locked[id]
  {
    var t1 := Gathered(t, tid, a, lockAfter);
    AccumsPut(t.accum, tid, a);
    forall id | id in t1.locked
      ensures id in t1.accum && t1.accum[id].keys != [] && Mass(t1.accum[id]) >= lockAfter
              && t1.locked[id] == Heaviest(t1.accum[id].keys, t1.accum[id])
    {
      if id != tid {
        assert id in t.locked && t1.locked[id] == t.locked[id];
        assert t1.accum[id] == t.accum[id];
      }
    }
  }

  /** Locks are permanent and stay consistent with what the track gathered. */
  lemma ObserveLocks(t: Tracks, d: Tracked, lockAfter: real)
    requires LocksConsistent(t, lockAfter)
    ensures var t1 := Observe(t, d, lockAfter).0;
            LocksConsistent(t1, lockAfter)
            && forall id :: id in t.locked ==> id in t1.locked && t1.locked[id] == t.locked[id]
  {
    var tid := d.trackId;
    if tid !in t.locked {
      var a := AddConfidence(if tid in t.accum then t.accum[tid] else Empty(), d.species, d.confidence);
      GatheredLocks(t, tid, a, lockAfter);
    }
  }

  /** The label of a locked track is its lock whatever species the detector reports;
      an unlocked track locks exactly when its gathered confidence reaches `lockAfter`,
      and until then is labelled with the reported species. */
  lemma ObserveLabel(t: Tracks, d: Tracked, lockAfter: real)
    requires AccumsWellFormed(t.accum)
    ensures var (t1, shown) := Observe(t, d, lockAfter);
            (d.trackId in t.locked ==> t1 == t && shown == t.locked[d.trackId])
            && (d.trackId !in t.locked ==>
                  d.trackId in t1.accum && (d.trackId in t1.locked <==> Mass(t1.accum[d.trackId]) >= lockAfter))
            && (d.trackId !in t1.locked ==> shown == d.species)
            && (d.trackId in t1.locked ==> shown == t1.locked[d.trackId])
  {
  }

  /** The labels of one frame's detections, in order, and the tracks after them. */
  function LabelFrame(t: Tracks, dets: seq<Tracked>, lockAfter: real): (r: (Tracks, seq<string>))
    requires AccumsWellFormed(t.accum)
    ensures AccumsWellFormed(r.0.accum)
    ensures |r.1| == |dets|
  {
    if dets == [] then (t, [])
    else
      var (t1, labels) := LabelFrame(t, dets[..|dets| - 1], lockAfter);
      var (t2, shown) := Observe(t1, dets[|dets| - 1], lockAfter);
      (t2, labels + [shown])
  }

  lemma {:induction false} LabelFrameLocks(t: Tracks, dets: seq<Tracked>, lockAfter: real)
    requires LocksConsistent(t, lockAfter)
    ensures var t1 := LabelFrame(t, dets, lockAfter).0;
            LocksConsistent(t1, lockAfter)
            && forall id :: id in t.locked ==> id in t1.locked && t1.locked[id] == t.locked[id]
  {
    if dets != [] {
      LabelFrameLocks(t, dets[..|dets| - 1], lockAfter);
      ObserveLocks(LabelFrame(t, dets[..|dets| - 1], lockAfter).0, dets[|dets| - 1], lockAfter);
    }
  }

  function NoTracks(): (t: Tracks)
    ensures LocksConsistent(t, 0.0) && t.locked == map[]
  {
    Tracks(map[], map[])
  }

  /** The whole frame loop: the tracks, `max_frame_counts`, and each frame's labels. */
  function Run(frames: seq<seq<Tracked>>, lockAfter: real): (r: (Tracks, Counter<nat>, seq<seq<string>>))
    ensures AccumsWellFormed(r.0.accum)
    ensures WellFormed(r.1)
    ensures |r.2| == |frames|
  {
    if frames == [] then (NoTracks(), Empty(), [])
    else
      var (t, best, history) := Run(frames[..|frames| - 1], lockAfter);
      var (t1, labels) := LabelFrame(t, frames[|frames| - 1], lockAfter);
      var counts := Tally(labels);
      (t1, RaiseAll(best, counts, |counts.keys|), history + [labels])
  }

  /** The largest number of `k` labels in any one frame. */
  function MostAtOnce(history: seq<seq<string>>, k: string): nat {
    if history == [] then 0
    else Max(MostAtOnce(history[..|history| - 1], k), multiset(history[|history| - 1])[k])
  }

  /** Every lock taken during the video is consistent and stays to the end. */
  lemma {:induction false} RunLocks(frames: seq<seq<Tracked>>, lockAfter: real)
    requires lockAfter >= 0.0
    ensures LocksConsistent(Run(frames, lockAfter).0, lockAfter)
  {
    if frames != [] {
      var init := frames[..|frames| - 1];
      RunLocks(init, lockAfter);
      LabelFrameLocks(Run(init, lockAfter).0, frames[|frames| - 1], lockAfter);
    }
  }

  /** `max_frame_counts[k]` is the most `k` labels any single frame had. */
  lemma {:induction false} RunMaxCounts(frames: seq<seq<Tracked>>, lockAfter: real, k: string)
    ensures Count(Run(frames, lockAfter).1, k) == MostAtOnce(Run(frames, lockAfter).2, k)
    ensures Positive(Run(frames, lockAfter).1)
  {
    if frames != [] {
      var init := frames[..|frames| - 1];
      var (t, best, history) := Run(init, lockAfter);
      var labels := LabelFrame(t, frames[|frames| - 1], lockAfter).1;
      var counts := Tally(labels);
      RunMaxCounts(init, lockAfter, k);
      RaiseAllMax(best, counts, k);
      RaiseAllPositive(best, counts, |counts.keys|);
      TallyCounts(labels, k);
      assert (history + [labels])[..|history|] == history;
    }
  }

  lemma {:induction false} MostAtOnceAtLeast(history: seq<seq<string>>, i: nat, k: string)
    requires i < |history|
    ensures MostAtOnce(history, k) >= multiset(history[i])[k]
  {
    if i < |history| - 1 {
      MostAtOnceAtLeast(history[..|history| - 1], i, k);
    }
  }

  lemma {:induction false} MostAtOnceWitness(history: seq<seq<string>>, k: string)
    requires MostAtOnce(history, k) > 0
    ensures exists i :: 0 <= i < |history| && history[i] != []
  {
    var init := history[..|history| - 1];
    if MostAtOnce(init, k) > 0 {
      MostAtOnceWitness(init, k);
      var i :| 0 <= i < |init| && init[i] != [];
      assert history[i] == init[i];
    } else {
      assert history[|history| - 1] != [];
    }
  }

  /** Each frame gets one label per detection. */
  lemma {:induction false} RunLabelsPerFrame(frames: seq<seq<Tracked>>, lockAfter: real, i: nat)
    requires i < |frames|
    ensures |Run(frames, lockAfter).2[i]| == |frames[i]|
    decreases |frames|
  {
    var init := frames[..|frames| - 1];
    RunHistory(frames, lockAfter);
    if i < |init| {
      RunLabelsPerFrame(init, lockAfter, i);
      assert init[i] == frames[i];
    }
  }

  /** The history of a longer video extends that of its first frames by the labels of
      the last frame. */
  lemma RunHistory(frames: seq<seq<Tracked>>, lockAfter: real)
    requires frames != []
    ensures var h := Run(frames[..|frames| - 1], lockAfter).2;
            && (forall i :: 0 <= i < |frames| - 1 ==> Run(frames, lockAfter).2[i] == h[i])
            && |Run(frames, lockAfter).2[|frames| - 1]| == |frames[|frames| - 1]|
  {
    var init := frames[..|frames| - 1];
    var labels := LabelFrame(Run(init, lockAfter).0, frames[|frames| - 1], lockAfter).1;
    assert Run(frames, lockAfter).2 == Run(init, lockAfter).2 + [labels];
  }

  /** A frame with a detection gives its first label a positive maximum. */
  lemma DetectionCounts(frames: seq<seq<Tracked>>, lockAfter: real, i: nat)
    requires i < |frames| && frames[i] != []
    ensures Run(frames, lockAfter).1.keys != []
  {
    var r := Run(frames, lockAfter);
    RunLabelsPerFrame(frames, lockAfter, i);
    var k := r.2[i][0];
    MostAtOnceAtLeast(r.2, i, k);
    RunMaxCounts(frames, lockAfter, k);
    assert k in r.1.values;
  }

  /** A species with a positive maximum was seen in some frame with a detection. */
  lemma CountedDetection(frames: seq<seq<Tracked>>, lockAfter: real)
    requires Run(frames, lockAfter).1.keys != []
    ensures exists i :: 0 <= i < |frames| && frames[i] != []
  {
    var r := Run(frames, lockAfter);
    var k := r.1.keys[0];
    RunMaxCounts(frames, lockAfter, k);
    MostAtOnceWitness(r.2, k);
    var i :| 0 <= i < |r.2| && r.2[i] != [];
    RunLabelsPerFrame(frames, lockAfter, i);
  }

  /** Some species has a positive maximum exactly when some frame had a detection. */
  lemma RunDetects(frames: seq<seq<Tracked>>, lockAfter: real)
    ensures Total(Run(frames, lockAfter).1) > 0 <==> exists i :: 0 <= i < |frames| && frames[i] != []
  {
    var best := Run(frames, lockAfter).1;
    RunMaxCounts(frames, lockAfter, "");
    TotalPositive(best.keys, best.values);
    if exists i :: 0 <= i < |frames| && frames[i] != [] {
      var i :| 0 <= i < |frames| && frames[i] != [];
      DetectionCounts(frames, lockAfter, i);
    }
    if best.keys != [] {
      CountedDetection(frames, lockAfter);
    }
  }

  /** The annotated video's name, with the extension as the file has it. */
  function VideoOutputName(path: string): (r: string)
    ensures EndsWith(r, SplitExt(path).1)
    ensures StartsWith(r, SplitExt(Basename(path)).0 + "_annotated")
  {
    var name := SplitExt(Basename(path)).0 + "_annotated";
    assert (name + SplitExt(path).1)[|name|..] == SplitExt(path).1;
    name + SplitExt(path).1
  }

  /** The annotated video's name as `tag_video` builds it: the extension lower-cased. */
  function VideoOutputNameAsWritten(path: string): (r: string)
    ensures EndsWith(r, Lower(SplitExt(path).1))
  {
    var name := SplitExt(Basename(path)).0 + "_annotated";
    assert (name + Lower(SplitExt(path).1))[|name|..] == Lower(SplitExt(path).1);
    name + Lower(SplitExt(path).1)
  }

  /** The detection loop of one frame, updating `accum` and `locked` in turn. */
  method LabelDetections(accum0: map<int, Counter<real>>, locked0: map<int, string>, dets: seq<Tracked>, lockAfter: real)
    returns (accum: map<int, Counter<real>>, locked: map<int, string>, finalLabels: seq<string>)
    requires AccumsWellFormed(accum0)
    ensures (Tracks(accum, locked), finalLabels) == LabelFrame(Tracks(accum0, locked0), dets, lockAfter)
  {
    accum, locked, finalLabels := accum0, locked0, [];
    for j := 0 to |dets|
      invariant (Tracks(accum, locked), finalLabels) == LabelFrame(Tracks(accum0, locked0), dets[..j], lockAfter)
    {
      assert dets[..j + 1][..j] == dets[..j];
      var d := dets[j];
      ghost var step := Observe(Tracks(accum, locked), d, lockAfter);
      assert LabelFrame(Tracks(accum0, locked0), dets[..j + 1], lockAfter) == (step.0, finalLabels + [step.1]);
      var tid := d.trackId;
      if tid !in locked {
        var a := AddConfidence(if tid in accum then accum[tid] else Empty(), d.species, d.confidence);
        ghost var gathered := Gathered(Tracks(accum, locked), tid, a, lockAfter);
        accum := accum[tid := a];
        if Mass(a) >= lockAfter {
          locked := locked[tid := Heaviest(a.keys, a)];
        }
        assert Tracks(accum, locked) == gathered;
      }
      var shown := if tid in locked then locked[tid] else d.species;
      assert (Tracks(accum, locked), shown) == step;
      finalLabels := finalLabels + [shown];
    }
    assert dets[..|dets|] == dets;
  }

  /** `for k, v in frame_counts.items(): if v > max_frame_counts[k]: ...` */
  method RaiseCounts(best0: Counter<nat>, counts: Counter<nat>) returns (best: Counter<nat>)
    requires WellFormed(best0) && WellFormed(counts)
    ensures best == RaiseAll(best0, counts, |counts.keys|)
    ensures forall k :: Count(best, k) == Max(Count(best0, k), Count(counts, k))
  {
    best := best0;
    for m := 0 to |counts.keys|
      invariant best == RaiseAll(best0, counts, m)
    {
      var k := counts.keys[m];
      var v := counts.values[k];
      if v > Count(best, k) {
        best := Put(best, k, v);
      }
    }
    forall k
      ensures Count(best, k) == Max(Count(best0, k), Count(counts, k))
    {
      RaiseAllMax(best0, counts, k);
    }
  }

  /** `tag_video` on the tracker's output for each frame: the annotated file's name
      and the metadata written beside it. */
  method TagVideo(path: string, frames: seq<seq<Tracked>>, lockAfter: real) returns (outName: string, meta: Meta)
    ensures outName == VideoOutputName(path)
    ensures meta.tags == Run(frames, lockAfter).1
    ensures meta.detected <==> exists i :: 0 <= i < |frames| && frames[i] != []
    ensures forall k :: Count(meta.tags, k) == MostAtOnce(Run(frames, lockAfter).2, k)
    ensures meta.file == Basename(path) && meta.mediaType == "video"
    ensures meta.fileType == DropDot(SplitExt(Basename(path)).1)
  {
    var base := Basename(path);
    outName := SplitExt(base).0 + "_annotated" + SplitExt(path).1;
    var accum: map<int, Counter<real>> := map[];
    var locked: map<int, string> := map[];
    var best: Counter<nat> := Empty();
    ghost var history: seq<seq<string>> := [];
    for i := 0 to |frames|
      invariant (Tracks(accum, locked), best, history) == Run(frames[..i], lockAfter)
    {
      assert frames[..i + 1][..i] == frames[..i];
      var finalLabels;
      accum, locked, finalLabels := LabelDetections(accum, locked, frames[i], lockAfter);
      best := RaiseCounts(best, Tally(finalLabels));
      history := history + [finalLabels];
    }
    assert frames[..|frames|] == frames;
    RunDetects(frames, lockAfter);
    forall k
      ensures Count(best, k) == MostAtOnce(Run(frames, lockAfter).2, k)
    {
      RunMaxCounts(frames, lockAfter, k);
    }
    meta := Meta(Total(best) > 0, base, DropDot(SplitExt(base).1), "video", best);
  }
}
