/** The BirdNET audio tagger: it cuts a 48 kHz signal into overlapping three-second
    windows half a second apart, lets the classifier score every window, and reports
    each species whose best score reaches the threshold. Decoding, resampling and the
    classifier are inputs. */
module AudioTagger {
  import opened Wrappers
  import opened Text

  const WindowSeconds: real := 3.0
  const HopSeconds: real := 0.5
  const SampleRate: nat := 48000
  const Threshold: real := 0.30

  /** `int(WINDOW_SEC * SAMPLE_RATE)` */
  const Window: nat := 144000
  /** `int(HOP_SEC * SAMPLE_RATE)` */
  const Hop: nat := 24000

  /** The window and the hop are the truncated products of seconds and rate. */
  lemma WindowAndHop()
    ensures Window == (WindowSeconds * SampleRate as real).Floor
    ensures Hop == (HopSeconds * SampleRate as real).Floor
    ensures Window == 6 * Hop
  {
  }

  /** `1 + max(0, len(y) - win) // hop` */
  function FrameCount(len: nat): (n: nat)
    ensures n >= 1
    ensures len <= Window ==> n == 1
  {
    1 + (if len >= Window then len - Window else 0) / Hop
  }

  function Min(a: nat, b: nat): nat { if a <= b then a else b }

  /** `_frame_audio`: frame `i` is `y[i*hop : i*hop + win]`, cut short at the end of
      the signal as slicing does. */
  function Frames<T>(y: seq<T>): (frames: seq<seq<T>>)
    ensures |frames| == FrameCount(|y|)
  {
    seq(FrameCount(|y|), i requires 0 <= i < FrameCount(|y|) =>
      y[Min(i * Hop, |y|)..Min(i * Hop + Window, |y|)])
  }

  /** With a signal at least one window long every frame is a full window starting
      at a multiple of the hop, one more frame would run past the end, and the part
      of the signal no frame covers is shorter than a hop. */
  lemma FramesTileSignal<T>(y: seq<T>)
    requires |y| >= Window
    ensures forall i :: 0 <= i < |Frames(y)| ==> i * Hop + Window <= |y| && Frames(y)[i] == y[i * Hop..i * Hop + Window]
    ensures |Frames(y)| * Hop + Window > |y|
    ensures |y| - ((|Frames(y)| - 1) * Hop + Window) < Hop
  {
    var n := FrameCount(|y|);
    var q := (|y| - Window) / Hop;
    assert n == q + 1;
    assert q * Hop <= |y| - Window < (q + 1) * Hop;
    forall i | 0 <= i < n
      ensures i * Hop + Window <= |y|
    {
      assert i * Hop <= q * Hop;
    }
  }

  /** `audio_path.endswith(".wav")` decides whether ffmpeg converts the file first;
      the test is case-sensitive, so `.WAV` is converted too. */
  predicate NeedsConversion(path: string) {
    !EndsWith(path, ".wav")
  }

  /** Any other letter case of `.wav` (`.WAV`, `.Wav`, ...) is converted as well. */
  lemma UpperCaseWavIsConverted(path: string, ext: string)
    requires EndsWith(path, ext) && Lower(ext) == ".wav" && ext != ".wav"
    ensures NeedsConversion(path)
  {
  }

  /** `scores.max(axis=0)[c]`: the best score of class `c` over all frames. */
  function BestScore(scores: seq<seq<real>>, c: nat): (m: real)
    requires scores != [] && forall f :: 0 <= f < |scores| ==> c < |scores[f]|
    ensures exists f :: 0 <= f < |scores| && m == scores[f][c]
    ensures forall f :: 0 <= f < |scores| ==> scores[f][c] <= m
  {
    if |scores| == 1 then scores[0][c]
    else
      var rest := BestScore(scores[1..], c);
      assert forall f :: 1 <= f < |scores| ==> scores[f] == scores[1..][f - 1];
      if scores[0][c] >= rest then scores[0][c] else rest
  }

  /** The classifier's output: one row of `classes` scores per frame. */
  ghost predicate ScoreMatrix(scores: seq<seq<real>>, classes: nat) {
    scores != [] && forall f :: 0 <= f < |scores| ==> |scores[f]| == classes
  }

  /** `np.where(max_scores >= THRESHOLD)[0]` restricted to the first `k` classes. */
  function SelectedBelow(scores: seq<seq<real>>, classes: nat, k: nat): (r: seq<nat>)
    requires ScoreMatrix(scores, classes) && k <= classes
    ensures forall c: nat :: c in r <==> c < k && BestScore(scores, c) >= Threshold
    ensures forall i, j :: 0 <= i < j < |r| ==> r[i] < r[j]
    ensures forall i :: 0 <= i < |r| ==> r[i] < k
  {
    if k == 0 then []
    else
      var rest := SelectedBelow(scores, classes, k - 1);
      var tail := if BestScore(scores, k - 1) >= Threshold then [k - 1] else [];
      assert forall c :: c in rest + tail <==> c in rest || c in tail;
      rest + tail
  }

  /** The selected classes, in increasing order. */
  function Selected(scores: seq<seq<real>>, classes: nat): seq<nat>
    requires ScoreMatrix(scores, classes)
  {
    SelectedBelow(scores, classes, classes)
  }

  /** A class is selected exactly when some frame scored it at least the threshold. */
  lemma SelectedIffSomeFrame(scores: seq<seq<real>>, classes: nat, c: nat)
    requires ScoreMatrix(scores, classes)
    ensures c in Selected(scores, classes) <==>
              c < classes && exists f :: 0 <= f < |scores| && scores[f][c] >= Threshold
  {
  }

  /** What `main` returns or raises. */
  datatype Outcome =
    /** `ValueError("Audio shorter than analysis window.")` */
    | TooShort
    /** `IndexError` from `labels[i]` when the label file has too few lines. */
    | MissingLabel
    /** The species found, each mapped to 1, and the duration in seconds. */
    | Species(species: map<string, nat>, duration: real)

  /** `{labels[i]: 1 for i in idx}`: an error when an index has no label. */
  function SpeciesOf(labels: seq<string>, idx: seq<nat>): (r: Option<map<string, nat>>)
    ensures r.None? <==> exists i :: i in idx && i >= |labels|
    ensures r.Some? ==> forall name :: name in r.value <==> exists i :: i in idx && i < |labels| && labels[i] == name
    ensures r.Some? ==> forall name :: name in r.value ==> r.value[name] == 1
  {
    if exists i :: i in idx && i >= |labels| then None
    else
      var names := set i | i in idx && i < |labels| :: labels[i];
      Some(map name | name in names :: 1)
  }

  /** Some selected class lies beyond the last line of the label file. */
  predicate LabelMissing(labelLines: seq<string>, scores: seq<seq<real>>, classes: nat)
    requires ScoreMatrix(scores, classes)
  {
    exists c :: c in Selected(scores, classes) && c >= |labelLines|
  }

  /** `main`, given the lines of the label file, the decoded signal and the
      classifier's scores for its frames. */
  function Main(labelLines: seq<string>, y: seq<real>, scores: seq<seq<real>>, classes: nat): (r: Outcome)
    requires |y| >= Window ==> ScoreMatrix(scores, classes) && |scores| == FrameCount(|y|)
    ensures r.TooShort? <==> |y| < Window
    ensures r.MissingLabel? <==> |y| >= Window && LabelMissing(labelLines, scores, classes)
    ensures r.Species? ==> r.duration == |y| as real / SampleRate as real
    ensures r.Species? ==> forall name :: name in r.species ==> r.species[name] == 1
  {
    var labels := seq(|labelLines|, i requires 0 <= i < |labelLines| => PyStrip(labelLines[i]));
    if |y| < Window then TooShort
    else
      match SpeciesOf(labels, Selected(scores, classes))
      case None => MissingLabel
      case Some(species) => Species(species, |y| as real / SampleRate as real)
  }

  /** A species is reported exactly when some frame scored a class with that label at
      least the threshold. */
  lemma ReportedSpecies(labelLines: seq<string>, y: seq<real>, scores: seq<seq<real>>, classes: nat, name: string)
    requires |y| >= Window ==> ScoreMatrix(scores, classes) && |scores| == FrameCount(|y|)
    requires Main(labelLines, y, scores, classes).Species?
    ensures name in Main(labelLines, y, scores, classes).species <==>
              exists c, f :: 0 <= c < classes && c < |labelLines| && PyStrip(labelLines[c]) == name
                             && 0 <= f < |scores| && scores[f][c] >= Threshold
  {
    var labels := seq(|labelLines|, i requires 0 <= i < |labelLines| => PyStrip(labelLines[i]));
    var idx := Selected(scores, classes);
    if name in Main(labelLines, y, scores, classes).species {
      var c :| c in idx && c < |labels| && labels[c] == name;
      SelectedIffSomeFrame(scores, classes, c);
    }
    if exists c, f :: 0 <= c < classes && c < |labelLines| && PyStrip(labelLines[c]) == name
                      && 0 <= f < |scores| && scores[f][c] >= Threshold {
      var c, f :| 0 <= c < classes && c < |labelLines| && PyStrip(labelLines[c]) == name
                  && 0 <= f < |scores| && scores[f][c] >= Threshold;
      SelectedIffSomeFrame(scores, classes, c);
      assert c in idx && labels[c] == name;
    }
  }
}
