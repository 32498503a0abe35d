/** The audio Lambda: for a recording uploaded under `raw_uploads/` it picks the
    newest classifier and label file, runs the audio tagger, and stores one item with
    the species found. */
module AudioHandler {
  import opened Wrappers
  import opened Text
  import opened Paths
  import opened ModelStore
  import opened UrlParse
  import AudioTagger
  import Tagger

  const Region: string := "us-east-1"
  const ModelSuffix: string := ".tflite"
  const LabelSuffix: string := ".txt"

  /** `os.path.splitext(fname)[1].lstrip(".").lower()` */
  function AudioExtension(fname: string): string {
    Lower(DropWhile(SplitExt(fname).1, Tagger.IsDot))
  }

  predicate Supported(ext: string) {
    ext in ["wav", "mp3", "flac", "m4a", "ogg"]
  }

  /** A supported file has an extension `splitext` sees, made of its text after the
      last dot, in any case. */
  lemma SupportedHasExtension(fname: string)
    requires Supported(AudioExtension(fname))
    ensures SplitExt(fname).1 != ""
    ensures AudioExtension(fname) == Lower(AfterLastDot(fname))
  {
    var ext := SplitExt(fname).1;
    if ext != "" {
      SplitExtAgreesWithRsplit(fname);
      assert ext == "." + AfterLastDot(fname);
      assert ext[1..] == AfterLastDot(fname);
      assert DropWhile(ext, Tagger.IsDot) == DropWhile(ext[1..], Tagger.IsDot);
      if AfterLastDot(fname) != "" {
        assert !Tagger.IsDot(AfterLastDot(fname)[0]);
      }
    }
  }

  /** The item put into the table; an audio file has no annotated copy and no
      thumbnail. */
  datatype Item = Item(
    uniqueId: string, uploadTime: string, deleted: bool, detected: bool,
    fileSize: nat, format: string, mediaId: string, mediaType: string,
    originalUrl: string, annotatedUrl: Option<string>, thumbnailUrl: Option<string>,
    tags: map<string, nat>, duration: real)

  /** The metadata returned with status 200. */
  datatype Meta = Meta(file: string, detected: bool, tags: map<string, nat>)

  datatype Outcome =
    /** `{"statusCode": 415, "msg": "unsupported file type"}` */
    | Unsupported
    /** `RuntimeError("No .tflite model found in S3")` */
    | NoModel
    /** `RuntimeError("No .txt label file found in S3")` */
    | NoLabels
    /** An exception raised by the tagger: a signal shorter than one window, or a
        selected class without a label. */
    | TaggerFailed(reason: AudioTagger.Outcome)
    | Stored(item: Item, meta: Meta)

  /** The uploaded object and what the outside world supplies: the model folder's
      listing, the label file's lines, the decoded signal, the classifier's scores,
      the clock and the file size. */
  datatype Upload = Upload(
    bucket: string, key: string, objects: seq<S3Object>,
    labelLines: seq<string>, signal: seq<real>, scores: seq<seq<real>>, classes: nat,
    uploadTime: string, fileSize: nat)

  /** Whether the inputs describe a classifier run on the signal's frames. */
  ghost predicate Consistent(u: Upload) {
    |u.signal| >= AudioTagger.Window ==>
      AudioTagger.ScoreMatrix(u.scores, u.classes) && |u.scores| == AudioTagger.FrameCount(|u.signal|)
  }

  /** `lambda_handler` for the first record of the S3 event. */
  function Handle(u: Upload): (out: Outcome)
    requires Consistent(u)
    ensures out.Unsupported? <==> !Supported(AudioExtension(Basename(u.key)))
    ensures out.NoModel? <==> Supported(AudioExtension(Basename(u.key))) && LatestWithSuffix(u.objects, ModelSuffix).None?
    ensures out.NoLabels? <==>
              && Supported(AudioExtension(Basename(u.key)))
              && LatestWithSuffix(u.objects, ModelSuffix).Some? && LatestWithSuffix(u.objects, LabelSuffix).None?
    ensures out.TaggerFailed? ==> out.reason.TooShort? || out.reason.MissingLabel?
    ensures out.TaggerFailed? && out.reason.TooShort? <==>
              && Supported(AudioExtension(Basename(u.key)))
              && LatestWithSuffix(u.objects, ModelSuffix).Some? && LatestWithSuffix(u.objects, LabelSuffix).Some?
              && |u.signal| < AudioTagger.Window
    ensures out.TaggerFailed? && out.reason.MissingLabel? <==>
              && Supported(AudioExtension(Basename(u.key)))
              && LatestWithSuffix(u.objects, ModelSuffix).Some? && LatestWithSuffix(u.objects, LabelSuffix).Some?
              && |u.signal| >= AudioTagger.Window
              && AudioTagger.LabelMissing(u.labelLines, u.scores, u.classes)
    ensures out.Stored? ==> |u.signal| >= AudioTagger.Window
  {
    var fname := Basename(u.key);
    var ext := AudioExtension(fname);
    if !Supported(ext) then Unsupported
    else if LatestWithSuffix(u.objects, ModelSuffix).None? then NoModel
    else if LatestWithSuffix(u.objects, LabelSuffix).None? then NoLabels
    else
      var found := AudioTagger.Main(u.labelLines, u.signal, u.scores, u.classes);
      if !found.Species? then TaggerFailed(found)
      else Record(u, fname, ext, found.species, found.duration)
  }

  /** The item written and the metadata returned for the species found. */
  function Record(u: Upload, fname: string, ext: string, species: map<string, nat>, duration: real): Outcome {
    var detected := species != map[];
    var stored := map k | k in species :: 1;
    Stored(Item(u.uploadTime, u.uploadTime, false, detected, u.fileSize, ext, fname, "audio",
                S3ObjectUrl(u.bucket, Region, u.key), None, None, stored, duration),
           Meta(fname, detected, species))
  }

  /** An item is stored exactly when the file is supported, both the model and the
      label file are found, the signal fills a window and every selected class has a
      label. */
  lemma StoredExactly(u: Upload)
    requires Consistent(u)
    ensures Handle(u).Stored? <==>
              && Supported(AudioExtension(Basename(u.key)))
              && LatestWithSuffix(u.objects, ModelSuffix).Some? && LatestWithSuffix(u.objects, LabelSuffix).Some?
              && |u.signal| >= AudioTagger.Window
              && !AudioTagger.LabelMissing(u.labelLines, u.scores, u.classes)
  {
  }

  /** The stored item: its id is the upload time, it is not deleted, its format is the
      lower-cased extension, it links only to the original object, it is detected
      exactly when some species was found, every species is stored with count 1, and
      the returned metadata carries the same tags. */
  lemma StoredItem(u: Upload)
    requires Consistent(u)
    requires Handle(u).Stored?
    ensures var out := Handle(u);
            var fname := Basename(u.key);
            && out.item.uniqueId == u.uploadTime == out.item.uploadTime && !out.item.deleted
            && out.item.format == AudioExtension(fname) && out.item.mediaId == fname
            && out.item.mediaType == "audio" && out.item.fileSize == u.fileSize
            && out.item.originalUrl == S3ObjectUrl(u.bucket, Region, u.key)
            && out.item.annotatedUrl.None? && out.item.thumbnailUrl.None?
            && (out.item.detected <==> out.item.tags != map[])
            && (forall name :: name in out.item.tags ==> out.item.tags[name] == 1)
            && out.item.tags.Keys == out.meta.tags.Keys
            && out.meta == Meta(fname, out.item.detected, AudioTagger.Main(u.labelLines, u.signal, u.scores, u.classes).species)
            && out.item.duration == AudioTagger.Main(u.labelLines, u.signal, u.scores, u.classes).duration
  {
    var fname := Basename(u.key);
    var found := AudioTagger.Main(u.labelLines, u.signal, u.scores, u.classes);
    assert found.Species?;
    assert Handle(u) == Record(u, fname, AudioExtension(fname), found.species, found.duration);
  }

  /** The stored tags are the species the tagger reported, and a recording is
      marked detected exactly when some frame scored a labelled class at least the
      threshold. */
  lemma StoredSpecies(u: Upload, name: string)
    requires Consistent(u)
    requires Handle(u).Stored?
    ensures name in Handle(u).item.tags <==>
              exists c, f :: 0 <= c < u.classes && c < |u.labelLines| && PyStrip(u.labelLines[c]) == name
                             && 0 <= f < |u.scores| && u.scores[f][c] >= AudioTagger.Threshold
  {
    AudioTagger.ReportedSpecies(u.labelLines, u.signal, u.scores, u.classes, name);
  }
}
