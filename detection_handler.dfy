/** The object-detection Lambda: for a picture or video uploaded under `raw_uploads/`
    it picks the newest YOLO weights, runs the tagger, and stores one item that
    describes the file, its annotated copy and its thumbnail. */
module DetectionHandler {
  import opened Wrappers
  import opened Text
  import opened Paths
  import opened Counters
  import opened ModelStore
  import opened UrlParse
  import Tagger
  import Presign

  const AnnotPrefix: string := "annotated/"
  const ModelSuffix: string := ".pt"

  datatype Media = Picture | Video

  /** `ext.lower()` checked against the picture and the video extensions. */
  function MediaOfExtension(ext: string): Option<Media> {
    var e := Lower(ext);
    if e in ["jpg", "jpeg", "png"] then Some(Picture)
    else if e in ["mp4", "avi", "mov"] then Some(Video)
    else None
  }

  /** The classification ignores case. */
  lemma MediaIgnoresCase(ext: string)
    ensures MediaOfExtension(ext) == MediaOfExtension(Lower(ext))
    ensures MediaOfExtension(ext).Some? ==> |ext| == 3 || |ext| == 4
  {
    LowerTwice(ext);
  }

  /** `fname.rsplit(".", 1)[-1]`, classified. */
  function MediaOf(fname: string): Option<Media> {
    MediaOfExtension(AfterLastDot(fname))
  }

  /** `f"{stem}_annotated.{ext}"`: where the handler looks for the tagger's output. */
  function ExpectedAnnotation(fname: string): (r: string)
    ensures '/' !in fname ==> '/' !in r
    ensures EndsWith(r, "." + AfterLastDot(fname))
  {
    var stem := SplitExt(fname).0;
    var tail := "." + AfterLastDot(fname);
    assert (stem + "_annotated" + tail)[|stem + "_annotated"|..] == tail;
    SlashFreeParts(fname);
    stem + "_annotated" + tail
  }

  /** The stem and the text after the last dot of a name without a slash have none. */
  lemma SlashFreeParts(fname: string)
    ensures '/' !in fname ==> '/' !in SplitExt(fname).0 + "_annotated" + "." + AfterLastDot(fname)
  {
    if '/' !in fname {
      var stem := SplitExt(fname).0;
      var r := AfterLastDot(fname);
      CharNotInParts('/', stem, SplitExt(fname).1);
      CharNotInParts('/', fname[..|fname| - |r|], r);
      CharNotInConcat('/', stem, "_annotated");
      CharNotInConcat('/', stem + "_annotated", ".");
      CharNotInConcat('/', stem + "_annotated" + ".", r);
    }
  }

  lemma CharNotInParts(c: char, a: string, b: string)
    requires c !in a + b
    ensures c !in a && c !in b
  {
    assert forall k :: 0 <= k < |a| ==> (a + b)[k] == a[k];
    assert forall k :: 0 <= k < |b| ==> (a + b)[|a| + k] == b[k];
  }

  lemma CharNotInConcat(c: char, a: string, b: string)
    requires c !in a && c !in b
    ensures c !in a + b
  {
  }

  /** `src_key.replace("raw_uploads/", "thumbnails/", 1)` */
  function ThumbnailKey(srcKey: string): string {
    ReplaceFirst(srcKey, "raw_uploads/", "thumbnails/")
  }

  /** The name the tagger gives its output for the file `fname` in directory `tmp`. */
  function WrittenAnnotation(tmp: string, fname: string, media: Media): string {
    match media
    case Picture => Tagger.AnnotatedImageName(tmp + "/" + fname)
    case Video => Tagger.VideoOutputName(tmp + "/" + fname)
  }

  /** The files in the temporary directory when the handler checks for the output:
      the download, the weights, the annotated copy and its metadata. */
  function TmpFiles(fname: string, model: S3Object, written: string): set<string> {
    {fname, LocalName(model), written, written + ".json"}
  }

  /** The item put into the table. */
  datatype Item = Item(
    uniqueId: string, uploadTime: string, deleted: bool, detected: bool,
    fileSize: nat, format: string, mediaId: string, mediaType: string,
    originalUrl: string, annotatedUrl: string, thumbnailUrl: string,
    tags: map<string, nat>, duration: Option<string>)

  datatype Outcome =
    /** `{"statusCode": 415, "msg": "unsupported file type"}` */
    | Unsupported
    /** `RuntimeError("No .pt model in S3 folder")` */
    | NoModel
    /** `FileNotFoundError(annot_local)` */
    | MissingAnnotation(path: string)
    /** `{"statusCode": 200, "meta": meta}` after the item was stored. */
    | Stored(item: Item, meta: Tagger.Meta)

  datatype Config = Config(annotBucket: string, region: string)

  /** The uploaded object and what the outside world supplies: the listing of the
      model folder, the detector's boxes for a picture or the tracker's detections for
      each frame of a video, the clock, the file size, and the rounded duration when
      the video could be opened. */
  datatype Upload = Upload(
    srcBucket: string, srcKey: string, tmp: string, models: seq<S3Object>,
    boxes: seq<Tagger.Box>, frames: seq<seq<Tagger.Tracked>>,
    uploadTime: string, fileSize: nat, duration: Option<string>)

  /** The item for a file whose metadata the tagger wrote. */
  function ItemFor(cfg: Config, u: Upload, media: Media, meta: Tagger.Meta): (item: Item)
    ensures item.uniqueId == u.uploadTime == item.uploadTime && !item.deleted
    ensures item.mediaId == Basename(u.srcKey) && item.format == AfterLastDot(Basename(u.srcKey))
    ensures item.detected == meta.detected && item.mediaType == meta.mediaType
    ensures item.tags == meta.tags.values
    ensures item.duration.Some? ==> media == Video
    ensures item.originalUrl == S3ObjectUrl(u.srcBucket, cfg.region, u.srcKey)
    ensures item.thumbnailUrl == S3ObjectUrl(u.srcBucket, cfg.region, ThumbnailKey(u.srcKey))
    ensures item.annotatedUrl == S3ObjectUrl(cfg.annotBucket, cfg.region, AnnotPrefix + ExpectedAnnotation(Basename(u.srcKey)))
  {
    var fname := Basename(u.srcKey);
    var annotLocal := u.tmp + "/" + ExpectedAnnotation(fname);
    InDirectory(u.tmp, ExpectedAnnotation(fname));
    Item(u.uploadTime, u.uploadTime, false, meta.detected, u.fileSize, AfterLastDot(fname), fname, meta.mediaType,
         S3ObjectUrl(u.srcBucket, cfg.region, u.srcKey),
         S3ObjectUrl(cfg.annotBucket, cfg.region, AnnotPrefix + Basename(annotLocal)),
         S3ObjectUrl(u.srcBucket, cfg.region, ThumbnailKey(u.srcKey)),
         meta.tags.values,
         if media == Video then u.duration else None)
  }

  /** `lambda_handler` for the first record of the S3 event. */
  method Handle(cfg: Config, u: Upload) returns (out: Outcome)
    ensures out.Unsupported? <==> MediaOf(Basename(u.srcKey)).None?
    ensures out.NoModel? <==> MediaOf(Basename(u.srcKey)).Some? && LatestWithSuffix(u.models, ModelSuffix).None?
    ensures out.MissingAnnotation? <==>
              var fname := Basename(u.srcKey);
              MediaOf(fname).Some? && LatestWithSuffix(u.models, ModelSuffix).Some?
              && ExpectedAnnotation(fname) !in TmpFiles(fname, LatestWithSuffix(u.models, ModelSuffix).value,
                                                        WrittenAnnotation(u.tmp, fname, MediaOf(fname).value))
    ensures out.Stored? ==>
              var fname := Basename(u.srcKey);
              var media := MediaOf(fname).value;
              out.item == ItemFor(cfg, u, media, out.meta)
              && (media == Picture ==> out.meta == Tagger.TagImage(u.tmp + "/" + fname, u.boxes, Tagger.ConfidenceThreshold).1)
              && (media == Video ==> out.meta.tags == Tagger.Run(u.frames, Tagger.LockAfter).1
                                     && (out.meta.detected <==> exists i :: 0 <= i < |u.frames| && u.frames[i] != []))
  {
    var fname := Basename(u.srcKey);
    var media := MediaOf(fname);
    if media.None? {
      return Unsupported;
    }
    var localFile := u.tmp + "/" + fname;
    var model := LatestWithSuffix(u.models, ModelSuffix);
    if model.None? {
      return NoModel;
    }
    var written: string;
    var meta: Tagger.Meta;
    if media.value == Picture {
      var tagged := Tagger.TagImage(localFile, u.boxes, Tagger.ConfidenceThreshold);
      written, meta := tagged.0, tagged.1;
    } else {
      written, meta := Tagger.TagVideo(localFile, u.frames, Tagger.LockAfter);
    }
    var annotLocal := ExpectedAnnotation(fname);
    if annotLocal !in TmpFiles(fname, model.value, written) {
      return MissingAnnotation(u.tmp + "/" + annotLocal);
    }
    out := Stored(ItemFor(cfg, u, media.value, meta), meta);
  }

  // ------------------------------------------------------------------ naming

  /** Where `splitext` finds an extension, the handler expects exactly the name the
      tagger writes when the extension's case is kept. */
  lemma ExpectedIsWritten(tmp: string, fname: string, media: Media)
    requires '/' !in fname && SplitExt(fname).1 != ""
    ensures WrittenAnnotation(tmp, fname, media) == ExpectedAnnotation(fname)
  {
    InDirectory(tmp, fname);
    SplitExtAgreesWithRsplit(fname);
  }

  /** For every key the upload-URL Lambda hands out whose extension is a supported
      one, the annotated copy is found. */
  lemma PresignedUploadsFindAnnotation(filename: string, now: nat, random: real, tmp: string, model: S3Object)
    requires 0.0 <= random < 1.0 && '/' !in filename
    requires MediaOf(Basename(Presign.UploadKey(filename, now, random))).Some?
    ensures var fname := Basename(Presign.UploadKey(filename, now, random));
            var written := WrittenAnnotation(tmp, fname, MediaOf(fname).value);
            ExpectedAnnotation(fname) in TmpFiles(fname, model, written)
  {
    var key := Presign.UploadKey(filename, now, random);
    var fname := Basename(key);
    UploadNameHasExtension(filename, now, random);
    ExpectedIsWritten(tmp, fname, MediaOf(fname).value);
  }

  /** The file part of an upload key: the name, time stamp, random number and
      extension, with no slash when the file name has none. */
  lemma UploadKeyFile(filename: string, now: nat, random: real, file: string)
    requires 0.0 <= random < 1.0 && '/' !in filename
    requires file == Presign.FileExtension(filename).0 + "-" + NatToString(now) + "-" + NatToString(Presign.RandomSuffix(random))
    ensures Basename(Presign.UploadKey(filename, now, random)) == file + Presign.FileExtension(filename).1
    ensures '/' !in file + Presign.FileExtension(filename).1
  {
    var (name, extension) := Presign.FileExtension(filename);
    Presign.FileExtensionSplits(filename);
    var ts, rn := NatToString(now), NatToString(Presign.RandomSuffix(random));
    assert Presign.UploadKey(filename, now, random) == "raw_uploads" + "/" + (file + extension);
    assert forall k :: 0 <= k < |ts| ==> ts[k] != '/';
    assert forall k :: 0 <= k < |rn| ==> rn[k] != '/';
    InDirectory("raw_uploads", file + extension);
  }

  /** A supported extension has no dash in it. */
  lemma SupportedHasNoDash(ext: string)
    requires MediaOfExtension(ext).Some?
    ensures '-' !in ext
  {
    var l := Lower(ext);
    assert forall k :: 0 <= k < |ext| && ext[k] == '-' ==> l[k] == '-';
    assert '-' !in l;
  }

  /** The file part of an upload key with a supported extension keeps an extension
      that `splitext` sees. */
  lemma UploadNameHasExtension(filename: string, now: nat, random: real)
    requires 0.0 <= random < 1.0 && '/' !in filename
    requires MediaOf(Basename(Presign.UploadKey(filename, now, random))).Some?
    ensures '/' !in Basename(Presign.UploadKey(filename, now, random))
    ensures SplitExt(Basename(Presign.UploadKey(filename, now, random))).1 != ""
  {
    var (name, extension) := Presign.FileExtension(filename);
    Presign.FileExtensionSplits(filename);
    var rn := NatToString(Presign.RandomSuffix(random));
    var file := name + "-" + NatToString(now) + "-" + rn;
    UploadKeyFile(filename, now, random, file);
    var f := file + extension;
    if extension == "" {
      assert f == file;
      ExtensionlessUpload(name, NatToString(now), rn, filename);
    } else {
      assert file[|file| - 1] == rn[|rn| - 1];
      assert IsDigit(rn[|rn| - 1]);
      DottedUploadSplits(file, extension);
    }
  }

  /** A file part ending in a non-dot, followed by a one-dot extension, keeps that
      extension under `splitext`. */
  lemma DottedUploadSplits(file: string, extension: string)
    requires file != [] && file[|file| - 1] != '.' && '/' !in file + extension
    requires extension != "" && extension[0] == '.' && '.' !in extension[1..]
    ensures SplitExt(file + extension).1 == extension
  {
    var f := file + extension;
    assert f[|file|] == '.' && f[|file| + 1..] == extension[1..];
    LastIndexOfIs(f, '.', |file|);
    assert f[|file| - 1] == file[|file| - 1];
    SplitExtOfName(f, |file| - 1);
    assert f[|file|..] == extension;
  }

  /** Without an extension the upload's file part is not a supported type. */
  lemma ExtensionlessUpload(name: string, ts: string, rn: string, filename: string)
    requires name == filename && '.' !in filename && AllDigits(ts) && AllDigits(rn)
    ensures MediaOf(name + "-" + ts + "-" + rn).None?
  {
    var file := name + "-" + ts + "-" + rn;
    assert forall k :: 0 <= k < |ts| ==> ts[k] != '.';
    assert forall k :: 0 <= k < |rn| ==> rn[k] != '.';
    assert '.' !in file;
    assert AfterLastDot(file) == file;
    assert file[|name|] == '-';
    if MediaOf(file).Some? {
      SupportedHasNoDash(file);
    }
  }

  /** Whenever lower-casing changes the extension, the name `tag_video` writes is not
      the one the handler looks for. */
  lemma LowerCasedVideoNameDiffers(tmp: string, fname: string)
    requires '/' !in fname && SplitExt(fname).1 != ""
    requires Lower(SplitExt(fname).1) != SplitExt(fname).1
    ensures Tagger.VideoOutputNameAsWritten(tmp + "/" + fname) != ExpectedAnnotation(fname)
  {
    InDirectory(tmp, fname);
    SplitExtAgreesWithRsplit(fname);
    var (stem, ext) := SplitExt(fname);
    var head := stem + "_annotated";
    assert Tagger.VideoOutputNameAsWritten(tmp + "/" + fname) == head + Lower(ext);
    assert ExpectedAnnotation(fname) == head + ext;
    assert (head + Lower(ext))[|head|..] == Lower(ext);
    assert (head + ext)[|head|..] == ext;
  }

  /** `clip.MP4` is a video whose extension changes when lower-cased. */
  lemma ClipIsAffectedVideo(fname: string)
    requires fname == "clip.MP4"
    ensures MediaOf(fname) == Some(Video)
    ensures '/' !in fname && SplitExt(fname) == ("clip", ".MP4")
    ensures Lower(SplitExt(fname).1) == ".mp4" != SplitExt(fname).1
  {
    ClipIsVideo(fname);
    ClipExtension(fname);
  }

  lemma ClipIsVideo(fname: string)
    requires fname == "clip.MP4"
    ensures LastIndexOf(fname, '.') == Some(4)
    ensures MediaOf(fname) == Some(Video)
  {
    LastIndexOfIs(fname, '.', 4);
    assert fname[5..] == "MP4";
    assert AfterLastDot(fname) == "MP4";
    var e := AfterLastDot(fname);
    assert Lower(e) == "mp4" by {
      assert Lower(e)[0] == 'm' && Lower(e)[1] == 'p' && Lower(e)[2] == '4';
    }
  }

  lemma ClipExtension(fname: string)
    requires fname == "clip.MP4"
    ensures '/' !in fname && SplitExt(fname) == ("clip", ".MP4")
    ensures Lower(SplitExt(fname).1) == ".mp4"
  {
    LastIndexOfIs(fname, '.', 4);
    SplitExtOfName(fname, 0);
    assert fname[..4] == "clip" && fname[4..] == ".MP4";
    var x := SplitExt(fname).1;
    assert Lower(x) == ".mp4" by {
      assert Lower(x)[0] == '.' && Lower(x)[1] == 'm' && Lower(x)[2] == 'p' && Lower(x)[3] == '4';
    }
  }

  /** The handler's upper-case video extension: `tag_video` lower-cases the
      extension of its output, so a video named `clip.MP4` is written as
      `clip_annotated.mp4` while the handler looks for `clip_annotated.MP4` and
      raises `FileNotFoundError`. */
  lemma UpperCaseVideoExtensionLost(tmp: string, fname: string)
    requires fname == "clip.MP4"
    ensures MediaOf(fname) == Some(Video)
    ensures Tagger.VideoOutputNameAsWritten(tmp + "/" + fname) != ExpectedAnnotation(fname)
    ensures Tagger.VideoOutputName(tmp + "/" + fname) == ExpectedAnnotation(fname)
  {
    ClipIsAffectedVideo(fname);
    LowerCasedVideoNameDiffers(tmp, fname);
    ExpectedIsWritten(tmp, fname, Video);
  }
}
