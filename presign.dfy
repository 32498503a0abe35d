/** The upload-URL Lambda: it names the object a browser upload will create under
    `raw_uploads/` and returns a presigned POST form for it. */
module Presign {
  import opened Wrappers
  import opened Text

  const UploadBucket: string := "birdtag-bucket154"
  const UploadFolder: string := "raw_uploads"
  const ExpirationSeconds: nat := 300
  /** The largest upload the form accepts: 100 MB. */
  const MaxContentLength: nat := 104857600

  /** `getFileExtension`: the file name split at its last dot into the part before it
      and the dot with what follows; a name without a dot has no extension. */
  function FileExtension(filename: string): (r: (string, string))
  {
    var parts := Split(filename, '.');
    if |parts| < 2 then (filename, "")
    else (Join(parts[..|parts| - 1], '.'), "." + parts[|parts| - 1])
  }

  /** The two parts put back together are the file name, and the extension is empty or
      a dot followed by text without dots. */
  lemma FileExtensionSplits(filename: string)
    ensures var (name, extension) := FileExtension(filename);
            name + extension == filename
            && (extension == "" <==> '.' !in filename)
            && (extension != "" ==> extension[0] == '.' && '.' !in extension[1..])
  {
    var parts := Split(filename, '.');
    SplitSingle(filename, '.');
    if |parts| >= 2 {
      var init := parts[..|parts| - 1];
      var last := parts[|parts| - 1];
      assert '.' !in last;
      assert parts == init + [last];
      JoinSplit(filename, '.');
      JoinSnoc(init, last, '.');
      assert filename == Join(init, '.') + "." + last;
      assert FileExtension(filename) == (Join(init, '.'), "." + last);
      assert ("." + last)[1..] == last;
      assert filename[|Join(init, '.')|] == '.';
    }
  }

  /** The extension is the text after the last dot of the file name. */
  lemma FileExtensionIsLastDot(filename: string)
    requires '.' in filename
    ensures FileExtension(filename).1 == filename[LastIndexOf(filename, '.').value..]
  {
    FileExtensionSplits(filename);
    var (name, extension) := FileExtension(filename);
    var i := LastIndexOf(filename, '.').value;
    var j := |name|;
    assert filename[j] == '.' by { assert filename[j] == extension[0]; }
    assert i <= j by {
      assert forall k :: j < k < |filename| ==> filename[k] == extension[1..][k - j - 1];
    }
    assert j <= i by {
      assert forall k :: i < k < |filename| ==> filename[k] == filename[i + 1..][k - i - 1];
    }
  }

  /** The object key: folder, name, time stamp and random number, then the extension.
      `now` is `Date.now()`; `random` is `Math.random()`. */
  function UploadKey(filename: string, now: nat, random: real): (key: string)
    requires 0.0 <= random < 1.0
  {
    var (name, extension) := FileExtension(filename);
    UploadFolder + "/" + name + "-" + NatToString(now) + "-" + NatToString(RandomSuffix(random)) + extension
  }

  /** `Math.floor(Math.random() * 1000000)` */
  function RandomSuffix(random: real): (n: nat)
    requires 0.0 <= random < 1.0
    ensures n < 1000000
  {
    (random * 1000000.0).Floor
  }

  /** The form `createPresignedPost` is asked for. */
  datatype PostPolicy = PostPolicy(
    bucket: string, key: string, expires: nat,
    minLength: nat, maxLength: nat, fields: map<string, string>)

  datatype PresignReply =
    | Form(policy: PostPolicy)
    | BadRequest(error: string)
    | ServerError(error: string)

  /** The handler. `signs` says whether the presigning call succeeded. */
  function Handler(query: Option<map<string, string>>, now: nat, random: real, signs: bool): (r: PresignReply)
    requires 0.0 <= random < 1.0
    ensures r.BadRequest? <==> query.None? || "filename" !in query.value || query.value["filename"] == ""
    ensures r.BadRequest? ==> r.error == "Filename is required"
    ensures r.ServerError? <==> !r.BadRequest? && !signs
    ensures r.Form? ==>
              var filename := query.value["filename"];
              var key := UploadKey(filename, now, random);
              r.policy == PostPolicy(UploadBucket, key, ExpirationSeconds, 0, MaxContentLength, map["key" := key])
  {
    var params := query.GetOr(map[]);
    if "filename" !in params || params["filename"] == "" then BadRequest("Filename is required")
    else if !signs then ServerError("Internal server error")
    else
      var key := UploadKey(params["filename"], now, random);
      Form(PostPolicy(UploadBucket, key, ExpirationSeconds, 0, MaxContentLength, map["key" := key]))
  }

  /** The key lies in the upload folder and keeps the file's extension: when the name
      has a dot, the text after the key's last dot is the text after the name's last dot;
      when it has none, neither has the key's file part. */
  lemma UploadKeyKeepsExtension(filename: string, now: nat, random: real)
    requires 0.0 <= random < 1.0
    ensures StartsWith(UploadKey(filename, now, random), "raw_uploads/")
    ensures EndsWith(UploadKey(filename, now, random), FileExtension(filename).1)
    ensures '.' !in filename ==> '.' !in UploadKey(filename, now, random)
  {
    FileExtensionSplits(filename);
    var (name, extension) := FileExtension(filename);
    var key := UploadKey(filename, now, random);
    var ts := NatToString(now);
    var rn := NatToString(RandomSuffix(random));
    var head := "raw_uploads/" + name + "-";
    UploadKeyShape(filename, now, random);
    assert key == head + (ts + "-" + rn) + extension;
    assert key[..|"raw_uploads/"|] == "raw_uploads/";
    assert key[|key| - |extension|..] == extension;
    if '.' !in filename {
      assert name == filename && extension == "";
      assert forall k :: 0 <= k < |ts| ==> ts[k] != '.';
      assert forall k :: 0 <= k < |rn| ==> rn[k] != '.';
      NoDotConcat("raw_uploads/", name);
      NoDotConcat("raw_uploads/" + name, "-");
      NoDotConcat(ts, "-");
      NoDotConcat(ts + "-", rn);
      NoDotConcat(head, ts + "-" + rn);
      assert key == head + (ts + "-" + rn);
    }
  }

  lemma NoDotConcat(a: string, b: string)
    requires '.' !in a && '.' !in b
    ensures '.' !in a + b
  {
  }

  lemma DigitsDashSplit(a: string, b: string, c: string, d: string)
    requires AllDigits(a) && AllDigits(c)
    requires a + "-" + b == c + "-" + d
    ensures a == c && b == d
  {
    assert |a| == |c| by {
      assert forall k :: 0 <= k < |a| ==> (a + "-" + b)[k] == a[k];
      assert forall k :: 0 <= k < |c| ==> (c + "-" + d)[k] == c[k];
      assert (a + "-" + b)[|a|] == '-' && (c + "-" + d)[|c|] == '-';
    }
    assert a == (a + "-" + b)[..|a|];
    assert c == (c + "-" + d)[..|c|];
    assert b == (a + "-" + b)[|a| + 1..];
    assert d == (c + "-" + d)[|c| + 1..];
  }

  lemma UploadKeyShape(filename: string, now: nat, random: real)
    requires 0.0 <= random < 1.0
    ensures UploadKey(filename, now, random) ==
              ("raw_uploads/" + FileExtension(filename).0 + "-")
              + (NatToString(now) + "-" + (NatToString(RandomSuffix(random)) + FileExtension(filename).1))
  {
  }

  /** Two uploads of the same file get different keys unless they happen in the same
      millisecond and draw the same random number. */
  lemma UploadKeysDiffer(filename: string, now1: nat, r1: real, now2: nat, r2: real)
    requires 0.0 <= r1 < 1.0 && 0.0 <= r2 < 1.0
    requires UploadKey(filename, now1, r1) == UploadKey(filename, now2, r2)
    ensures now1 == now2 && RandomSuffix(r1) == RandomSuffix(r2)
  {
    var (name, extension) := FileExtension(filename);
    var prefix := "raw_uploads/" + name + "-";
    var t1, t2 := NatToString(now1), NatToString(now2);
    var n1, n2 := NatToString(RandomSuffix(r1)), NatToString(RandomSuffix(r2));
    var k1 := UploadKey(filename, now1, r1);
    UploadKeyShape(filename, now1, r1);
    UploadKeyShape(filename, now2, r2);
    assert t1 + "-" + (n1 + extension) == k1[|prefix|..];
    DigitsDashSplit(t1, n1 + extension, t2, n2 + extension);
    assert n1 == (n1 + extension)[..|n1 + extension| - |extension|];
    assert n2 == (n2 + extension)[..|n2 + extension| - |extension|];
    NatToStringInjective(now1, now2);
    NatToStringInjective(RandomSuffix(r1), RandomSuffix(r2));
  }
}
