/** The stream Lambda that announces each newly stored detection to the alert topic,
    once per detected tag. */
module Publisher {
  import opened Wrappers
  import opened Text
  import opened UrlParse
  import opened DynamoStream

  const Subject: string := "\U{1F426} Bird Alert: New Sighting"

  /** One `sns.publish` call. */
  datatype Publication = Publication(message: string, subject: string, tagAttribute: string)

  /** The line for an optional link: present only when the link is non-empty. */
  function LinkLine(caption: string, link: Option<string>): (r: string)
    ensures r == "" <==> link.None? || link.value == ""
    ensures r != "" ==> r == "\nView " + caption + ": " + link.value
  {
    if link.Some? && link.value != "" then "\nView " + caption + ": " + link.value else ""
  }

  const Greeting: string := "\nA new bird sighting has been detected!\n\nSpecies: "
  const Footer: string := "\n\nThank you for using Bird Alert Service."

  /** The fixed part of the message: species, media id and time. */
  function Heading(tag: string, mediaId: string, uploadTime: string): string {
    Greeting + tag + "\nMedia ID: " + mediaId + "\nTime: " + uploadTime + "\n"
  }

  /** `publish_to_sns`: the message names the species, the media id and the time, then
      the links that exist, then the closing line; the `tag` attribute is the tag
      lower-cased. */
  function Publish(tag: string, mediaId: string, uploadTime: string,
                   annotated: Option<string>, raw: Option<string>): (p: Publication)
    ensures p.tagAttribute == Lower(tag) && p.subject == Subject
    ensures p.message == Heading(tag, mediaId, uploadTime) + LinkLine("Annotated Image", annotated)
                         + LinkLine("Raw Image", raw) + Footer
  {
    var message := Heading(tag, mediaId, uploadTime) + LinkLine("Annotated Image", annotated) + LinkLine("Raw Image", raw) + Footer;
    Publication(message, Subject, Lower(tag))
  }

  /** Every message opens with the greeting and the species in its original case, and
      ends with the closing line. */
  lemma PublishOpensAndCloses(tag: string, mediaId: string, uploadTime: string,
                              annotated: Option<string>, raw: Option<string>)
    ensures StartsWith(Publish(tag, mediaId, uploadTime, annotated, raw).message, Greeting + tag + "\n")
    ensures EndsWith(Publish(tag, mediaId, uploadTime, annotated, raw).message, Footer)
  {
    var opening := Greeting + tag + "\n";
    var tail := "Media ID: " + mediaId + "\nTime: " + uploadTime + "\n";
    assert Heading(tag, mediaId, uploadTime) == opening + tail;
    FourParts(opening + tail, LinkLine("Annotated Image", annotated), LinkLine("Raw Image", raw), Footer);
    FourParts(opening, tail, LinkLine("Annotated Image", annotated) + LinkLine("Raw Image", raw), Footer);
  }

  /** Where each of four concatenated texts sits in the whole. */
  lemma FourParts(h: string, a: string, b: string, f: string)
    ensures var m := h + a + b + f;
            && m[..|h|] == h && m[|h|..|h| + |a|] == a
            && m[|h| + |a|..|m| - |f|] == b && m[|m| - |f|..] == f
            && h + a + b + f == h + (a + b + f)
  {
  }

  /** The presigned link for a stored URL: only when the URL is non-empty and both its
      bucket and key are. `presign` is `generate_presigned_url`, `None` on failure. */
  function LinkFor(presign: (string, string) -> Option<string>, url: string): (r: Option<string>)
    ensures r.Some? ==>
              url != "" && BucketAndKey(url).Some? && r == presign(BucketAndKey(url).value.0, BucketAndKey(url).value.1)
              && BucketAndKey(url).value.0 != "" && BucketAndKey(url).value.1 != ""
    ensures url != "" && BucketAndKey(url).Some? && BucketAndKey(url).value.0 != "" && BucketAndKey(url).value.1 != "" ==>
              r == presign(BucketAndKey(url).value.0, BucketAndKey(url).value.1)
  {
    if url == "" then None
    else match BucketAndKey(url)
      case None => None
      case Some((bucket, key)) => if bucket != "" && key != "" then presign(bucket, key) else None
  }

  /** The tags of a new image: the entries of its `tags` map, in order. */
  function TagEntries(image: Image): seq<(string, Attr)> {
    if "tags" in image && image["tags"].M? then image["tags"].entries else []
  }

  /** The publications for one record: nothing unless it is an insert with tags. */
  function RecordPublications(presign: (string, string) -> Option<string>, record: Record): (r: seq<Publication>)
  {
    if record.eventName != "INSERT" then []
    else
      var image := record.newImage;
      var tagNames := Names(TagEntries(image));
      var annotated := LinkFor(presign, StringOr(image, "annotatedURL"));
      var raw := LinkFor(presign, StringOr(image, "originalURL"));
      seq(|tagNames|, k requires 0 <= k < |tagNames| =>
        Publish(tagNames[k], StringOr(image, "mediaID"), StringOr(image, "uploadTime"), annotated, raw))
  }

  function AllPublications(presign: (string, string) -> Option<string>, records: seq<Record>): seq<Publication> {
    if records == [] then []
    else AllPublications(presign, records[..|records| - 1]) + RecordPublications(presign, records[|records| - 1])
  }

  /** The publications of one record, built tag by tag. */
  method PublishRecord(presign: (string, string) -> Option<string>, record: Record) returns (pubs: seq<Publication>)
    ensures pubs == RecordPublications(presign, record)
  {
    pubs := [];
    if record.eventName == "INSERT" {
      var image := record.newImage;
      var mediaId := StringOr(image, "mediaID");
      var uploadTime := StringOr(image, "uploadTime");
      var tagNames := Names(TagEntries(image));
      var annotated := LinkFor(presign, StringOr(image, "annotatedURL"));
      var raw := LinkFor(presign, StringOr(image, "originalURL"));
      ghost var all := RecordPublications(presign, record);
      for k := 0 to |tagNames|
        invariant |all| == |tagNames| && pubs == all[..k]
      {
        assert all[k] == Publish(tagNames[k], mediaId, uploadTime, annotated, raw);
        assert all[..k + 1] == all[..k] + [all[k]];
        pubs := pubs + [Publish(tagNames[k], mediaId, uploadTime, annotated, raw)];
      }
      assert all[..|tagNames|] == all;
    }
  }

  /** `lambda_handler`: the records in order, and within an insert its tags in order. */
  method HandleRecords(presign: (string, string) -> Option<string>, records: seq<Record>) returns (sent: seq<Publication>)
    ensures sent == AllPublications(presign, records)
  {
    sent := [];
    for i := 0 to |records|
      invariant sent == AllPublications(presign, records[..i])
    {
      assert records[..i + 1][..i] == records[..i];
      var pubs := PublishRecord(presign, records[i]);
      sent := sent + pubs;
    }
    assert records[..|records|] == records;
  }

  /** One publication per tag of an inserted record, in the map's order, each carrying
      that tag lower-cased; other events publish nothing. */
  lemma OnePublicationPerTag(presign: (string, string) -> Option<string>, record: Record)
    ensures record.eventName != "INSERT" ==> RecordPublications(presign, record) == []
    ensures record.eventName == "INSERT" ==>
              var entries := TagEntries(record.newImage);
              |RecordPublications(presign, record)| == |entries|
              && forall k :: 0 <= k < |entries| ==>
                   RecordPublications(presign, record)[k].tagAttribute == Lower(entries[k].0)
  {
  }

  lemma ContainsSecond(a: string, b: string, c: string, d: string)
    ensures Contains(a + b + c + d, b)
  {
    ContainsAt(b, b, 0);
    ContainsInSuffix(a, b, b);
    ContainsInPrefix(a + b, c, b);
    ContainsInPrefix(a + b + c, d, b);
  }

  /** The annotated-image line appears when the stored annotated URL yields a non-empty
      presigned link. */
  lemma AnnotatedLinkLine(tag: string, mediaId: string, uploadTime: string, link: string, raw: Option<string>)
    requires link != ""
    ensures LinkLine("Annotated Image", Some(link)) != ""
    ensures Contains(Publish(tag, mediaId, uploadTime, Some(link), raw).message, LinkLine("Annotated Image", Some(link)))
  {
    ContainsSecond(Heading(tag, mediaId, uploadTime), LinkLine("Annotated Image", Some(link)), LinkLine("Raw Image", raw), Footer);
  }

  /** The raw-image line follows the annotated one and precedes the footer, and
      neither line is written for a missing or empty link. */
  lemma LinkLinesInOrder(tag: string, mediaId: string, uploadTime: string, annotated: Option<string>, raw: Option<string>)
    ensures var m := Publish(tag, mediaId, uploadTime, annotated, raw).message;
            var head := Heading(tag, mediaId, uploadTime);
            && m[..|head|] == head
            && m[|head|..|head| + |LinkLine("Annotated Image", annotated)|] == LinkLine("Annotated Image", annotated)
            && m[|head| + |LinkLine("Annotated Image", annotated)|..|m| - |Footer|] == LinkLine("Raw Image", raw)
            && (annotated.None? || annotated.value == "" ==> m == head + LinkLine("Raw Image", raw) + Footer)
            && (raw.None? || raw.value == "" ==> m == head + LinkLine("Annotated Image", annotated) + Footer)
  {
    var head := Heading(tag, mediaId, uploadTime);
    var a := LinkLine("Annotated Image", annotated);
    var b := LinkLine("Raw Image", raw);
    FourParts(head, a, b, Footer);
    if a == "" {
      assert head + a == head;
    }
    if b == "" {
      assert head + a + b == head + a;
    }
  }
}
