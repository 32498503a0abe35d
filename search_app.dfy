/** The search page of the browser client (frontend/src/BirdSearchApp.jsx): how each
    mode turns what the user typed into one request, how a reply becomes the result
    list, how links are sorted into audio/image/other, and the editor of tag-count
    rows. The network call itself is not modelled: a request is the value that would
    be sent, a reply is given. */
module SearchApp {
  import opened Wrappers
  import opened Text
  import opened Json

  // ================================================================ numbers typed by the user

  /** A JavaScript number as `Number(text)` yields it. */
  datatype JsNumber = Num(value: int) | NaN

  /** `Number(text)` over a restricted grammar: blank text is 0, an optional sign
      followed by decimal digits is that integer, anything else is NaN. */
  function JsNumberOf(text: string): JsNumber {
    var t := JsTrim(text);
    if t == "" then Num(0)
    else match ParseSigned(t)
      case Some(v) => Num(v)
      case None => NaN
  }

  /** `Number` reads back `String` of an integer, and ignores surrounding blanks. */
  lemma {:induction false} JsNumberOfIntToString(i: int)
    ensures JsNumberOf(IntToString(i)) == Num(i)
  {
    IntToStringEnds(i);
    StripUnchanged(IntToString(i), IsJsSpace);
    ParseSignedIntToString(i);
  }

  // ================================================================ requests

  datatype HttpMethod = Get | Post

  datatype RequestBody = NoBody | JsonBody(json: Json) | FileForm(file: string)

  /** A request to the backend below the API base URL: method, path, the query
      parameters before URL-encoding, and the body. Every request carries the
      bearer token; it is not part of this value. */
  datatype Request = Request(verb: HttpMethod, path: string, query: seq<(string, string)>, body: RequestBody)

  datatype TagLineFault = MissingComma | BadTagOrCount

  /** Why a mode sent nothing. */
  datatype Rejection =
    | InvalidJson
    | NoTags
    | NotAuthenticated
    | NoTagCountPairs
    | NoThumbnailUrl
    | NoModifyUrls
    | BadOperation
    | BadTagLine(line: string, fault: TagLineFault)
    | NoDeleteUrl
    | NoUploadFile

  /** The alert shown for each rejection. */
  function AlertText(r: Rejection): string {
    match r
    case InvalidJson => "Invalid JSON"
    case NoTags => "Enter at least one tag"
    case NotAuthenticated => "Not authenticated"
    case NoTagCountPairs => "Enter at least one tag with a positive count"
    case NoThumbnailUrl => "Enter a thumbnail URL"
    case NoModifyUrls => "Enter at least one URL"
    case BadOperation => "Operation must be 0 or 1"
    case BadTagLine(line, MissingComma) =>
      "Tag entry \"" + line + "\" is invalid, must be 'tag,count' format"
    case BadTagLine(line, BadTagOrCount) =>
      "Tag entry \"" + line + "\" is invalid, tag must be non-empty and count a number"
    case NoDeleteUrl => "Enter at least one URL to delete"
    case NoUploadFile => "Please select a file to upload."
  }

  // ---------------------------------------------------------------- POST /search

  /** `parseJSON(postData)` is given as `parsed` (`None` when the text is not JSON);
      a falsy value is rejected like unparsable text, anything else is posted. */
  function BuildPostSearch(parsed: Option<Json>): (r: Result<Request, Rejection>)
    ensures r.Failure? <==> parsed.None? || !JsTruthy(parsed.value)
    ensures r.Failure? ==> r.error == InvalidJson
    ensures r.Success? ==> r.value == Request(Post, "/search", [], JsonBody(parsed.value))
  {
    if parsed.None? || !JsTruthy(parsed.value) then Failure(InvalidJson)
    else Success(Request(Post, "/search", [], JsonBody(parsed.value)))
  }

  // ---------------------------------------------------------------- GET /search?tag=

  predicate HasToken(token: Option<string>) { token.Some? && token.value != "" }

  /** Only text that is blank as a whole is rejected; the trimmed text is sent. */
  function BuildTagsOnly(tags: string, token: Option<string>): (r: Result<Request, Rejection>)
    ensures JsTrim(tags) == "" ==> r == Failure(NoTags)
    ensures JsTrim(tags) != "" && !HasToken(token) ==> r == Failure(NotAuthenticated)
    ensures r.Success? <==> JsTrim(tags) != "" && HasToken(token)
    ensures r.Success? ==> r.value == Request(Get, "/search", [("tag", JsTrim(tags))], NoBody)
  {
    if JsTrim(tags) == "" then Failure(NoTags)
    else if !HasToken(token) then Failure(NotAuthenticated)
    else Success(Request(Get, "/search", [("tag", JsTrim(tags))], NoBody))
  }

  /** A list with no tag in it, such as `" , "`, is still sent. */
  lemma TagsOnlySendsCommaList()
    ensures BuildTagsOnly(" , ", Some("token")) == Success(Request(Get, "/search", [("tag", ",")], NoBody))
  {
    assert JsTrim(" , ") == ",";
  }

  // ---------------------------------------------------------------- GET /search?tag1=&count1=

  /** One row of the tag-count editor. */
  datatype TagCountPair = TagCountPair(tag: string, count: JsNumber)

  const DefaultPair := TagCountPair("", Num(1))

  /** `p.tag.trim() && p.count > 0` */
  predicate KeepPair(p: TagCountPair) {
    JsTrim(p.tag) != "" && p.count.Num? && p.count.value > 0
  }

  function FilterPairs(pairs: seq<TagCountPair>): (r: seq<TagCountPair>)
    ensures |r| <= |pairs|
    ensures forall k :: 0 <= k < |r| ==> KeepPair(r[k])
  {
    if pairs == [] then []
    else
      var rest := FilterPairs(pairs[..|pairs| - 1]);
      var last := pairs[|pairs| - 1];
      if KeepPair(last) then rest + [last] else rest
  }

  /** A row is sent exactly when it is in the editor and passes the filter. */
  lemma {:induction false} FilterPairsMembers(pairs: seq<TagCountPair>, p: TagCountPair)
    ensures p in FilterPairs(pairs) <==> p in pairs && KeepPair(p)
    decreases |pairs|
  {
    if pairs != [] {
      var init := pairs[..|pairs| - 1];
      FilterPairsMembers(init, p);
      assert pairs == init + [pairs[|pairs| - 1]];
    }
  }

  /** Filtering keeps the input order: it distributes over concatenation. */
  lemma {:induction false} FilterPairsConcat(a: seq<TagCountPair>, b: seq<TagCountPair>)
    ensures FilterPairs(a + b) == FilterPairs(a) + FilterPairs(b)
    decreases |b|
  {
    if b != [] {
      var b' := b[..|b| - 1];
      assert (a + b)[..|a + b| - 1] == a + b';
      FilterPairsConcat(a, b');
    } else {
      assert a + b == a;
    }
  }

  function TagKey(i: nat): string { "tag" + IntToString(i) }
  function CountKey(i: nat): string { "count" + IntToString(i) }

  /** `count.toString()` */
  function JsNumberText(n: JsNumber): string {
    match n
    case Num(v) => IntToString(v)
    case NaN => "NaN"
  }

  /** The two parameters sent for the `i`-th kept pair (counting from 1). */
  function PairParams(i: nat, p: TagCountPair): seq<(string, string)> {
    [(TagKey(i), JsTrim(p.tag)), (CountKey(i), JsNumberText(p.count))]
  }

  /** The parameters appended for the kept pairs, `tag{i}` then `count{i}` for i = 1..n. */
  function TagCountParams(kept: seq<TagCountPair>): seq<(string, string)> {
    if kept == [] then []
    else TagCountParams(kept[..|kept| - 1]) + PairParams(|kept|, kept[|kept| - 1])
  }

  lemma {:induction false} TagCountParamsLength(kept: seq<TagCountPair>)
    ensures |TagCountParams(kept)| == 2 * |kept|
    decreases |kept|
  {
    if kept != [] {
      TagCountParamsLength(kept[..|kept| - 1]);
    }
  }

  /** Positions `2i` and `2i+1` hold `tag{i+1}` and `count{i+1}` of the `i`-th kept pair. */
  lemma {:induction false} TagCountParamsAt(kept: seq<TagCountPair>, i: nat)
    requires i < |kept|
    ensures |TagCountParams(kept)| == 2 * |kept|
    ensures TagCountParams(kept)[2 * i] == (TagKey(i + 1), JsTrim(kept[i].tag))
    ensures TagCountParams(kept)[2 * i + 1] == (CountKey(i + 1), JsNumberText(kept[i].count))
    decreases |kept|
  {
    var init := kept[..|kept| - 1];
    TagCountParamsLength(init);
    TagCountParamsLength(kept);
    if i < |kept| - 1 {
      TagCountParamsAt(init, i);
      assert init[i] == kept[i];
    }
  }

  /** Keeps the rows with a non-blank tag and a positive count, in order, and sends
      `tag{i}`/`count{i}` for them; sends nothing when no row is kept. */
  method BuildTagCounts(pairs: seq<TagCountPair>) returns (r: Result<Request, Rejection>)
    ensures FilterPairs(pairs) == [] <==> r == Failure(NoTagCountPairs)
    ensures r.Success? ==> r.value == Request(Get, "/search", TagCountParams(FilterPairs(pairs)), NoBody)
  {
    var kept := FilterPairs(pairs);
    if |kept| == 0 {
      return Failure(NoTagCountPairs);
    }
    var params := AppendTagCountParams(kept);
    r := Success(Request(Get, "/search", params, NoBody));
  }

  /** The loop appending `tag{i}` and `count{i}` for each kept row. */
  method AppendTagCountParams(kept: seq<TagCountPair>) returns (params: seq<(string, string)>)
    ensures params == TagCountParams(kept)
  {
    params := [];
    var i := 0;
    while i < |kept|
      invariant 0 <= i <= |kept|
      invariant params == TagCountParams(kept[..i])
    {
      var p := kept[i];
      assert kept[..i + 1][..i] == kept[..i];
      params := params + [(TagKey(i + 1), JsTrim(p.tag))];
      params := params + [(CountKey(i + 1), JsNumberText(p.count))];
      i := i + 1;
    }
    assert kept[..i] == kept;
  }

  /** Every kept count is a positive integer, so no `NaN` is ever sent. */
  lemma {:induction false} SentCountsArePositive(pairs: seq<TagCountPair>, i: nat)
    requires i < |FilterPairs(pairs)|
    ensures var p := FilterPairs(pairs)[i];
            p.count.Num? && p.count.value > 0 && |TagCountParams(FilterPairs(pairs))| == 2 * |FilterPairs(pairs)|
            && TagCountParams(FilterPairs(pairs))[2 * i + 1] == (CountKey(i + 1), IntToString(p.count.value))
  {
    TagCountParamsAt(FilterPairs(pairs), i);
  }

  // ---------------------------------------------------------------- GET /search?thumbnailURL=

  /** Only the empty string is rejected (the URL is neither trimmed nor checked). */
  function BuildThumbnailSearch(url: string): (r: Result<Request, Rejection>)
    ensures r.Failure? <==> url == ""
    ensures r.Failure? ==> r.error == NoThumbnailUrl
    ensures r.Success? ==> r.value == Request(Get, "/search", [("thumbnailURL", url)], NoBody)
  {
    if url == "" then Failure(NoThumbnailUrl)
    else Success(Request(Get, "/search", [("thumbnailURL", url)], NoBody))
  }

  // ---------------------------------------------------------------- POST /modify-tags

  function TrimAll(pieces: seq<string>): (r: seq<string>)
    ensures |r| == |pieces|
    ensures forall k :: 0 <= k < |r| ==> r[k] == JsTrim(pieces[k])
  {
    if pieces == [] then [] else [JsTrim(pieces[0])] + TrimAll(pieces[1..])
  }

  function DropEmpty(pieces: seq<string>): (r: seq<string>)
    ensures forall k :: 0 <= k < |r| ==> r[k] != "" && r[k] in pieces
    ensures forall x :: x in pieces && x != "" ==> x in r
  {
    if pieces == [] then []
    else if pieces[0] == "" then DropEmpty(pieces[1..])
    else [pieces[0]] + DropEmpty(pieces[1..])
  }

  /** `text.split("\n").map(trim).filter(Boolean)`: the trimmed lines of the text that
      are not blank, in order. */
  function NonBlankLines(text: string): (r: seq<string>)
    ensures forall k :: 0 <= k < |r| ==> r[k] != "" && r[k] in TrimAll(Split(text, '\n'))
  {
    DropEmpty(TrimAll(Split(text, '\n')))
  }

  /** One `tag,count` line: it must contain a comma; the text before the first comma is
      the tag and must not be blank; the text between the first and second comma must
      be a number (empty text counts as 0). Text after a second comma is ignored. */
  function ParseTagLine(line: string): (r: Result<string, TagLineFault>)
    ensures ',' !in line <==> r == Failure(MissingComma)
  {
    if ',' !in line then Failure(MissingComma)
    else
      SplitSingle(line, ',');
      var parts := Split(line, ',');
      var tag := parts[0];
      var count := JsNumberOf(parts[1]);
      if JsTrim(tag) == "" || count.NaN? then Failure(BadTagOrCount)
      else Success(JsTrim(tag) + "," + IntToString(count.value))
  }

  /** The pieces `Split` gives back from a line written as `tag,count` followed by
      nothing or by a comma and anything. */
  lemma SplitTagLine(tag: string, count: string, rest: string)
    requires ',' !in tag && ',' !in count && (rest == "" || rest[0] == ',')
    ensures var parts := Split(tag + "," + count + rest, ',');
            |parts| >= 2 && parts[0] == tag && parts[1] == count
  {
    var line := tag + "," + count + rest;
    var after := count + rest;
    assert line == tag + [','] + after;
    SplitAfterFirst(tag, after);
    SplitCountRest(count, rest);
  }

  /** Splitting `tag,after` where the tag has no comma. */
  lemma SplitAfterFirst(tag: string, after: string)
    requires ',' !in tag
    ensures Split(tag + [','] + after, ',') == [tag] + Split(after, ',')
  {
    var line := tag + [','] + after;
    assert line[|tag|] == ',';
    assert line[..|tag|] == tag;
    assert line[|tag| + 1..] == after;
    SplitAt(line, ',', |tag|);
  }

  /** The first piece of `count` followed by nothing or by a comma and more is `count`. */
  lemma SplitCountRest(count: string, rest: string)
    requires ',' !in count && (rest == "" || rest[0] == ',')
    ensures Split(count + rest, ',')[0] == count
  {
    if rest == "" {
      assert count + rest == count;
      SplitSingle(count, ',');
    } else {
      var after := count + rest;
      assert after[|count|] == ',';
      assert after[..|count|] == count;
      SplitAt(after, ',', |count|);
    }
  }

  /** A line is accepted exactly when its tag is not blank and its count is a number;
      the tag is sent trimmed and the count in its decimal form. */
  lemma ParseTagLineAccepts(tag: string, count: string, rest: string)
    requires ',' !in tag && ',' !in count && (rest == "" || rest[0] == ',')
    ensures ParseTagLine(tag + "," + count + rest).Success?
            <==> JsTrim(tag) != "" && JsNumberOf(count).Num?
    ensures JsTrim(tag) != "" && JsNumberOf(count).Num? ==>
            ParseTagLine(tag + "," + count + rest) == Success(JsTrim(tag) + "," + IntToString(JsNumberOf(count).value))
    ensures !(JsTrim(tag) != "" && JsNumberOf(count).Num?) ==>
            ParseTagLine(tag + "," + count + rest) == Failure(BadTagOrCount)
  {
    var line := tag + "," + count + rest;
    assert line[|tag|] == ',';
    SplitTagLine(tag, count, rest);
  }

  /** The lines are mapped in order and the first bad line aborts the whole batch. */
  function ParseTagLines(lines: seq<string>): Result<seq<string>, (string, TagLineFault)> {
    if lines == [] then Success([])
    else match ParseTagLine(lines[0])
      case Failure(f) => Failure((lines[0], f))
      case Success(t) =>
        match ParseTagLines(lines[1..])
        case Failure(e) => Failure(e)
        case Success(rest) => Success([t] + rest)
  }

  /** An accepted batch is the lines converted one by one. */
  lemma {:induction false} ParseTagLinesSuccess(lines: seq<string>)
    requires ParseTagLines(lines).Success?
    ensures |ParseTagLines(lines).value| == |lines|
    ensures forall k :: 0 <= k < |lines| ==> ParseTagLine(lines[k]) == Success(ParseTagLines(lines).value[k])
    decreases |lines|
  {
    if lines != [] {
      var v := ParseTagLines(lines).value;
      ParseTagLinesCons(lines);
      ParseTagLinesSuccess(lines[1..]);
      forall k | 1 <= k < |lines|
        ensures ParseTagLine(lines[k]) == Success(v[k])
      {
        assert lines[k] == lines[1..][k - 1];
        assert v[k] == ParseTagLines(lines[1..]).value[k - 1];
      }
    }
  }

  lemma ParseTagLinesCons(lines: seq<string>)
    requires lines != [] && ParseTagLines(lines).Success?
    ensures ParseTagLine(lines[0]).Success? && ParseTagLines(lines[1..]).Success?
    ensures ParseTagLines(lines).value == [ParseTagLine(lines[0]).value] + ParseTagLines(lines[1..]).value
  {
  }

  /** A rejected batch reports its first bad line and that line's fault. */
  lemma {:induction false} ParseTagLinesFailure(lines: seq<string>)
    requires ParseTagLines(lines).Failure?
    ensures exists k :: 0 <= k < |lines| && lines[k] == ParseTagLines(lines).error.0
              && ParseTagLine(lines[k]) == Failure(ParseTagLines(lines).error.1)
              && (forall j :: 0 <= j < k ==> ParseTagLine(lines[j]).Success?)
    decreases |lines|
  {
    if ParseTagLine(lines[0]).Success? {
      ParseTagLinesFailure(lines[1..]);
      var e := ParseTagLines(lines).error;
      var k :| 0 <= k < |lines[1..]| && lines[1..][k] == e.0 && ParseTagLine(lines[1..][k]) == Failure(e.1)
               && (forall j :: 0 <= j < k ==> ParseTagLine(lines[1..][j]).Success?);
      assert lines[k + 1] == e.0;
      assert forall j :: 1 <= j < k + 1 ==> lines[j] == lines[1..][j - 1];
    }
  }

  /** Every line of a batch is accepted, or no request is sent. */
  lemma {:induction false} ParseTagLinesAllOrNothing(lines: seq<string>, k: nat)
    requires k < |lines| && ParseTagLine(lines[k]).Failure?
    ensures ParseTagLines(lines).Failure?
    decreases |lines|
  {
    ParseTagLinesStep(lines);
    if k > 0 && ParseTagLine(lines[0]).Success? {
      assert lines[1..][k - 1] == lines[k];
      ParseTagLinesAllOrNothing(lines[1..], k - 1);
    }
  }

  lemma ParseTagLinesStep(lines: seq<string>)
    requires lines != []
    ensures ParseTagLines(lines).Failure? <==> ParseTagLine(lines[0]).Failure? || ParseTagLines(lines[1..]).Failure?
  {
  }

  function UrlList(urls: seq<string>): Json {
    JArr(seq(|urls|, i requires 0 <= i < |urls| => JStr(urls[i])))
  }

  function ModifyTagsBody(urls: seq<string>, operation: int, tags: seq<string>): Json {
    JObj(map["url" := UrlList(urls), "operation" := JNum(operation), "tags" := UrlList(tags)])
  }

  /** The URL list must not be empty, the operation must be "0" or "1", and every tag
      line must be well formed; each check stops the request before the next one. */
  function BuildModifyTags(urlsText: string, operation: string, tagsText: string): (r: Result<Request, Rejection>)
    ensures NonBlankLines(urlsText) == [] ==> r == Failure(NoModifyUrls)
    ensures NonBlankLines(urlsText) != [] && operation != "0" && operation != "1" ==> r == Failure(BadOperation)
    ensures r.Failure? && r.error.BadTagLine? ==> ParseTagLines(NonBlankLines(tagsText)) == Failure((r.error.line, r.error.fault))
    ensures r.Success? <==> NonBlankLines(urlsText) != [] && (operation == "0" || operation == "1")
                            && ParseTagLines(NonBlankLines(tagsText)).Success?
    ensures r.Success? ==> r.value == Request(Post, "/modify-tags", [],
      JsonBody(ModifyTagsBody(NonBlankLines(urlsText), if operation == "1" then 1 else 0,
                              ParseTagLines(NonBlankLines(tagsText)).value)))
  {
    var urls := NonBlankLines(urlsText);
    if urls == [] then Failure(NoModifyUrls)
    else if operation != "0" && operation != "1" then Failure(BadOperation)
    else match ParseTagLines(NonBlankLines(tagsText))
      case Failure((line, fault)) => Failure(BadTagLine(line, fault))
      case Success(tags) =>
        Success(Request(Post, "/modify-tags", [],
          JsonBody(ModifyTagsBody(urls, if operation == "1" then 1 else 0, tags))))
  }

  /** A text without line breaks or surrounding blanks is a single line. */
  lemma OneLine(text: string)
    requires text != [] && '\n' !in text
    requires !IsJsSpace(text[0]) && !IsJsSpace(text[|text| - 1])
    ensures NonBlankLines(text) == [text]
  {
    SplitSingle(text, '\n');
    StripUnchanged(text, IsJsSpace);
    assert JsTrim(text) == text;
    assert TrimAll([text]) == [text];
    assert DropEmpty([text]) == [text];
  }

  /** A tag line without a comma rejects the batch, and the alert names that line. */
  lemma ModifyRejectsLineWithoutComma(urls: string, operation: string, line: string)
    requires urls != [] && '\n' !in urls && !IsJsSpace(urls[0]) && !IsJsSpace(urls[|urls| - 1])
    requires operation == "0" || operation == "1"
    requires line != [] && '\n' !in line && !IsJsSpace(line[0]) && !IsJsSpace(line[|line| - 1])
    requires ',' !in line
    ensures BuildModifyTags(urls, operation, line) == Failure(BadTagLine(line, MissingComma))
  {
    OneLine(urls);
    OneLine(line);
  }

  /** An empty count is `Number("") == 0`: `crow,` is accepted and sent as `crow,0`. */
  lemma EmptyCountIsZero(tag: string)
    requires ',' !in tag && JsTrim(tag) != ""
    ensures ParseTagLine(tag + ",") == Success(JsTrim(tag) + ",0")
  {
    assert tag + "," == tag + "," + "" + "";
    ParseTagLineAccepts(tag, "", "");
    assert JsTrim("") == "";
    assert JsNumberOf("") == Num(0);
    assert IntToString(0) == "0";
    assert JsTrim(tag) + "," + "0" == JsTrim(tag) + ",0";
  }

  // ---------------------------------------------------------------- POST /delete-files

  function BuildDeleteFiles(url: string): (r: Result<Request, Rejection>)
    ensures r.Failure? <==> JsTrim(url) == ""
    ensures r.Failure? ==> r.error == NoDeleteUrl
    ensures r.Success? ==> r.value == Request(Post, "/delete-files", [],
                                              JsonBody(JObj(map["urls" := UrlList([JsTrim(url)])])))
  {
    if JsTrim(url) == "" then Failure(NoDeleteUrl)
    else Success(Request(Post, "/delete-files", [], JsonBody(JObj(map["urls" := UrlList([JsTrim(url)])]))))
  }

  // ---------------------------------------------------------------- POST /upload-search

  function BuildUploadSearch(file: Option<string>): (r: Result<Request, Rejection>)
    ensures r.Failure? <==> file.None?
    ensures r.Success? ==> r.value == Request(Post, "/upload-search", [], FileForm(file.value))
  {
    if file.None? then Failure(NoUploadFile)
    else Success(Request(Post, "/upload-search", [], FileForm(file.value)))
  }

  // ================================================================ replies

  datatype Mode = PostSearch | TagsOnlySearch | TagCountsSearch | ThumbnailSearch
                | ModifyTagsMode | DeleteFilesMode | UploadSearch

  /** A reply: status, body text, and the body parsed as JSON (or the parse error). */
  datatype Reply = Reply(status: int, text: string, payload: Result<Json, string>)

  /** What the page does with a reply: show a result list, or alert a message (the
      result then stays cleared). */
  datatype Outcome =
    | ShowResult(result: Json)
    | AlertOnly(message: string)
      /** Reading a property of a `null` reply throws a `TypeError`; its message is the
          browser's own wording and only the prefix is fixed here. */
    | AlertTypeError(prefix: string)

  function ErrorPrefix(mode: Mode): string {
    match mode
    case PostSearch => "Error during POST search: "
    case TagsOnlySearch => "Error during GET tags only search: "
    case TagCountsSearch => "Error during GET tags with counts search: "
    case ThumbnailSearch => "Error during thumbnail search: "
    case ModifyTagsMode => "Error during modify tags: "
    case DeleteFilesMode => "Error during delete files: "
    case UploadSearch => "Error during file upload search: "
  }

  /** `value > 0`: the value is converted to a number first, an array through its
      text and any other object to NaN. */
  predicate JsPositive(j: Json) {
    match j
    case JNull => false
    case JBool(b) => b
    case JNum(n) => n > 0
    case JStr(s) => JsNumberOf(s).Num? && JsNumberOf(s).value > 0
    case JArr(items) => JsNumberOf(JsJoinItems(items)).Num? && JsNumberOf(JsJoinItems(items)).value > 0
    case JObj(_) => false
  }

  /** `value.length > 0`: strings and arrays have a length; an object is read for its
      own `length` property, and anything without one compares `undefined`, which is
      never above 0. */
  predicate JsLengthPositive(j: Json) {
    match j
    case JStr(s) => s != ""
    case JArr(items) => items != []
    case JObj(fields) => "length" in fields && JsPositive(fields["length"])
    case _ => false
  }

  /** `value && value.length > 0` */
  predicate NonEmptyList(v: Option<Json>) {
    v.Some? && JsTruthy(v.value) && JsLengthPositive(v.value)
  }

  predicate Truthy(v: Option<Json>) { v.Some? && JsTruthy(v.value) }

  /** `v || []` */
  function OrEmpty(v: Option<Json>): Json { if Truthy(v) then v.value else JArr([]) }

  /** The result list each mode takes from a successful reply's JSON. */
  function Normalize(mode: Mode, data: Json): (o: Outcome)
    ensures mode == PostSearch ==> o == ShowResult(
      if NonEmptyList(Prop(data, "links")) then Prop(data, "links").value
      else if Truthy(Prop(data, "originalURL")) then JArr([Prop(data, "originalURL").value])
      else JArr([]))
    ensures mode in {TagsOnlySearch, TagCountsSearch, UploadSearch} ==> o == ShowResult(OrEmpty(Prop(data, "links")))
    ensures mode == ThumbnailSearch ==> o == ShowResult(
      if Truthy(Prop(data, "originalURL")) then JArr([Prop(data, "originalURL").value]) else JArr([]))
    ensures mode == ModifyTagsMode ==> o == ShowResult(
      if NonEmptyList(Prop(data, "updated")) then Prop(data, "updated").value else JArr([]))
    ensures mode == DeleteFilesMode ==> o == AlertOnly(
      if Truthy(Prop(data, "message")) then JsText(Prop(data, "message").value) else "Deletion completed")
  {
    match mode
    case PostSearch =>
      var links := Prop(data, "links");
      var original := Prop(data, "originalURL");
      if NonEmptyList(links) then ShowResult(links.value)
      else if Truthy(original) then ShowResult(JArr([original.value]))
      else ShowResult(JArr([]))
    case TagsOnlySearch => ShowResult(OrEmpty(Prop(data, "links")))
    case TagCountsSearch => ShowResult(OrEmpty(Prop(data, "links")))
    case UploadSearch => ShowResult(OrEmpty(Prop(data, "links")))
    case ThumbnailSearch =>
      var original := Prop(data, "originalURL");
      ShowResult(if Truthy(original) then JArr([original.value]) else JArr([]))
    case ModifyTagsMode =>
      var updated := Prop(data, "updated");
      ShowResult(if NonEmptyList(updated) then updated.value else JArr([]))
    case DeleteFilesMode =>
      var message := Prop(data, "message");
      AlertOnly(if Truthy(message) then JsText(message.value) else "Deletion completed")
  }

  /** A reply whose `links` (POST search) or `updated` (modify) is an object with a
      positive `length` property is taken as the result list, just as an array is. */
  lemma ObjectWithLengthIsKept(mode: Mode, data: Json, key: string, fields: map<string, Json>, n: int)
    requires (mode == PostSearch && key == "links") || (mode == ModifyTagsMode && key == "updated")
    requires Prop(data, key) == Some(JObj(fields))
    requires "length" in fields && fields["length"] == JNum(n) && n > 0
    ensures Normalize(mode, data) == ShowResult(JObj(fields))
  {
  }

  /** A status outside 200-299 is shown as `HTTP <status>: <body text>`; an unreadable
      body is shown with its parse error, a `null` body fails on its first property
      access; no mode retries. */
  function HandleReply(mode: Mode, reply: Reply): (o: Outcome)
    ensures !(200 <= reply.status < 300) ==>
      o == AlertOnly(ErrorPrefix(mode) + "HTTP " + IntToString(reply.status) + ": " + reply.text)
    ensures 200 <= reply.status < 300 && reply.payload.Failure? ==>
      o == AlertOnly(ErrorPrefix(mode) + reply.payload.error)
    ensures 200 <= reply.status < 300 && reply.payload == Success(JNull) ==> o == AlertTypeError(ErrorPrefix(mode))
    ensures 200 <= reply.status < 300 && reply.payload.Success? && reply.payload.value != JNull ==>
      o == Normalize(mode, reply.payload.value)
  {
    if !(200 <= reply.status < 300) then
      AlertOnly(ErrorPrefix(mode) + "HTTP " + IntToString(reply.status) + ": " + reply.text)
    else match reply.payload
      case Failure(e) => AlertOnly(ErrorPrefix(mode) + e)
      case Success(JNull) => AlertTypeError(ErrorPrefix(mode))
      case Success(data) => Normalize(mode, data)
  }

  /** Every search mode leaves an array (never null or absent) when the reply's lists
      are arrays or absent. */
  lemma {:induction false} SearchResultIsArray(mode: Mode, data: Json)
    requires mode != DeleteFilesMode
    requires Prop(data, "links").Some? ==> Prop(data, "links").value.JArr?
    requires Prop(data, "updated").Some? ==> Prop(data, "updated").value.JArr?
    ensures Normalize(mode, data).ShowResult? && Normalize(mode, data).result.JArr?
  {
  }

  // ================================================================ categorizeLinks

  datatype LinkGroups = LinkGroups(audios: seq<string>, images: seq<string>, others: seq<string>)

  predicate IsLineTerminator(c: char) { c == '\n' || c == '\r' || c == '\U{2028}' || c == '\U{2029}' }

  /** What may follow the extension for `(\?.*)?$` to match: nothing, or `?` and then
      no line terminator. */
  predicate QuerySuffix(t: string) {
    t == "" || (t[0] == '?' && forall k :: 1 <= k < |t| ==> !IsLineTerminator(t[k]))
  }

  /** Extension `ext` (lower case, with its dot) starts at position `p` of `link`,
      compared case-insensitively, and the rest is a query suffix. */
  predicate ExtensionAt(link: string, p: nat, ext: string)
    requires p <= |link|
  {
    ext <= Lower(link[p..]) && QuerySuffix(link[p + |ext|..])
  }

  const AudioExtensions: seq<string> := [".mp3", ".wav", ".ogg"]
  const ImageExtensions: seq<string> := [".jpg", ".jpeg", ".png", ".gif", ".bmp", ".webp"]

  predicate MatchesOneOf(link: string, p: nat, exts: seq<string>)
    requires p <= |link|
  {
    exists e :: e in exts && ExtensionAt(link, p, e)
  }

  /** `link.match(/\.(ext1|ext2|...)(\?.*)?$/i)` */
  predicate HasMediaSuffix(link: string, exts: seq<string>) {
    exists p :: 0 <= p <= |link| && MatchesOneOf(link, p, exts)
  }

  predicate IsAudioLink(link: string) { HasMediaSuffix(link, AudioExtensions) }
  predicate IsImageLink(link: string) { !IsAudioLink(link) && HasMediaSuffix(link, ImageExtensions) }
  predicate IsOtherLink(link: string) { !IsAudioLink(link) && !HasMediaSuffix(link, ImageExtensions) }

  /** The string entries of an array whose text satisfies `keep`, in order. */
  function StringsWhere(items: seq<Json>, keep: string -> bool): (r: seq<string>)
    ensures |r| <= |items|
  {
    if items == [] then []
    else
      var rest := StringsWhere(items[..|items| - 1], keep);
      var last := items[|items| - 1];
      if last.JStr? && keep(last.s) then rest + [last.s] else rest
  }

  function AllStrings(items: seq<Json>): seq<string> {
    StringsWhere(items, _ => true)
  }

  function Categorized(items: seq<Json>): LinkGroups {
    LinkGroups(StringsWhere(items, IsAudioLink), StringsWhere(items, IsImageLink), StringsWhere(items, IsOtherLink))
  }

  /** Sorts the links into audio, image and other, testing audio first; a value that
      is not an array gives three empty lists, and entries that are not strings are
      skipped. */
  method CategorizeLinks(links: Json) returns (g: LinkGroups)
    ensures !links.JArr? ==> g == LinkGroups([], [], [])
    ensures links.JArr? ==> g == Categorized(links.items)
  {
    if !links.JArr? {
      return LinkGroups([], [], []);
    }
    var items := links.items;
    var audios: seq<string> := [];
    var images: seq<string> := [];
    var others: seq<string> := [];
    var i := 0;
    while i < |items|
      invariant 0 <= i <= |items|
      invariant LinkGroups(audios, images, others) == Categorized(items[..i])
    {
      assert items[..i + 1][..i] == items[..i];
      var link := items[i];
      if link.JStr? {
        if IsAudioLink(link.s) {
          audios := audios + [link.s];
        } else if HasMediaSuffix(link.s, ImageExtensions) {
          images := images + [link.s];
        } else {
          others := others + [link.s];
        }
      }
      i := i + 1;
    }
    assert items[..i] == items;
    g := LinkGroups(audios, images, others);
  }

  /** Every string link lands in exactly one of the three lists, and nothing else does. */
  lemma {:induction false} CategorizedPartition(items: seq<Json>)
    ensures var g := Categorized(items);
            multiset(g.audios) + multiset(g.images) + multiset(g.others) == multiset(AllStrings(items))
    decreases |items|
  {
    if items != [] {
      CategorizedPartition(items[..|items| - 1]);
    }
  }

  lemma {:induction false} StringsWhereMembers(items: seq<Json>, keep: string -> bool, x: string)
    ensures x in StringsWhere(items, keep) <==> JStr(x) in items && keep(x)
    decreases |items|
  {
    if items != [] {
      var init := items[..|items| - 1];
      StringsWhereMembers(init, keep, x);
      assert items == init + [items[|items| - 1]];
    }
  }

  /** Audio is tested before image: a link matching both is an audio link. */
  lemma AudioBeforeImage()
    ensures var g := Categorized([JStr("a.mp3?b.jpg")]);
            g.audios == ["a.mp3?b.jpg"] && g.images == []
  {
    var link := "a.mp3?b.jpg";
    assert link[1..] == ".mp3?b.jpg";
    assert Lower(link[1..]) == ".mp3?b.jpg";
    assert ExtensionAt(link, 1, ".mp3");
    assert MatchesOneOf(link, 1, AudioExtensions);
    assert IsAudioLink(link);
    assert [JStr(link)][..0] == [];
  }

  // ================================================================ the tag-count editor

  datatype PairField = TagField | CountField

  /** `updateTagCountPair`: the row at `idx` gets the new tag, or `Number(value)` as its
      count; every other row is unchanged. */
  function UpdateTagCountPair(pairs: seq<TagCountPair>, idx: int, field: PairField, value: string): (r: seq<TagCountPair>)
    ensures |r| == |pairs|
    ensures forall i :: 0 <= i < |pairs| && i != idx ==> r[i] == pairs[i]
    ensures 0 <= idx < |pairs| && field == TagField ==> r[idx] == TagCountPair(value, pairs[idx].count)
    ensures 0 <= idx < |pairs| && field == CountField ==> r[idx] == TagCountPair(pairs[idx].tag, JsNumberOf(value))
  {
    seq(|pairs|, i requires 0 <= i < |pairs| =>
      if i == idx then
        (if field == CountField then pairs[i].(count := JsNumberOf(value)) else pairs[i].(tag := value))
      else pairs[i])
  }

  /** `removeTagCountPair`: drops the row at `idx`, keeping the others in order. */
  function RemoveTagCountPair(pairs: seq<TagCountPair>, idx: int): (r: seq<TagCountPair>)
    ensures 0 <= idx < |pairs| ==> |r| == |pairs| - 1
    ensures 0 <= idx < |pairs| ==> forall i :: 0 <= i < |r| ==> r[i] == (if i < idx then pairs[i] else pairs[i + 1])
    ensures !(0 <= idx < |pairs|) ==> r == pairs
  {
    if 0 <= idx < |pairs| then pairs[..idx] + pairs[idx + 1..] else pairs
  }

  /** `addTagCountPair`: appends an empty row with count 1. */
  function AddTagCountPair(pairs: seq<TagCountPair>): (r: seq<TagCountPair>)
    ensures |r| == |pairs| + 1 && r[..|pairs|] == pairs && r[|pairs|] == DefaultPair
  {
    pairs + [DefaultPair]
  }

  /** Removing the row just added restores the editor. */
  lemma RemoveUndoesAdd(pairs: seq<TagCountPair>)
    ensures RemoveTagCountPair(AddTagCountPair(pairs), |pairs|) == pairs
  {
  }

  /** A fresh row is never sent: its tag is blank. */
  lemma DefaultPairIsDropped(pairs: seq<TagCountPair>)
    ensures FilterPairs(AddTagCountPair(pairs)) == FilterPairs(pairs)
  {
    assert JsTrim("") == "";
  }
}
