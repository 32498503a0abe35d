/** The search and tag Lambda behind the web API (`/search`, `/modify-tags`,
    `/delete-files`, `/query-by-file`), over a model of its DynamoDB table. */
module WebLambda {
  import opened Wrappers
  import opened Text
  import opened Json
  import opened UrlParse

  // ------------------------------------------------------------------ the table

  /** The `tags` attribute of an item: absent, a dictionary of counts, or another value. */
  datatype TagsAttr = TagsAbsent | TagsDict(counts: map<string, int>) | TagsOther(raw: Json)

  datatype Item = Item(uniqueId: string, tags: TagsAttr, thumbnailURL: Option<string>,
                       originalURL: Option<string>, annotatedURL: Option<string>)

  /** The items a scan returns, in scan order. */
  type Table = seq<Item>

  /** `item.get('tags', {})` when the code goes on only for a dictionary. */
  function TagDict(item: Item): (r: Option<map<string, int>>)
    ensures r.None? <==> item.tags.TagsOther?
  {
    match item.tags
    case TagsAbsent => Some(map[])
    case TagsDict(m) => Some(m)
    case TagsOther(_) => None
  }

  /** `item.get(field)` is truthy. */
  predicate Present(u: Option<string>) { u.Some? && u.value != "" }

  /** What the Lambda gets from S3 and the API: `generate_presigned_url` (which yields
      `None` when it raises), whether `base64.b64decode` accepts a text, and Python's
      `str()` of a list or dictionary. */
  datatype Env = Env(presign: (string, string) -> Option<string>,
                     decodes: string -> bool,
                     containerText: Json -> string)

  // ------------------------------------------------------------------ presigning

  /** `get_presigned_url_from_s3_url`: a presigned link for the URL's bucket and key,
      or the URL itself when the URL does not parse or presigning yields nothing. */
  function PresignedOrOriginal(env: Env, url: string): (r: string)
    ensures BucketAndKey(url).None? ==> r == url
    ensures r == url || (BucketAndKey(url).Some?
                         && env.presign(BucketAndKey(url).value.0, BucketAndKey(url).value.1) == Some(r) && r != "")
  {
    match BucketAndKey(url)
    case None => url
    case Some((bucket, key)) =>
      match env.presign(bucket, key)
      case Some(p) => if p != "" then p else url
      case None => url
  }

  /** A stored object URL is presigned for exactly its own bucket and key. */
  lemma PresignStoredUrl(env: Env, bucket: string, region: string, key: string)
    requires NoneOf(bucket, HostStops + {'.'}) && NoneOf(region, HostStops)
    requires NoneOf(key, {'?', '#', ';', '\t', '\r', '\n'}) && (key == [] || key[0] != '/')
    requires env.presign(bucket, key).Some? && env.presign(bucket, key).value != ""
    ensures PresignedOrOriginal(env, S3ObjectUrl(bucket, region, key)) == env.presign(bucket, key).value
  {
    BucketAndKeyOfS3ObjectUrl(bucket, region, key);
  }

  // ------------------------------------------------------------------ responses

  datatype Body = NoBody | Unparsable | Parsed(json: Json)

  /** An API Gateway proxy event. An absent path stands as a path no route has. */
  datatype Event = Event(httpMethod: string, path: string, query: map<string, string>, body: Body)

  /** `json.loads(event.get('body') or '{}')`; `None` where it raises. */
  function LoadBody(b: Body): (r: Option<Json>)
    ensures b.NoBody? ==> r == Some(JObj(map[]))
  {
    match b
    case NoBody => Some(JObj(map[]))
    case Unparsable => None
    case Parsed(j) => Some(j)
  }

  /** A response with a JSON body, the preflight answer, or an exception that escapes the
      handler. */
  datatype Response = Response(status: int, body: Json) | Preflight | Crash

  function Error(status: int, message: string): Response {
    Response(status, JObj(map["error" := JStr(message)]))
  }

  function Message(message: string): Response {
    Response(200, JObj(map["message" := JStr(message)]))
  }

  function Strings(s: seq<string>): (r: seq<Json>)
    ensures |r| == |s| && forall k :: 0 <= k < |s| ==> r[k] == JStr(s[k])
  {
    if s == [] then [] else [JStr(s[0])] + Strings(s[1..])
  }

  // ------------------------------------------------------------------ tag{i}/count{i}

  function QueryTagKey(i: nat): string { "tag" + NatToString(i) }
  function QueryCountKey(i: nat): string { "count" + NatToString(i) }

  predicate PairPresent(params: map<string, string>, i: nat) {
    QueryTagKey(i) in params && QueryCountKey(i) in params
  }

  lemma QueryTagKeyInjective(i: nat, j: nat)
    requires QueryTagKey(i) == QueryTagKey(j)
    ensures i == j
  {
    assert NatToString(i) == QueryTagKey(i)[3..];
    assert NatToString(j) == QueryTagKey(j)[3..];
    NatToStringInjective(i, j);
  }

  /** The `tag{j}` keys with `j >= i`: the measure the query loop exhausts. */
  ghost function TagKeysFrom(params: map<string, string>, i: nat): set<string> {
    set k | k in params.Keys && exists j: nat :: j >= i && k == QueryTagKey(j)
  }

  lemma TagKeysFromShrink(params: map<string, string>, i: nat)
    requires QueryTagKey(i) in params
    ensures TagKeysFrom(params, i + 1) < TagKeysFrom(params, i)
  {
    assert QueryTagKey(i) in TagKeysFrom(params, i);
    forall j: nat | j >= i + 1 ensures QueryTagKey(j) != QueryTagKey(i) {
      if QueryTagKey(j) == QueryTagKey(i) {
        QueryTagKeyInjective(j, i);
      }
    }
  }

  /** The raw values of pair `i`. */
  function PairAt(params: map<string, string>, i: nat): (string, string)
    requires PairPresent(params, i)
  {
    (params[QueryTagKey(i)], params[QueryCountKey(i)])
  }

  /** The raw `(tag{i}, count{i})` values the loop visits, from `i` up to the first index
      where either is missing, in order. */
  function ScannedPairs(params: map<string, string>, i: nat): (r: seq<(string, string)>)
    ensures forall j :: i <= j < i + |r| ==> PairPresent(params, j) && r[j - i] == PairAt(params, j)
    ensures !PairPresent(params, i + |r|)
    decreases TagKeysFrom(params, i)
  {
    if PairPresent(params, i) then
      TagKeysFromShrink(params, i);
      var rest := ScannedPairs(params, i + 1);
      [PairAt(params, i)] + rest
    else []
  }

  /** The entry a visited pair sets, if any: the stripped tag when it is non-empty and
      the count parses as an integer above zero. */
  function Setting(raw: (string, string)): (r: Option<(string, int)>)
    ensures r.Some? ==> r.value.0 != "" && r.value.1 > 0
  {
    var tag := PyStrip(raw.0);
    var count := PyInt(raw.1);
    if tag != "" && count.Some? && count.value > 0 then Some((tag, count.value)) else None
  }

  predicate Sets(raw: (string, string), tag: string) {
    Setting(raw).Some? && Setting(raw).value.0 == tag
  }

  /** The dictionary built from the visited pairs, a later tag replacing an earlier one. */
  function ScannedCounts(pairs: seq<(string, string)>): (r: map<string, int>)
    ensures forall t :: t in r ==> t != "" && r[t] > 0
  {
    if pairs == [] then map[]
    else
      var acc := ScannedCounts(pairs[..|pairs| - 1]);
      match Setting(pairs[|pairs| - 1])
      case Some((tag, count)) => acc[tag := count]
      case None => acc
  }

  /** A tag is in the dictionary iff some visited pair sets it. */
  lemma ScannedCountsMembers(pairs: seq<(string, string)>, t: string)
    ensures t in ScannedCounts(pairs) <==> exists j :: 0 <= j < |pairs| && Sets(pairs[j], t)
  {
    if t in ScannedCounts(pairs) {
      ScannedCountsSetter(pairs, t);
    }
    if exists j :: 0 <= j < |pairs| && Sets(pairs[j], t) {
      var j :| 0 <= j < |pairs| && Sets(pairs[j], t);
      ScannedCountsKeeps(pairs, j, t);
    }
  }

  /** Every tag in the dictionary was set by some visited pair. */
  lemma {:induction false} ScannedCountsSetter(pairs: seq<(string, string)>, t: string)
    requires t in ScannedCounts(pairs)
    ensures exists j :: 0 <= j < |pairs| && Sets(pairs[j], t)
  {
    var n := |pairs| - 1;
    ScannedCountsStep(pairs, t);
    if !Sets(pairs[n], t) {
      var init := pairs[..n];
      ScannedCountsSetter(init, t);
      var j :| 0 <= j < n && Sets(init[j], t);
      assert init[j] == pairs[j];
    }
  }

  /** A tag set by a visited pair stays in the dictionary. */
  lemma {:induction false} ScannedCountsKeeps(pairs: seq<(string, string)>, j: nat, t: string)
    requires j < |pairs| && Sets(pairs[j], t)
    ensures t in ScannedCounts(pairs)
  {
    var n := |pairs| - 1;
    if j < n {
      var init := pairs[..n];
      assert init[j] == pairs[j];
      ScannedCountsKeeps(init, j, t);
      ScannedCountsGrows(pairs, t);
    } else {
      ScannedCountsSetsLast(pairs, t);
    }
  }

  lemma ScannedCountsGrows(pairs: seq<(string, string)>, t: string)
    requires pairs != [] && t in ScannedCounts(pairs[..|pairs| - 1])
    ensures t in ScannedCounts(pairs)
  {
  }

  lemma ScannedCountsSetsLast(pairs: seq<(string, string)>, t: string)
    requires pairs != [] && Sets(pairs[|pairs| - 1], t)
    ensures t in ScannedCounts(pairs)
  {
  }

  /** One more visited pair adds at most the tag it sets. */
  lemma ScannedCountsStep(pairs: seq<(string, string)>, t: string)
    requires pairs != []
    ensures t in ScannedCounts(pairs) <==> t in ScannedCounts(pairs[..|pairs| - 1]) || Sets(pairs[|pairs| - 1], t)
  {
  }

  /** The count of a tag comes from the last visited pair that sets it. */
  lemma {:induction false} ScannedCountsLast(pairs: seq<(string, string)>, j: nat, t: string)
    requires j < |pairs| && Sets(pairs[j], t)
    requires forall j' :: j < j' < |pairs| ==> !Sets(pairs[j'], t)
    ensures t in ScannedCounts(pairs) && ScannedCounts(pairs)[t] == Setting(pairs[j]).value.1
    decreases |pairs|
  {
    var n := |pairs| - 1;
    var init := pairs[..n];
    var acc := ScannedCounts(init);
    if j < n {
      assert init[j] == pairs[j];
      forall j' | j < j' < n ensures !Sets(init[j'], t) {
        assert init[j'] == pairs[j'];
      }
      ScannedCountsLast(init, j, t);
      assert !Sets(pairs[n], t);
      match Setting(pairs[n])
      case None =>
      case Some((tag, count)) =>
        assert tag != t;
    }
  }

  /** The loop reaches index `i`: every pair up to `i` is complete. */
  predicate Reaches(params: map<string, string>, i: nat) {
    forall k :: 1 <= k <= i ==> PairPresent(params, k)
  }

  /** `parse_tag_count_query(params)` */
  function TagCountQuery(params: map<string, string>): map<string, int> {
    ScannedCounts(ScannedPairs(params, 1))
  }

  lemma ScannedPairsUnfold(params: map<string, string>, i: nat)
    requires PairPresent(params, i)
    ensures ScannedPairs(params, i) == [PairAt(params, i)] + ScannedPairs(params, i + 1)
  {
  }

  lemma ScannedCountsSnoc(visited: seq<(string, string)>, raw: (string, string))
    ensures var tag := PyStrip(raw.0);
            var count := PyInt(raw.1);
            ScannedCounts(visited + [raw]) ==
              if tag != "" && count.Some? && count.value > 0 then ScannedCounts(visited)[tag := count.value]
              else ScannedCounts(visited)
  {
    assert (visited + [raw])[..|visited|] == visited;
  }

  /** The loop's view of the pairs: those visited, then those still to come. */
  lemma ScannedPairsStep(params: map<string, string>, i: nat, visited: seq<(string, string)>)
    requires PairPresent(params, i) && ScannedPairs(params, 1) == visited + ScannedPairs(params, i)
    ensures ScannedPairs(params, 1) == (visited + [PairAt(params, i)]) + ScannedPairs(params, i + 1)
  {
    ScannedPairsUnfold(params, i);
    assert visited + ([PairAt(params, i)] + ScannedPairs(params, i + 1))
        == (visited + [PairAt(params, i)]) + ScannedPairs(params, i + 1);
  }

  /** The body of the loop for one pair: the stripped tag is set to the parsed count
      when the tag is non-empty and the count an integer above zero. */
  method ScanPair(tagCounts: map<string, int>, ghost visited: seq<(string, string)>, rawTag: string, rawCount: string)
    returns (next: map<string, int>)
    requires tagCounts == ScannedCounts(visited)
    ensures next == ScannedCounts(visited + [(rawTag, rawCount)])
  {
    next := tagCounts;
    var tag := PyStrip(rawTag);
    var count := PyInt(rawCount);
    if tag != "" && count.Some? && count.value > 0 {
      next := tagCounts[tag := count.value];
    }
    ScannedCountsSnoc(visited, (rawTag, rawCount));
  }

  /** `parse_tag_count_query`: the `while` loop over `i = 1, 2, …`. */
  method ParseTagCountQuery(params: map<string, string>) returns (tagCounts: map<string, int>)
    ensures tagCounts == TagCountQuery(params)
  {
    tagCounts := map[];
    var i: nat := 1;
    ghost var visited: seq<(string, string)> := [];
    while QueryTagKey(i) in params && QueryCountKey(i) in params
      invariant ScannedPairs(params, 1) == visited + ScannedPairs(params, i)
      invariant tagCounts == ScannedCounts(visited)
      decreases TagKeysFrom(params, i)
    {
      TagKeysFromShrink(params, i);
      ghost var raw := PairAt(params, i);
      tagCounts := ScanPair(tagCounts, visited, params[QueryTagKey(i)], params[QueryCountKey(i)]);
      ScannedPairsStep(params, i, visited);
      visited := visited + [raw];
      i := i + 1;
    }
    ScannedPairsDone(params, i, visited);
  }

  lemma ScannedPairsDone(params: map<string, string>, i: nat, visited: seq<(string, string)>)
    requires !PairPresent(params, i) && ScannedPairs(params, 1) == visited + ScannedPairs(params, i)
    ensures ScannedPairs(params, 1) == visited
  {
    assert ScannedPairs(params, i) == [];
    assert visited + [] == visited;
  }

  /** What the query yields: a tag is searched for iff some `tag{i}` up to the first
      incomplete pair strips to it with a positive integer `count{i}`; that count. */
  lemma TagCountQueryMembers(params: map<string, string>, t: string)
    ensures t in TagCountQuery(params) <==>
              exists i :: 1 <= i && Reaches(params, i) && Sets(PairAt(params, i), t)
    ensures t in TagCountQuery(params) ==> t != "" && TagCountQuery(params)[t] > 0
  {
    var pairs := ScannedPairs(params, 1);
    ScannedCountsMembers(pairs, t);
    if t in TagCountQuery(params) {
      var j :| 0 <= j < |pairs| && Sets(pairs[j], t);
      assert pairs[j + 1 - 1] == PairAt(params, j + 1);
      assert Reaches(params, j + 1);
    }
    if exists i :: 1 <= i && Reaches(params, i) && Sets(PairAt(params, i), t) {
      var i :| 1 <= i && Reaches(params, i) && Sets(PairAt(params, i), t);
      assert i <= |pairs|;
      assert pairs[i - 1] == PairAt(params, i);
    }
  }

  /** A later `tag{i}` that strips to the same tag replaces the earlier count, and pairs
      after the first incomplete one are never read. */
  lemma TagCountQueryLastWins(params: map<string, string>, i: nat, t: string)
    requires 1 <= i && Reaches(params, i) && Sets(PairAt(params, i), t)
    requires forall j :: i < j && Reaches(params, j) ==> !Sets(PairAt(params, j), t)
    ensures t in TagCountQuery(params) && TagCountQuery(params)[t] == Setting(PairAt(params, i)).value.1
  {
    var pairs := ScannedPairs(params, 1);
    assert i <= |pairs|;
    assert pairs[i - 1] == PairAt(params, i);
    forall j' | i - 1 < j' < |pairs| ensures !Sets(pairs[j'], t) {
      assert pairs[j' + 1 - 1] == PairAt(params, j' + 1);
      assert Reaches(params, j' + 1);
    }
    ScannedCountsLast(pairs, i - 1, t);
  }

  // ------------------------------------------------------------------ links of an item

  /** The URL fields an item contributes when it matches, in the fixed order
      `thumbnailURL`, `originalURL`, `annotatedURL`; absent or empty fields are skipped. */
  function PresentUrls(item: Item): (r: seq<string>)
    ensures |r| <= 3
    ensures forall u :: u in r <==> u != "" && (item.thumbnailURL == Some(u) || item.originalURL == Some(u) || item.annotatedURL == Some(u))
    ensures Present(item.thumbnailURL) ==> r[0] == item.thumbnailURL.value
    ensures Present(item.annotatedURL) ==> r[|r| - 1] == item.annotatedURL.value
    ensures Present(item.thumbnailURL) && Present(item.originalURL) && Present(item.annotatedURL) ==>
              r == [item.thumbnailURL.value, item.originalURL.value, item.annotatedURL.value]
  {
    (if Present(item.thumbnailURL) then [item.thumbnailURL.value] else [])
    + (if Present(item.originalURL) then [item.originalURL.value] else [])
    + (if Present(item.annotatedURL) then [item.annotatedURL.value] else [])
  }

  function PresignAll(env: Env, urls: seq<string>): (r: seq<string>)
    ensures |r| == |urls| && forall k :: 0 <= k < |urls| ==> r[k] == PresignedOrOriginal(env, urls[k])
  {
    seq(|urls|, k requires 0 <= k < |urls| => PresignedOrOriginal(env, urls[k]))
  }

  /** The links one matching item adds to the response. */
  function ItemLinks(env: Env, item: Item): seq<string> {
    PresignAll(env, PresentUrls(item))
  }

  // ------------------------------------------------------------------ sum_matching_tags

  /** `query_tag.lower() in tag_name.lower()` */
  predicate NameMatches(name: string, query: string) {
    Contains(Lower(name), Lower(query))
  }

  /** The count a tag name adds to the sum for `query`. */
  function Term(tags: map<string, int>, name: string, query: string): int
    requires name in tags
  {
    if NameMatches(name, query) then tags[name] else 0
  }

  /** The sum of `Term` over the names in `names`, in no particular order. */
  ghost function SumOver(tags: map<string, int>, names: set<string>, query: string): int
    requires names <= tags.Keys
    decreases names
  {
    if names == {} then 0
    else
      var n :| n in names;
      Term(tags, n, query) + SumOver(tags, names - {n}, query)
  }

  /** The sum does not depend on which name is taken first. */
  lemma {:induction false} SumOverRemove(tags: map<string, int>, names: set<string>, query: string, n: string)
    requires names <= tags.Keys && n in names
    ensures SumOver(tags, names, query) == Term(tags, n, query) + SumOver(tags, names - {n}, query)
    decreases names
  {
    var m :| m in names && SumOver(tags, names, query) == Term(tags, m, query) + SumOver(tags, names - {m}, query);
    if m != n {
      SumOverRemove(tags, names - {m}, query, n);
      SumOverRemove(tags, names - {n}, query, m);
      assert names - {m} - {n} == names - {n} - {m};
    }
  }

  /** `sum_matching_tags(tags_dict, query_tag)`: the total count of the item tags whose
      lower-cased name contains the lower-cased query tag. */
  ghost function MatchingTotal(tags: map<string, int>, query: string): int {
    SumOver(tags, tags.Keys, query)
  }

  /** The accumulator loop of `sum_matching_tags`. Python visits the dictionary in
      insertion order; the loop here takes the names in any order, which the sum does
      not depend on. */
  method SumMatchingTags(tags: map<string, int>, query: string) returns (total: int)
    ensures total == MatchingTotal(tags, query)
  {
    total := 0;
    var remaining := tags.Keys;
    while remaining != {}
      invariant remaining <= tags.Keys
      invariant total + SumOver(tags, remaining, query) == MatchingTotal(tags, query)
      decreases remaining
    {
      var name :| name in remaining;
      SumOverRemove(tags, remaining, query, name);
      if Contains(Lower(name), Lower(query)) {
        total := total + tags[name];
      }
      remaining := remaining - {name};
    }
  }

  lemma {:induction false} SumOverNoMatch(tags: map<string, int>, names: set<string>, query: string)
    requires names <= tags.Keys
    requires forall n :: n in names ==> !NameMatches(n, query)
    ensures SumOver(tags, names, query) == 0
    decreases names
  {
    if names != {} {
      var n :| n in names;
      SumOverRemove(tags, names, query, n);
      SumOverNoMatch(tags, names - {n}, query);
    }
  }

  lemma {:induction false} SumOverAtLeast(tags: map<string, int>, names: set<string>, query: string, n: string)
    requires names <= tags.Keys && n in names && NameMatches(n, query)
    requires forall m :: m in tags ==> tags[m] >= 0
    ensures SumOver(tags, names, query) >= tags[n]
    decreases names
  {
    SumOverRemove(tags, names, query, n);
    SumOverNonNegative(tags, names - {n}, query);
  }

  lemma {:induction false} SumOverNonNegative(tags: map<string, int>, names: set<string>, query: string)
    requires names <= tags.Keys
    requires forall m :: m in tags ==> tags[m] >= 0
    ensures SumOver(tags, names, query) >= 0
    decreases names
  {
    if names != {} {
      var n :| n in names;
      SumOverRemove(tags, names, query, n);
      SumOverNonNegative(tags, names - {n}, query);
    }
  }

  /** Matching is by case-insensitive substring: the sum is zero when no name contains
      the query, and with non-negative counts it is at least the count of every name
      that does (`crow` collects `Crow`, `crows` and `carrion crow`). */
  lemma MatchingTotalBounds(tags: map<string, int>, query: string, n: string)
    ensures (forall m :: m in tags ==> !NameMatches(m, query)) ==> MatchingTotal(tags, query) == 0
    ensures (forall m :: m in tags ==> tags[m] >= 0) && n in tags && NameMatches(n, query) ==>
              MatchingTotal(tags, query) >= tags[n]
  {
    if forall m :: m in tags ==> !NameMatches(m, query) {
      SumOverNoMatch(tags, tags.Keys, query);
    }
    if (forall m :: m in tags ==> tags[m] >= 0) && n in tags && NameMatches(n, query) {
      SumOverAtLeast(tags, tags.Keys, query, n);
    }
  }

  // ------------------------------------------------------------------ the two search predicates

  /** An item matches a tag-count query iff, for every requested tag, the matching total
      of its tags reaches the requested count. */
  ghost predicate MatchesCounts(tags: map<string, int>, counts: map<string, int>) {
    forall t :: t in counts ==> MatchingTotal(tags, t) >= counts[t]
  }

  /** `all(sum_matching_tags(item_tags, tag) >= count for tag, count in tag_counts.items())`,
      stopping at the first requested tag that falls short. */
  method CheckCounts(tags: map<string, int>, counts: map<string, int>) returns (ok: bool)
    ensures ok == MatchesCounts(tags, counts)
  {
    var remaining := counts.Keys;
    while remaining != {}
      invariant remaining <= counts.Keys
      invariant forall t :: t in counts && t !in remaining ==> MatchingTotal(tags, t) >= counts[t]
      decreases remaining
    {
      var t :| t in remaining;
      var total := SumMatchingTags(tags, t);
      if total < counts[t] {
        return false;
      }
      remaining := remaining - {t};
    }
    return true;
  }

  /** An item matches a tags-only query iff some requested tag (already lower-cased) is
      a substring of some lower-cased tag name of the item. */
  predicate MatchesAnyTag(tags: map<string, int>, requested: seq<string>) {
    exists r, n :: r in requested && n in tags && Contains(Lower(n), r)
  }

  // ------------------------------------------------------------------ the scans

  /** The links of the items matching a tag-count query, in scan order; items whose
      `tags` is not a dictionary are skipped. */
  ghost function CountLinks(env: Env, table: Table, counts: map<string, int>): seq<string> {
    if table == [] then []
    else
      var item := table[|table| - 1];
      CountLinks(env, table[..|table| - 1], counts)
      + (if TagDict(item).Some? && MatchesCounts(TagDict(item).value, counts) then ItemLinks(env, item) else [])
  }

  /** The links of the items matching a tags-only query, in scan order. */
  function TagLinks(env: Env, table: Table, requested: seq<string>): seq<string> {
    if table == [] then []
    else
      var item := table[|table| - 1];
      TagLinks(env, table[..|table| - 1], requested)
      + (if TagDict(item).Some? && MatchesAnyTag(TagDict(item).value, requested) then ItemLinks(env, item) else [])
  }

  /** The tag-count scan: the items are visited in order and each matching item appends
      its links. */
  method ScanByCounts(env: Env, table: Table, counts: map<string, int>) returns (links: seq<string>)
    ensures links == CountLinks(env, table, counts)
  {
    links := [];
    for i := 0 to |table|
      invariant links == CountLinks(env, table[..i], counts)
    {
      assert table[..i + 1][..i] == table[..i];
      var item := table[i];
      var tagsDict := TagDict(item);
      if tagsDict.Some? {
        var ok := CheckCounts(tagsDict.value, counts);
        if ok {
          links := links + ItemLinks(env, item);
        }
      }
    }
    assert table[..|table|] == table;
  }

  /** The tags-only scan. */
  method ScanByTags(env: Env, table: Table, requested: seq<string>) returns (links: seq<string>)
    ensures links == TagLinks(env, table, requested)
  {
    links := [];
    for i := 0 to |table|
      invariant links == TagLinks(env, table[..i], requested)
    {
      assert table[..i + 1][..i] == table[..i];
      var item := table[i];
      var tagsDict := TagDict(item);
      if tagsDict.Some? && MatchesAnyTag(tagsDict.value, requested) {
        links := links + ItemLinks(env, item);
      }
    }
    assert table[..|table|] == table;
  }

  /** Every link of a scan comes from a matching item, presigned; an item with no URL
      field adds nothing. */
  lemma {:induction false} TagLinksFromMatches(env: Env, table: Table, requested: seq<string>, l: string)
    requires l in TagLinks(env, table, requested)
    ensures exists k :: 0 <= k < |table| && TagDict(table[k]).Some?
              && MatchesAnyTag(TagDict(table[k]).value, requested) && l in ItemLinks(env, table[k])
    decreases |table|
  {
    var init := table[..|table| - 1];
    var item := table[|table| - 1];
    if l in TagLinks(env, init, requested) {
      TagLinksFromMatches(env, init, requested, l);
      var k :| 0 <= k < |init| && TagDict(init[k]).Some?
               && MatchesAnyTag(TagDict(init[k]).value, requested) && l in ItemLinks(env, init[k]);
      assert init[k] == table[k];
    } else {
      assert table[|table| - 1] == item;
    }
  }

  // ------------------------------------------------------------------ requested tags

  /** Python's `str()` of a JSON value. */
  function PyStr(env: Env, j: Json): string {
    match j
    case JNull => "None"
    case JBool(b) => if b then "True" else "False"
    case JNum(n) => IntToString(n)
    case JStr(s) => s
    case JArr(_) => env.containerText(j)
    case JObj(_) => env.containerText(j)
  }

  /** `[t.strip().lower() for t in pieces if t.strip()]` */
  function CleanTags(pieces: seq<string>): (r: seq<string>)
    ensures |r| <= |pieces|
    ensures forall k :: 0 <= k < |r| ==> r[k] != ""
    ensures forall x :: x in r <==> exists p :: p in pieces && PyStrip(p) != "" && x == Lower(PyStrip(p))
  {
    if pieces == [] then []
    else
      var rest := CleanTags(pieces[..|pieces| - 1]);
      var p := pieces[|pieces| - 1];
      assert pieces == pieces[..|pieces| - 1] + [p];
      if PyStrip(p) != "" then rest + [Lower(PyStrip(p))] else rest
  }

  /** The tags of a tags-only search: a string is split on commas, a list is taken item
      by item through `str()`; any other value is rejected. */
  function RequestedTags(env: Env, raw: Json): (r: Option<seq<string>>)
    ensures r.Some? <==> raw.JStr? || raw.JArr?
    ensures raw.JStr? ==> r == Some(CleanTags(Split(raw.s, ',')))
  {
    match raw
    case JStr(s) => Some(CleanTags(Split(s, ',')))
    case JArr(items) => Some(CleanTags(seq(|items|, k requires 0 <= k < |items| => PyStr(env, items[k]))))
    case _ => None
  }

  /** A list of commas and blanks asks for nothing. */
  lemma CommasOnlyRequestNothing(env: Env)
    ensures RequestedTags(env, JStr(" , ")) == Some([])
  {
    var pieces := Split(" , ", ',');
    assert " , "[1] == ',' && ',' !in " , "[..1];
    SplitAt(" , ", ',', 1);
    assert " , "[2..] == " ";
    SplitSingle(" ", ',');
    assert " , "[..1] == " ";
    assert pieces == [" "] + [" "];
    assert PyStrip(" ") == "";
  }

  // ------------------------------------------------------------------ modify-tags

  /** `len(parts) == 2`: the two fields of a tag entry, if it has exactly two. */
  function EntryFields(t: string): (r: Option<(string, string)>)
    ensures r.Some? ==> t == r.value.0 + "," + r.value.1 && ',' !in r.value.0 && ',' !in r.value.1
  {
    var parts := Split(t, ',');
    if |parts| == 2 then
      JoinSplit(t, ',');
      Some((parts[0], parts[1]))
    else None
  }

  /** The well-formed entries' fields, in order. */
  function EntryPairs(tags: seq<string>): seq<(string, string)> {
    if tags == [] then []
    else
      var rest := EntryPairs(tags[..|tags| - 1]);
      match EntryFields(tags[|tags| - 1])
      case Some(p) => rest + [p]
      case None => rest
  }

  /** `parsed_tags`: each entry with exactly two fields, a non-blank stripped name and an
      integer count above zero sets that name; a later entry replaces an earlier one. */
  function ParsedTags(tags: seq<string>): map<string, int> {
    ScannedCounts(EntryPairs(tags))
  }

  /** The `for t in tags` loop that builds `parsed_tags`. */
  method ParseTagEntries(tags: seq<string>) returns (parsed: map<string, int>)
    ensures parsed == ParsedTags(tags)
  {
    parsed := map[];
    for i := 0 to |tags|
      invariant parsed == ScannedCounts(EntryPairs(tags[..i]))
    {
      assert tags[..i + 1][..i] == tags[..i];
      var parts := Split(tags[i], ',');
      if |parts| == 2 {
        ghost var raw := EntryFields(tags[i]).value;
        ScannedCountsSnoc(EntryPairs(tags[..i]), raw);
        var tagName := PyStrip(parts[0]);
        var tagCount := PyInt(PyStrip(parts[1]));
        assert PyInt(PyStrip(parts[1])) == PyInt(parts[1]) by { StripTwice(parts[1]); }
        if tagName != "" && tagCount.Some? && tagCount.value > 0 {
          parsed := parsed[tagName := tagCount.value];
        }
      }
    }
    assert tags[..|tags|] == tags;
  }

  /** Stripping twice is stripping once. */
  lemma StripTwice(s: string)
    ensures PyStrip(PyStrip(s)) == PyStrip(s)
  {
    var t := PyStrip(s);
    assert t == [] || (!IsPySpace(t[0]) && !IsPySpace(t[|t| - 1])) by {
      var d := DropWhile(s, IsPySpace);
      DropWhileEndIsPrefix(d, IsPySpace);
    }
    StripUnchanged(t, IsPySpace);
  }

  /** The kept fields are exactly those of the entries with two fields. */
  lemma {:induction false} EntryPairsMembers(tags: seq<string>, p: (string, string))
    ensures p in EntryPairs(tags) <==> exists k :: 0 <= k < |tags| && EntryFields(tags[k]) == Some(p)
    decreases |tags|
  {
    if tags != [] {
      var init := tags[..|tags| - 1];
      EntryPairsMembers(init, p);
      assert forall k :: 0 <= k < |init| ==> init[k] == tags[k];
      if EntryFields(tags[|tags| - 1]) == Some(p) {
        assert p in EntryPairs(tags);
      }
    }
  }

  /** Which entries survive: a name is in `parsed_tags` iff some entry with exactly two
      fields has that stripped name and a positive integer count. */
  lemma ParsedTagsMembers(tags: seq<string>, name: string)
    ensures name in ParsedTags(tags) <==>
              exists k :: 0 <= k < |tags| && EntryFields(tags[k]).Some? && Sets(EntryFields(tags[k]).value, name)
    ensures name in ParsedTags(tags) ==> name != "" && ParsedTags(tags)[name] > 0
  {
    var e := EntryPairs(tags);
    ScannedCountsMembers(e, name);
    if name in ParsedTags(tags) {
      var j :| 0 <= j < |e| && Sets(e[j], name);
      EntryPairsMembers(tags, e[j]);
    }
    if exists k :: 0 <= k < |tags| && EntryFields(tags[k]).Some? && Sets(EntryFields(tags[k]).value, name) {
      var k :| 0 <= k < |tags| && EntryFields(tags[k]).Some? && Sets(EntryFields(tags[k]).value, name);
      var p := EntryFields(tags[k]).value;
      EntryPairsMembers(tags, p);
      var j :| 0 <= j < |e| && e[j] == p;
    }
  }

  /** Operation 1: each parsed count is added to the existing count, or to 0. */
  function AddTags(existing: map<string, int>, parsed: map<string, int>): (r: map<string, int>)
    ensures r.Keys == existing.Keys + parsed.Keys
    ensures forall t :: t in existing && t !in parsed ==> r[t] == existing[t]
    ensures forall t :: t in parsed ==> r[t] == (if t in existing then existing[t] else 0) + parsed[t]
  {
    map t | t in existing.Keys + parsed.Keys ::
      if t in parsed then (if t in existing then existing[t] else 0) + parsed[t] else existing[t]
  }

  /** Operation 0: each parsed count is subtracted from a tag the item has, and the tag
      is dropped when nothing positive remains; tags the item lacks are ignored. */
  function RemoveTags(existing: map<string, int>, parsed: map<string, int>): (r: map<string, int>)
    ensures r.Keys <= existing.Keys
    ensures forall t :: t in existing && t !in parsed ==> t in r && r[t] == existing[t]
    ensures forall t :: t in r ==> r[t] > 0 || t !in parsed
    ensures forall t :: t in existing && t in parsed ==>
              (t in r <==> existing[t] - parsed[t] > 0) && (t in r ==> r[t] == existing[t] - parsed[t])
  {
    map t | t in existing.Keys && !(t in parsed && existing[t] - parsed[t] <= 0) ::
      if t in parsed then existing[t] - parsed[t] else existing[t]
  }

  function ChangedTags(operation: int, existing: map<string, int>, parsed: map<string, int>): map<string, int> {
    if operation == 1 then AddTags(existing, parsed) else RemoveTags(existing, parsed)
  }

  /** The update loop over `parsed_tags.items()`, changing the item's dictionary entry by
      entry. Each name is visited once, so the order of the visits does not matter. */
  method ChangeTags(operation: int, existing: map<string, int>, parsed: map<string, int>) returns (tagsDict: map<string, int>)
    ensures tagsDict == ChangedTags(operation, existing, parsed)
  {
    tagsDict := existing;
    var remaining := parsed.Keys;
    ghost var done: set<string> := {};
    if operation == 1 {
      while remaining != {}
        invariant remaining == parsed.Keys - done && done <= parsed.Keys
        invariant tagsDict.Keys == existing.Keys + done
        invariant forall t :: t in tagsDict ==>
          tagsDict[t] == if t in done then (if t in existing then existing[t] else 0) + parsed[t] else existing[t]
        decreases remaining
      {
        var tag :| tag in remaining;
        var current := if tag in tagsDict then tagsDict[tag] else 0;
        tagsDict := tagsDict[tag := current + parsed[tag]];
        remaining := remaining - {tag};
        done := done + {tag};
      }
    } else {
      while remaining != {}
        invariant remaining == parsed.Keys - done && done <= parsed.Keys
        invariant forall t :: t in tagsDict <==> t in existing && !(t in done && existing[t] - parsed[t] <= 0)
        invariant forall t :: t in tagsDict ==>
          tagsDict[t] == if t in done then existing[t] - parsed[t] else existing[t]
        decreases remaining
      {
        var tag :| tag in remaining;
        if tag in tagsDict {
          var newCount := tagsDict[tag] - parsed[tag];
          if newCount > 0 {
            tagsDict := tagsDict[tag := newCount];
          } else {
            tagsDict := tagsDict - {tag};
          }
        }
        remaining := remaining - {tag};
        done := done + {tag};
      }
    }
  }

  /** Removing what was just added restores the item's tags, as long as its counts are
      positive (a tag the item did not have disappears again). */
  lemma RemoveUndoesAdd(existing: map<string, int>, parsed: map<string, int>)
    requires forall t :: t in existing ==> existing[t] > 0
    ensures RemoveTags(AddTags(existing, parsed), parsed) == existing
  {
    var r := RemoveTags(AddTags(existing, parsed), parsed);
    assert r.Keys == existing.Keys;
  }

  /** The validated body of a `/modify-tags` request. */
  datatype ModifyRequest = ModifyRequest(urls: seq<string>, operation: int, tags: seq<string>)

  predicate AllStr(items: seq<Json>) { forall k :: 0 <= k < |items| ==> items[k].JStr? }

  function StrValues(items: seq<Json>): (r: seq<string>)
    requires AllStr(items)
    ensures Strings(r) == items
  {
    seq(|items|, k requires 0 <= k < |items| => items[k].s)
  }

  /** `url` (or `tags`) is present and a list whose every element is a string. */
  predicate StrList(j: Option<Json>) { j.Some? && j.value.JArr? && AllStr(j.value.items) }

  /** `operation in (0, 1)`: Python's `True` and `False` are equal to 1 and 0. */
  predicate OperationOk(j: Option<Json>) { j.Some? && IsPyInt(j.value) && PyIntValue(j.value) in {0, 1} }

  /** The checks of `/modify-tags` in their order: `url` a list of strings, `operation`
      0 or 1, `tags` a list of strings, and at least one well-formed entry; the first
      check that fails gives the reply. */
  function ValidateModify(body: Json): (r: Result<(ModifyRequest, map<string, int>), Response>)
    ensures !body.JObj? ==> r == Failure(Error(500, "Internal server error"))
    ensures body.JObj? && !StrList(Prop(body, "url")) ==> r == Failure(Error(400, "Invalid or missing \"url\" list"))
    ensures body.JObj? && StrList(Prop(body, "url")) && !OperationOk(Prop(body, "operation")) ==>
              r == Failure(Error(400, "Invalid or missing \"operation\", must be 0 or 1"))
    ensures (body.JObj? && StrList(Prop(body, "url")) && OperationOk(Prop(body, "operation"))
             && !StrList(Prop(body, "tags"))) ==> r == Failure(Error(400, "Invalid or missing \"tags\" list"))
    ensures r.Success? <==> body.JObj? && StrList(Prop(body, "url")) && OperationOk(Prop(body, "operation"))
                            && StrList(Prop(body, "tags"))
                            && ParsedTags(StrValues(Prop(body, "tags").value.items)) != map[]
    ensures (r.Failure? && body.JObj? && StrList(Prop(body, "url")) && OperationOk(Prop(body, "operation"))
             && StrList(Prop(body, "tags"))) ==> r == Failure(Error(400, "No valid tags to add/remove"))
    ensures r.Success? ==> Strings(r.value.0.urls) == Prop(body, "url").value.items
                           && Strings(r.value.0.tags) == Prop(body, "tags").value.items
                           && r.value.0.operation == PyIntValue(Prop(body, "operation").value)
                           && r.value.1 == ParsedTags(r.value.0.tags)
  {
    if !body.JObj? then Failure(Error(500, "Internal server error"))
    else
      var urls := Prop(body, "url");
      var operation := Prop(body, "operation");
      var tags := Prop(body, "tags");
      if !StrList(urls) then Failure(Error(400, "Invalid or missing \"url\" list"))
      else if !OperationOk(operation) then Failure(Error(400, "Invalid or missing \"operation\", must be 0 or 1"))
      else if !StrList(tags) then Failure(Error(400, "Invalid or missing \"tags\" list"))
      else
        var entries := StrValues(tags.value.items);
        var parsed := ParsedTags(entries);
        if parsed == map[] then Failure(Error(400, "No valid tags to add/remove"))
        else Success((ModifyRequest(StrValues(urls.value.items), PyIntValue(operation.value), entries), parsed))
  }

  /** The first item whose `thumbnailURL` equals `url`. */
  function FindByThumbnail(table: Table, url: string): (r: Option<nat>)
    ensures r.Some? ==> r.value < |table| && table[r.value].thumbnailURL == Some(url)
    ensures r.Some? ==> forall k :: 0 <= k < r.value ==> table[k].thumbnailURL != Some(url)
    ensures r.None? ==> forall k :: 0 <= k < |table| ==> table[k].thumbnailURL != Some(url)
  {
    if table == [] then None
    else if table[0].thumbnailURL == Some(url) then Some(0)
    else match FindByThumbnail(table[1..], url)
      case None => None
      case Some(k) => Some(k + 1)
  }

  /** The item's tags after one change (a `tags` value that is not a dictionary counts
      as empty); nothing else of the item changes. */
  function ModifyItem(item: Item, operation: int, parsed: map<string, int>): (r: Item)
    ensures r == item.(tags := r.tags)
    ensures r.tags == TagsDict(ChangedTags(operation, TagDict(item).GetOr(map[]), parsed))
  {
    item.(tags := TagsDict(ChangedTags(operation, TagDict(item).GetOr(map[]), parsed)))
  }

  /** Item `k` is the first whose thumbnail is `url`, the one `items[0]` of the scan. */
  predicate FirstWithThumbnail(table: Table, url: string, k: nat)
    requires k < |table|
  {
    table[k].thumbnailURL == Some(url) && forall j :: 0 <= j < k ==> table[j].thumbnailURL != Some(url)
  }

  /** One URL of the batch: the first item with that thumbnail gets its tags changed and
      every other item is left alone; a URL with no item is skipped and not reported. */
  function ModifyOne(table: Table, url: string, operation: int, parsed: map<string, int>): (r: (Table, bool))
    ensures |r.0| == |table|
    ensures forall k :: 0 <= k < |table| ==>
              r.0[k] == if FirstWithThumbnail(table, url, k) then ModifyItem(table[k], operation, parsed) else table[k]
    ensures r.1 <==> exists k :: 0 <= k < |table| && table[k].thumbnailURL == Some(url)
  {
    match FindByThumbnail(table, url)
    case None => (table, false)
    case Some(k) => (table[k := ModifyItem(table[k], operation, parsed)], true)
  }

  /** `n` changes applied one after the other to the same item. */
  function Repeated(item: Item, operation: int, parsed: map<string, int>, n: nat): Item
    decreases n
  {
    if n == 0 then item else Repeated(ModifyItem(item, operation, parsed), operation, parsed, n - 1)
  }

  /** The URLs of the batch that a row of the table holds as its thumbnail, in order. */
  function FoundUrls(table: Table, urls: seq<string>): (r: seq<string>)
    ensures forall u :: u in r <==> u in urls && exists k :: 0 <= k < |table| && table[k].thumbnailURL == Some(u)
    decreases |urls|
  {
    if urls == [] then []
    else (if FindByThumbnail(table, urls[0]).Some? then [urls[0]] else []) + FoundUrls(table, urls[1..])
  }

  /** How many times the batch changes item `k`: once for each occurrence of the
      thumbnail it is the first holder of. */
  function Hits(table: Table, urls: seq<string>, k: nat): nat
    requires k < |table|
  {
    if table[k].thumbnailURL.Some? && FirstWithThumbnail(table, table[k].thumbnailURL.value, k)
    then multiset(urls)[table[k].thumbnailURL.value] else 0
  }

  /** The URLs in order, each seeing the table as the earlier ones left it; the second
      component lists the URLs whose item was updated. Every thumbnail stays; item `k`
      is changed once for every occurrence in the batch of the thumbnail it is the
      first holder of, and left alone when it is the first holder of none; the URLs
      reported are exactly those some row holds as its thumbnail, in the order given. */
  function ModifyAll(table: Table, urls: seq<string>, operation: int, parsed: map<string, int>): (r: (Table, seq<string>))
    ensures |r.0| == |table|
    ensures forall k :: 0 <= k < |table| ==> r.0[k].thumbnailURL == table[k].thumbnailURL
    ensures forall k :: 0 <= k < |table| ==> r.0[k] == Repeated(table[k], operation, parsed, Hits(table, urls, k))
    ensures r.1 == FoundUrls(table, urls)
    decreases |urls|
  {
    if urls == [] then (table, [])
    else
      var (t1, changed) := ModifyOne(table, urls[0], operation, parsed);
      var (t2, rest) := ModifyAll(t1, urls[1..], operation, parsed);
      FoundUrlsIgnoresTags(t1, table, urls[1..]);
      RepeatedStep(table, urls, operation, parsed, t1, t2);
      (t2, (if changed then [urls[0]] else []) + rest)
  }

  /** Changing tags never changes a thumbnail, so the scan finds the same item before
      and after. */
  lemma {:induction false} FindIgnoresTags(a: Table, b: Table, url: string)
    requires |a| == |b| && forall k :: 0 <= k < |a| ==> a[k].thumbnailURL == b[k].thumbnailURL
    ensures FindByThumbnail(a, url) == FindByThumbnail(b, url)
    decreases |a|
  {
    if a != [] && a[0].thumbnailURL != Some(url) {
      FindIgnoresTags(a[1..], b[1..], url);
    }
  }

  lemma {:induction false} FoundUrlsIgnoresTags(a: Table, b: Table, urls: seq<string>)
    requires |a| == |b| && forall k :: 0 <= k < |a| ==> a[k].thumbnailURL == b[k].thumbnailURL
    ensures FoundUrls(a, urls) == FoundUrls(b, urls)
    decreases |urls|
  {
    if urls != [] {
      FindIgnoresTags(a, b, urls[0]);
      FoundUrlsIgnoresTags(a, b, urls[1..]);
    }
  }

  lemma HitsStep(table: Table, t1: Table, urls: seq<string>, k: nat)
    requires urls != [] && k < |table| && |t1| == |table|
    requires forall j :: 0 <= j < |table| ==> t1[j].thumbnailURL == table[j].thumbnailURL
    ensures Hits(table, urls, k) == (if FirstWithThumbnail(table, urls[0], k) then 1 else 0) + Hits(t1, urls[1..], k)
  {
    assert urls == [urls[0]] + urls[1..];
    assert multiset(urls) == multiset{urls[0]} + multiset(urls[1..]);
    var th := table[k].thumbnailURL;
    if th.Some? {
      assert FirstWithThumbnail(t1, th.value, k) <==> FirstWithThumbnail(table, th.value, k);
    }
  }

  /** The first URL's change followed by the rest of the batch is the whole batch's
      count of changes, item by item. */
  lemma RepeatedStep(table: Table, urls: seq<string>, operation: int, parsed: map<string, int>, t1: Table, t2: Table)
    requires urls != [] && t1 == ModifyOne(table, urls[0], operation, parsed).0 && |t2| == |t1|
    requires forall k :: 0 <= k < |t1| ==> t2[k] == Repeated(t1[k], operation, parsed, Hits(t1, urls[1..], k))
    ensures forall k :: 0 <= k < |table| ==> t2[k] == Repeated(table[k], operation, parsed, Hits(table, urls, k))
  {
    forall k | 0 <= k < |table|
      ensures t2[k] == Repeated(table[k], operation, parsed, Hits(table, urls, k))
    {
      HitsStep(table, t1, urls, k);
    }
  }

  // ------------------------------------------------------------------ delete-files

  /** `body.get('urls') or body.get('thumbnailURL')`: `urls` when it is present and
      truthy, otherwise `thumbnailURL` (possibly absent). */
  function Chosen(body: Json): (r: Option<Json>)
    requires body.JObj?
    ensures Prop(body, "urls").Some? && PyTruthy(Prop(body, "urls").value) ==> r == Prop(body, "urls")
    ensures !(Prop(body, "urls").Some? && PyTruthy(Prop(body, "urls").value)) ==> r == Prop(body, "thumbnailURL")
  {
    var given := Prop(body, "urls");
    if given.Some? && PyTruthy(given.value) then given else Prop(body, "thumbnailURL")
  }

  /** The chosen value as a list: a single string is wrapped in a list, a list is taken
      as it is, and anything else (absent, null, a number, an object) is a 400. */
  function DeleteTargets(body: Json): (r: Result<seq<Json>, Response>)
    requires body.JObj?
    ensures r.Failure? <==> !(Chosen(body).Some? && (Chosen(body).value.JStr? || Chosen(body).value.JArr?))
    ensures r.Failure? ==> r.error == Error(400, "Invalid or missing \"urls\" or \"thumbnailURL\"")
    ensures Chosen(body).Some? && Chosen(body).value.JStr? ==> r == Success([Chosen(body).value])
    ensures Chosen(body).Some? && Chosen(body).value.JArr? ==> r == Success(Chosen(body).value.items)
  {
    match Chosen(body)
    case Some(JStr(s)) => Success([JStr(s)])
    case Some(JArr(items)) => Success(items)
    case _ => Failure(Error(400, "Invalid or missing \"urls\" or \"thumbnailURL\""))
  }

  /** A single URL string is taken as a one-element list, under either key. */
  lemma DeleteTargetsWrapString(body: Json, url: string)
    requires body.JObj?
    requires Prop(body, "urls") == Some(JStr(url)) && url != ""
    ensures DeleteTargets(body) == Success([JStr(url)])
  {
  }

  predicate HasUrl(item: Item, url: string) {
    item.thumbnailURL == Some(url) || item.originalURL == Some(url) || item.annotatedURL == Some(url)
  }

  /** The items the scan for `url` finds, in scan order. */
  function ItemsWithUrl(table: Table, url: string): (r: Table)
    ensures forall it :: it in r <==> it in table && HasUrl(it, url)
  {
    if table == [] then []
    else
      var rest := ItemsWithUrl(table[..|table| - 1], url);
      var it := table[|table| - 1];
      assert table == table[..|table| - 1] + [it];
      if HasUrl(it, url) then rest + [it] else rest
  }

  function ItemsWithoutUrl(table: Table, url: string): (r: Table)
    ensures forall it :: it in r <==> it in table && !HasUrl(it, url)
  {
    if table == [] then []
    else
      var rest := ItemsWithoutUrl(table[..|table| - 1], url);
      var it := table[|table| - 1];
      assert table == table[..|table| - 1] + [it];
      if HasUrl(it, url) then rest else rest + [it]
  }

  /** The bucket and key of each stored URL that parses, for `s3.delete_object`. */
  function ObjectsOf(urls: seq<string>): seq<(string, string)> {
    if urls == [] then []
    else
      var rest := ObjectsOf(urls[1..]);
      match BucketAndKey(urls[0])
      case Some(bk) => [bk] + rest
      case None => rest
  }

  function ObjectsOfItems(items: Table): seq<(string, string)> {
    if items == [] then [] else ObjectsOf(PresentUrls(items[0])) + ObjectsOfItems(items[1..])
  }

  /** Entry `k` of the list names a URL to delete: a string that is not blank. */
  predicate Requested(urls: seq<Json>, k: nat)
    requires k < |urls|
  {
    urls[k].JStr? && PyStrip(urls[k].s) != ""
  }

  /** An item survives the request when it holds none of the requested URLs. */
  predicate Survives(it: Item, urls: seq<Json>) {
    forall k :: 0 <= k < |urls| && Requested(urls, k) ==> !HasUrl(it, urls[k].s)
  }

  /** The items that survive, in table order. */
  function Kept(table: Table, urls: seq<Json>): (r: Table)
    ensures forall it :: it in r <==> it in table && Survives(it, urls)
  {
    if table == [] then []
    else
      var rest := Kept(table[..|table| - 1], urls);
      var it := table[|table| - 1];
      assert table == table[..|table| - 1] + [it];
      if Survives(it, urls) then rest + [it] else rest
  }

  /** Each string that is not blank removes every item holding it in any URL field,
      together with that item's stored files; other entries are skipped. The table left
      behind is exactly the items holding none of the requested URLs, in their
      original order. */
  function DeleteAll(table: Table, urls: seq<Json>): (r: (Table, seq<(string, string)>))
    ensures |r.0| <= |table|
    ensures r.0 == Kept(table, urls)
    decreases |urls|
  {
    if urls == [] then KeptAll(table, urls); (table, [])
    else
      KeptAfterFirst(table, urls);
      if !Requested(urls, 0) then DeleteAll(table, urls[1..])
      else
        var url := urls[0].s;
        var found := ItemsWithUrl(table, url);
        assert |ItemsWithoutUrl(table, url)| <= |table| by { WithoutUrlShorter(table, url); }
        var (t, objects) := DeleteAll(ItemsWithoutUrl(table, url), urls[1..]);
        (t, ObjectsOfItems(found) + objects)
  }

  lemma {:induction false} WithoutUrlShorter(table: Table, url: string)
    ensures |ItemsWithoutUrl(table, url)| <= |table|
  {
    if table != [] {
      WithoutUrlShorter(table[..|table| - 1], url);
    }
  }

  /** Survival against a list is survival against its first entry (when that entry is
      requested) and against the rest. */
  lemma SurvivesSplit(it: Item, urls: seq<Json>)
    requires urls != []
    ensures Survives(it, urls) <==> (Requested(urls, 0) ==> !HasUrl(it, urls[0].s)) && Survives(it, urls[1..])
  {
    if Survives(it, urls[1..]) && (Requested(urls, 0) ==> !HasUrl(it, urls[0].s)) {
      forall k | 0 <= k < |urls| && Requested(urls, k)
        ensures !HasUrl(it, urls[k].s)
      {
        if k > 0 {
          assert urls[1..][k - 1] == urls[k];
          assert Requested(urls[1..], k - 1);
        }
      }
    }
    if Survives(it, urls) {
      forall k | 0 <= k < |urls| - 1 && Requested(urls[1..], k)
        ensures !HasUrl(it, urls[1..][k].s)
      {
        assert urls[1..][k] == urls[k + 1];
        assert Requested(urls, k + 1);
      }
    }
  }

  /** Removing the holders of the first requested URL and then keeping the survivors of
      the rest keeps the survivors of the whole list. */
  lemma {:induction false} KeptAfterFirst(table: Table, urls: seq<Json>)
    requires urls != []
    ensures Kept(table, urls)
            == Kept(if Requested(urls, 0) then ItemsWithoutUrl(table, urls[0].s) else table, urls[1..])
    decreases |table|
  {
    if table != [] {
      var init := table[..|table| - 1];
      var it := table[|table| - 1];
      KeptAfterFirst(init, urls);
      SurvivesSplit(it, urls);
      if Requested(urls, 0) {
        var w := ItemsWithoutUrl(init, urls[0].s);
        if !HasUrl(it, urls[0].s) {
          assert (w + [it])[..|w + [it]| - 1] == w;
        }
      }
    }
  }

  lemma {:induction false} KeptAll(table: Table, urls: seq<Json>)
    requires urls == []
    ensures Kept(table, urls) == table
  {
    if table != [] {
      KeptAll(table[..|table| - 1], urls);
    }
  }

  lemma {:induction false} ObjectsOfItemsMembers(items: Table, o: (string, string))
    ensures o in ObjectsOfItems(items) <==> exists it :: it in items && o in ObjectsOf(PresentUrls(it))
  {
    if items != [] {
      ObjectsOfItemsMembers(items[1..], o);
      var here := ObjectsOf(PresentUrls(items[0]));
      assert ObjectsOfItems(items) == here + ObjectsOfItems(items[1..]);
      if exists it :: it in items && o in ObjectsOf(PresentUrls(it)) {
        var it :| it in items && o in ObjectsOf(PresentUrls(it));
        if it != items[0] {
          assert it in items[1..];
        }
      }
    }
  }

  /** The stored files asked to be deleted are those of the items that do not survive. */
  lemma {:induction false} DeleteAllObjects(table: Table, urls: seq<Json>, o: (string, string))
    ensures o in DeleteAll(table, urls).1 <==>
              exists it :: it in table && !Survives(it, urls) && o in ObjectsOf(PresentUrls(it))
    decreases |urls|
  {
    if urls != [] {
      forall it | it in table { SurvivesSplit(it, urls); }
      if Requested(urls, 0) {
        var w := ItemsWithoutUrl(table, urls[0].s);
        DeleteAllObjects(w, urls[1..], o);
        ObjectsOfItemsMembers(ItemsWithUrl(table, urls[0].s), o);
      } else {
        DeleteAllObjects(table, urls[1..], o);
      }
    }
  }

  // ------------------------------------------------------------------ /search

  /** The criteria of a search, in the order the handler tries them. */
  datatype SearchRoute =
    | ById(id: Json)
    | ByThumbnail(url: Json)
    | ByCounts(counts: map<string, int>)
    | ByTags(raw: Json)
    | NoCriteria

  /** `tag_counts`: parsed from `tag{i}`/`count{i}` for a GET; otherwise, or when that
      yields nothing, a parameter set whose values are all integers is itself the query
      (a GET's values are strings, so this only happens for a POST body). */
  function CountsOf(isGet: bool, query: map<string, string>, params: map<string, Json>): (r: map<string, int>)
    ensures !isGet && (forall k :: k in params ==> IsPyInt(params[k])) ==> r.Keys == params.Keys
    ensures !isGet && !(forall k :: k in params ==> IsPyInt(params[k])) ==> r == map[]
  {
    var parsed := if isGet then TagCountQuery(query) else map[];
    if parsed == map[] && forall k :: k in params ==> IsPyInt(params[k]) then
      map k | k in params.Keys :: PyIntValue(params[k])
    else parsed
  }

  /** Precedence: `id`, then `thumbnailURL`, then a non-empty tag-count query, then
      `tag`; otherwise no criteria. */
  function SearchRouteOf(isGet: bool, query: map<string, string>, params: map<string, Json>): (r: SearchRoute)
    ensures "id" in params ==> r == ById(params["id"])
    ensures "id" !in params && "thumbnailURL" in params ==> r == ByThumbnail(params["thumbnailURL"])
    ensures r.ByCounts? <==> "id" !in params && "thumbnailURL" !in params && CountsOf(isGet, query, params) != map[]
    ensures r.ByTags? <==> "id" !in params && "thumbnailURL" !in params && CountsOf(isGet, query, params) == map[]
                           && "tag" in params
    ensures r.ByCounts? ==> r.counts == CountsOf(isGet, query, params)
  {
    if "id" in params then ById(params["id"])
    else if "thumbnailURL" in params then ByThumbnail(params["thumbnailURL"])
    else
      var counts := CountsOf(isGet, query, params);
      if counts != map[] then ByCounts(counts)
      else if "tag" in params then ByTags(params["tag"])
      else NoCriteria
  }

  /** A GET's query parameters as values. */
  function QueryValues(query: map<string, string>): (r: map<string, Json>)
    ensures r.Keys == query.Keys && forall k :: k in r ==> r[k] == JStr(query[k])
  {
    map k | k in query.Keys :: JStr(query[k])
  }

  predicate IsQuote(c: char) { c == '"' }

  /** The first item with a given key. */
  function FindById(table: Table, id: string): (r: Option<Item>)
    ensures r.Some? ==> r.value in table && r.value.uniqueId == id
    ensures r.None? ==> forall it :: it in table ==> it.uniqueId != id
  {
    if table == [] then None
    else if table[0].uniqueId == id then Some(table[0])
    else FindById(table[1..], id)
  }

  function TagsJson(t: TagsAttr): Json {
    match t
    case TagsAbsent => JNull
    case TagsDict(m) => JObj(map k | k in m.Keys :: JNum(m[k]))
    case TagsOther(raw) => raw
  }

  /** Search by key: the key with surrounding double quotes removed; the item's
      presigned thumbnail and its tags. */
  function SearchById(env: Env, table: Table, id: Json): (r: Response)
    ensures !id.JStr? ==> r == Error(400, "Invalid id parameter")
    ensures id.JStr? && FindById(table, StripWith(id.s, IsQuote)).None? ==> r == Error(404, "Item not found")
    ensures id.JStr? && FindById(table, StripWith(id.s, IsQuote)).Some? ==>
              var item := FindById(table, StripWith(id.s, IsQuote)).value;
              r == Response(200, JObj(map["thumbnailURL" := if item.thumbnailURL.None? then JNull
                                                          else JStr(PresignedOrOriginal(env, item.thumbnailURL.value)),
                                          "tags" := TagsJson(item.tags)]))
  {
    if !id.JStr? then Error(400, "Invalid id parameter")
    else match FindById(table, StripWith(id.s, IsQuote))
      case None => Error(404, "Item not found")
      case Some(item) =>
        var thumb := match item.thumbnailURL
          case None => JNull
          case Some(u) => JStr(PresignedOrOriginal(env, u));
        Response(200, JObj(map["thumbnailURL" := thumb, "tags" := TagsJson(item.tags)]))
  }

  /** Search by thumbnail: the presigned original of the first item with that thumbnail. */
  function SearchByThumbnail(env: Env, table: Table, url: Json): (r: Response)
    ensures !(url.JStr? && url.s != "") ==> r == Error(400, "Invalid or missing thumbnailURL")
    ensures url.JStr? && url.s != "" && FindByThumbnail(table, url.s).None? ==> r == Error(404, "Thumbnail not found")
    ensures r.Response? && r.status == 200 ==>
              var k := FindByThumbnail(table, url.s).value;
              Present(table[k].originalURL)
              && r.body == JObj(map["originalURL" := JStr(PresignedOrOriginal(env, table[k].originalURL.value))])
    ensures url.JStr? && url.s != "" && FindByThumbnail(table, url.s).Some? ==>
              var k := FindByThumbnail(table, url.s).value;
              r == if Present(table[k].originalURL)
                   then Response(200, JObj(map["originalURL" := JStr(PresignedOrOriginal(env, table[k].originalURL.value))]))
                   else Error(404, "Original URL not found")
  {
    if !(url.JStr? && url.s != "") then Error(400, "Invalid or missing thumbnailURL")
    else match FindByThumbnail(table, url.s)
      case None => Error(404, "Thumbnail not found")
      case Some(k) =>
        var original := table[k].originalURL;
        if !Present(original) then Error(404, "Original URL not found")
        else Response(200, JObj(map["originalURL" := JStr(PresignedOrOriginal(env, original.value))]))
  }

  function Links(links: seq<string>): Response {
    Response(200, JObj(map["links" := JArr(Strings(links))]))
  }

  // ------------------------------------------------------------------ the handler

  /** What one invocation leaves behind: the response, the table, and the S3 objects it
      asked to delete. */
  datatype Outcome = Outcome(response: Response, table: Table, deletedObjects: seq<(string, string)>)

  function Reply(r: Response, table: Table): Outcome { Outcome(r, table, []) }

  /** `/query-by-file`: the stand-in detector always reports `crow` and `pigeon`, and an
      item matches when its tags hold both names. */
  function FileLinks(env: Env, table: Table): seq<string> {
    if table == [] then []
    else
      var item := table[|table| - 1];
      FileLinks(env, table[..|table| - 1])
      + (if TagDict(item).Some? && "crow" in TagDict(item).value && "pigeon" in TagDict(item).value
         then ItemLinks(env, item) else [])
  }

  ghost function HandleSearch(env: Env, table: Table, e: Event): Response {
    var isGet := e.httpMethod == "GET";
    var params := if isGet then Some(JObj(QueryValues(e.query)))
                  else if e.httpMethod == "POST" then LoadBody(e.body)
                  else None;
    if !isGet && e.httpMethod != "POST" then Error(405, "Method " + e.httpMethod + " not allowed")
    else if params.None? then Error(400, "Invalid JSON body")
    else if !params.value.JObj? then Crash
    else match SearchRouteOf(isGet, e.query, params.value.fields)
      case ById(id) => SearchById(env, table, id)
      case ByThumbnail(url) => SearchByThumbnail(env, table, url)
      case ByCounts(counts) => Links(CountLinks(env, table, counts))
      case ByTags(raw) =>
        (match RequestedTags(env, raw)
         case None => Error(400, "Invalid tag parameter")
         case Some(requested) =>
           if requested == [] then Error(400, "Missing or empty tag parameter")
           else Links(TagLinks(env, table, requested)))
      case NoCriteria => Error(400, "Missing valid parameters (id, tag, tag+count, thumbnailURL, or file)")
  }

  /** `lambda_handler`: the preflight answer, then the three POST routes, then `/search`;
      any other path is a 404. A body that is not JSON, or not an object, is a 500 on the
      POST routes (the exception is caught there). */
  ghost function Handle(env: Env, table: Table, e: Event): (o: Outcome)
    ensures e.httpMethod == "OPTIONS" ==> o == Reply(Preflight, table)
    ensures o.deletedObjects != [] ==> e.path == "/delete-files"
    ensures o.table != table ==> e.httpMethod == "POST" && e.path in {"/delete-files", "/modify-tags"}
  {
    if e.httpMethod == "OPTIONS" then Reply(Preflight, table)
    else if e.path == "/delete-files" && e.httpMethod == "POST" then
      match LoadBody(e.body)
      case None => Reply(Error(500, "Internal server error"), table)
      case Some(body) =>
        if !body.JObj? then Reply(Error(500, "Internal server error"), table)
        else match DeleteTargets(body)
          case Failure(r) => Reply(r, table)
          case Success(urls) =>
            var (t, objects) := DeleteAll(table, urls);
            Outcome(Message("Deletion completed"), t, objects)
    else if e.path == "/modify-tags" && e.httpMethod == "POST" then
      match LoadBody(e.body)
      case None => Reply(Error(500, "Internal server error"), table)
      case Some(body) =>
        match ValidateModify(body)
        case Failure(r) => Reply(r, table)
        case Success((req, parsed)) =>
          var (t, updated) := ModifyAll(table, req.urls, req.operation, parsed);
          Outcome(Response(200, JObj(map["updated" := JArr(Strings(PresignAll(env, updated)))])), t, [])
    else if e.path == "/query-by-file" && e.httpMethod == "POST" then
      match LoadBody(e.body)
      case None => Reply(Error(500, "Internal server error"), table)
      case Some(body) =>
        if !body.JObj? then Reply(Error(500, "Internal server error"), table)
        else
          var file := Prop(body, "file");
          if !(file.Some? && file.value.JStr? && file.value.s != "") then
            Reply(Error(400, "Missing or invalid \"file\" field"), table)
          else if !env.decodes(file.value.s) then Reply(Error(500, "Internal server error"), table)
          else Reply(Links(FileLinks(env, table)), table)
    else if e.path != "/search" then Reply(Error(404, "Route not found"), table)
    else Reply(HandleSearch(env, table, e), table)
  }

  /** A rejected `/modify-tags` request changes nothing: every check happens before the
      first URL is looked up. */
  lemma ModifyValidationFirst(env: Env, table: Table, e: Event)
    requires e.httpMethod == "POST" && e.path == "/modify-tags"
    requires LoadBody(e.body).Some? && ValidateModify(LoadBody(e.body).value).Failure?
    ensures Handle(env, table, e).table == table
    ensures Handle(env, table, e).response.Response? && Handle(env, table, e).response.status in {400, 500}
  {
  }

  /** A GET with an `id` is a search by key whatever else it carries. */
  lemma SearchByIdFirst(env: Env, table: Table, e: Event)
    requires e.httpMethod == "GET" && e.path == "/search" && "id" in e.query
    ensures Handle(env, table, e).response == SearchById(env, table, JStr(e.query["id"]))
  {
  }

  /** A GET whose `tag{i}`/`count{i}` pairs yield a query is answered with the tag-count
      scan, even when it also has a `tag` parameter. */
  lemma CountsBeforeTags(env: Env, table: Table, e: Event)
    requires e.httpMethod == "GET" && e.path == "/search"
    requires "id" !in e.query && "thumbnailURL" !in e.query && TagCountQuery(e.query) != map[]
    ensures Handle(env, table, e).response == Links(CountLinks(env, table, TagCountQuery(e.query)))
  {
    assert Handle(env, table, e).response == HandleSearch(env, table, e);
    SearchByCounts(env, table, e);
  }

  lemma SearchByCounts(env: Env, table: Table, e: Event)
    requires e.httpMethod == "GET"
    requires "id" !in e.query && "thumbnailURL" !in e.query && TagCountQuery(e.query) != map[]
    ensures HandleSearch(env, table, e) == Links(CountLinks(env, table, TagCountQuery(e.query)))
  {
    var params := QueryValues(e.query);
    assert CountsOf(true, e.query, params) == TagCountQuery(e.query);
    assert SearchRouteOf(true, e.query, params) == ByCounts(TagCountQuery(e.query));
  }

  /** A POST body whose values are all integers is a tag-count query on its own. */
  lemma IntBodyIsCountQuery(env: Env, table: Table, e: Event, fields: map<string, Json>)
    requires e.httpMethod == "POST" && e.path == "/search" && e.body == Parsed(JObj(fields))
    requires "id" !in fields && "thumbnailURL" !in fields && fields != map[]
    requires forall k :: k in fields ==> fields[k].JNum?
    ensures HandleSearch(env, table, e) ==
            Links(CountLinks(env, table, map k | k in fields.Keys :: fields[k].n))
  {
    assert LoadBody(e.body) == Some(JObj(fields));
    var counts := CountsOf(false, e.query, fields);
    assert counts == map k | k in fields.Keys :: fields[k].n;
    assert counts != map[] by {
      var k :| k in fields;
      assert k in counts;
    }
    assert SearchRouteOf(false, e.query, fields) == ByCounts(counts);
  }
}
