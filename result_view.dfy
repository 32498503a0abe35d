/** How the search page lays out a result list (frontend/src/BirdSearchApp.jsx): the
    URLs are grouped by the subject named at the start of their file name, each
    group keeps images, videos and audio apart, and the image row depends on
    whether any URL of the whole result is a thumbnail or an annotated copy. */
module ResultView {
  import opened Wrappers
  import opened Text
  import opened Json

  // ================================================================ names inside a URL

  /** `url.split("/").pop().split("?")[0]` */
  function FileName(url: string): (r: string)
    ensures '/' !in r && '?' !in r
  {
    var pieces := Split(url, '/');
    Split(pieces[|pieces| - 1], '?')[0]
  }

  /** The last piece of a split is the text after the last separator. */
  lemma {:induction false} SplitLastPiece(p: string, c: char, n: string)
    requires c !in n
    ensures var parts := Split(p + [c] + n, c);
            parts[|parts| - 1] == n
    decreases |p|
  {
    var s := p + [c] + n;
    assert s[|p|] == c;
    var i := IndexOf(s, c).value;
    if i == |p| {
      assert s[i + 1..] == n;
      SplitSingle(n, c);
    } else {
      assert s[i + 1..] == p[i + 1..] + [c] + n;
      SplitLastPiece(p[i + 1..], c, n);
    }
  }

  /** The file name of `<path>/<name><query>` is `name` when the name has neither `/`
      nor `?` and the query is empty or starts with `?` and holds no `/`. */
  lemma FileNameOf(path: string, name: string, query: string)
    requires '/' !in name && '?' !in name && '/' !in query
    requires query == "" || query[0] == '?'
    ensures FileName(path + "/" + name + query) == name
  {
    assert path + "/" + name + query == path + ['/'] + (name + query);
    SplitLastPiece(path, '/', name + query);
    if query == "" {
      assert name + query == name;
      SplitSingle(name, '?');
    } else {
      assert (name + query)[..|name|] == name;
      SplitAt(name + query, '?', |name|);
    }
  }

  predicate IsSubjectSeparator(c: char) { c == '-' || c == '_' }

  /** `filename.split(/[-_]/)[0]`: the text before the first `-` or `_`. */
  function BeforeSeparator(s: string): (r: string)
    ensures |r| <= |s| && r == s[..|r|]
    ensures forall k :: 0 <= k < |r| ==> !IsSubjectSeparator(r[k])
    ensures |r| < |s| ==> IsSubjectSeparator(s[|r|])
  {
    if s == [] || IsSubjectSeparator(s[0]) then [] else [s[0]] + BeforeSeparator(s[1..])
  }

  /** The group a URL is shown under: the start of its file name, or `Unknown` when
      the file name starts with a separator or is empty. */
  function SubjectOf(url: string): (r: string)
    ensures r != ""
    ensures r == "Unknown" || r == BeforeSeparator(FileName(url))
  {
    var s := BeforeSeparator(FileName(url));
    if s == "" then "Unknown" else s
  }

  // ================================================================ kinds

  datatype MediaKind = ImageKind | VideoKind | AudioKind | HiddenVideo

  /** Decided on the lower-cased file name: `.mp4` is a video, except one whose name
      contains `thumbnail`, which is shown nowhere; `.mp3`, `.wav`, `.ogg` are audio;
      everything else is taken for an image. */
  function KindOf(url: string): MediaKind {
    var lower := Lower(FileName(url));
    if EndsWith(lower, ".mp4") then
      (if Contains(lower, "thumbnail") then HiddenVideo else VideoKind)
    else if EndsWith(lower, ".mp3") || EndsWith(lower, ".wav") || EndsWith(lower, ".ogg") then AudioKind
    else ImageKind
  }

  // ================================================================ grouping

  datatype Group = Group(subject: string, images: seq<string>, videos: seq<string>, audios: seq<string>)

  function EmptyGroup(subject: string): Group { Group(subject, [], [], []) }

  /** The list of a group that holds URLs of kind `k`; hidden videos have none. */
  function ListOf(g: Group, k: MediaKind): seq<string> {
    match k
    case ImageKind => g.images
    case VideoKind => g.videos
    case AudioKind => g.audios
    case HiddenVideo => []
  }

  /** Appends `url` to the list of its kind, and leaves the rest of the group alone. */
  function Place(g: Group, url: string): (r: Group)
    ensures r.subject == g.subject
    ensures forall k :: k != HiddenVideo ==>
      ListOf(r, k) == if k == KindOf(url) then ListOf(g, k) + [url] else ListOf(g, k)
  {
    match KindOf(url)
    case ImageKind => g.(images := g.images + [url])
    case VideoKind => g.(videos := g.videos + [url])
    case AudioKind => g.(audios := g.audios + [url])
    case HiddenVideo => g
  }

  /** The first group with subject `s`. */
  function FindGroup(groups: seq<Group>, s: string): (r: Option<nat>)
    ensures r.Some? ==> r.value < |groups| && groups[r.value].subject == s
    ensures r.Some? ==> forall k :: 0 <= k < r.value ==> groups[k].subject != s
    ensures r.None? <==> forall k :: 0 <= k < |groups| ==> groups[k].subject != s
  {
    if groups == [] then None
    else if groups[0].subject == s then Some(0)
    else match FindGroup(groups[1..], s)
      case None => None
      case Some(k) => Some(k + 1)
  }

  /** One step of the grouping loop: the group is created on the first URL of its
      subject, even when that URL is a hidden video. */
  function AddUrl(groups: seq<Group>, url: string): seq<Group> {
    var s := SubjectOf(url);
    match FindGroup(groups, s)
    case None => groups + [Place(EmptyGroup(s), url)]
    case Some(j) => groups[j := Place(groups[j], url)]
  }

  /** The groups built from `urls`, in the order their subjects first appear. */
  function Grouped(urls: seq<string>): seq<Group> {
    if urls == [] then [] else AddUrl(Grouped(urls[..|urls| - 1]), urls[|urls| - 1])
  }

  /** `grouped[animalName]`: the position of the group of subject `s`, or `|groups|`
      when there is none yet. */
  method LookupGroup(groups: seq<Group>, s: string) returns (j: nat)
    ensures FindGroup(groups, s).None? ==> j == |groups|
    ensures FindGroup(groups, s).Some? ==> j == FindGroup(groups, s).value
  {
    j := 0;
    while j < |groups| && groups[j].subject != s
      invariant 0 <= j <= |groups|
      invariant forall k :: 0 <= k < j ==> groups[k].subject != s
    {
      j := j + 1;
    }
  }

  /** The names every object of the page inherits from `Object.prototype`. A subject
      with one of these names finds an inherited function in `grouped`, which is truthy,
      so no group is created for it. */
  predicate Inherited(s: string) {
    s in {"constructor", "hasOwnProperty", "isPrototypeOf", "propertyIsEnumerable",
          "toLocaleString", "toString", "valueOf", "__defineGetter__", "__defineSetter__",
          "__lookupGetter__", "__lookupSetter__", "__proto__"}
  }

  /** The URL is pushed onto the missing list of an inherited name, which throws: every
      kind but a hidden video is pushed. */
  predicate Pushes(url: string) { Inherited(SubjectOf(url)) && KindOf(url) != HiddenVideo }

  predicate Crashes(urls: seq<string>) { exists u :: u in urls && Pushes(u) }

  /** The URLs whose subject gets a group of its own, in order. */
  function Visible(urls: seq<string>): (r: seq<string>)
    ensures forall u :: u in r <==> u in urls && !Inherited(SubjectOf(u))
  {
    if urls == [] then []
    else
      var rest := Visible(urls[..|urls| - 1]);
      var u := urls[|urls| - 1];
      assert urls == urls[..|urls| - 1] + [u];
      if Inherited(SubjectOf(u)) then rest else rest + [u]
  }

  /** The grouping loop. The dictionary of the page is a list of groups searched by
      subject; it keeps insertion order, as the page's iteration does. The loop throws
      (`None`) exactly when some URL with an inherited subject is pushed; otherwise the
      groups are those of the other URLs. */
  method GroupResults(urls: seq<string>) returns (r: Option<seq<Group>>)
    ensures r.None? <==> Crashes(urls)
    ensures r.Some? ==> r.value == Grouped(Visible(urls))
  {
    var groups := [];
    for i := 0 to |urls|
      invariant groups == Grouped(Visible(urls[..i]))
      invariant !Crashes(urls[..i])
    {
      var url := urls[i];
      var s := SubjectOf(url);
      VisibleStep(urls, i);
      CrashesStep(urls, i);
      if Pushes(url) {
        assert url in urls;
        return None;
      }
      if !Inherited(s) {
        var j := LookupGroup(groups, s);
        if j == |groups| {
          groups := groups + [Place(EmptyGroup(s), url)];
        } else {
          groups := groups[j := Place(groups[j], url)];
        }
      }
    }
    assert urls[..|urls|] == urls;
    r := Some(groups);
  }

  /** One more URL joins the visible ones unless its subject is inherited, and extends
      their grouping by one step. */
  lemma VisibleStep(urls: seq<string>, i: nat)
    requires i < |urls|
    ensures Visible(urls[..i + 1]) == if Inherited(SubjectOf(urls[i])) then Visible(urls[..i]) else Visible(urls[..i]) + [urls[i]]
    ensures Grouped(Visible(urls[..i]) + [urls[i]]) == AddUrl(Grouped(Visible(urls[..i])), urls[i])
  {
    var prefix := urls[..i + 1];
    assert prefix[..i] == urls[..i] && prefix[i] == urls[i];
    var v := Visible(urls[..i]);
    assert (v + [urls[i]])[..|v|] == v;
  }

  /** One more URL makes the page throw exactly when it is pushed under an inherited
      name. */
  lemma CrashesStep(urls: seq<string>, i: nat)
    requires i < |urls|
    ensures Crashes(urls[..i + 1]) <==> Crashes(urls[..i]) || Pushes(urls[i])
  {
    var prefix := urls[..i + 1];
    assert prefix == urls[..i] + [urls[i]];
    InInitOrLast(prefix);
  }

  /** Leaving out the URLs of inherited subjects leaves the lists of every other
      subject as they were. */
  lemma {:induction false} UrlsOfVisible(urls: seq<string>, s: string, k: MediaKind)
    requires !Inherited(s)
    ensures UrlsOf(Visible(urls), s, k) == UrlsOf(urls, s, k)
    decreases |urls|
  {
    if urls != [] {
      var init := urls[..|urls| - 1];
      var u := urls[|urls| - 1];
      UrlsOfVisible(init, s, k);
      if !Inherited(SubjectOf(u)) {
        var v := Visible(init);
        assert (v + [u])[..|v|] == v;
      }
    }
  }

  /** When the page does not throw, each list of each group shown is exactly the URLs
      of the result with that subject and kind, in order, and no group has an
      inherited name. */
  lemma ShownLists(urls: seq<string>, i: nat, k: MediaKind)
    requires i < |Grouped(Visible(urls))| && k != HiddenVideo
    ensures !Inherited(Grouped(Visible(urls))[i].subject)
    ensures ListOf(Grouped(Visible(urls))[i], k) == UrlsOf(urls, Grouped(Visible(urls))[i].subject, k)
  {
    var v := Visible(urls);
    var g := Grouped(v);
    GroupedSubjects(v);
    DistinctSubjectsProps(v);
    assert g[i].subject in DistinctSubjects(v) by { assert Subjects(g)[i] == g[i].subject; }
    GroupedLists(v, i, k);
    UrlsOfVisible(urls, g[i].subject, k);
  }

  // ---------------------------------------------------------------- reference definitions

  function Subjects(groups: seq<Group>): (r: seq<string>)
    ensures |r| == |groups| && forall i :: 0 <= i < |r| ==> r[i] == groups[i].subject
  {
    seq(|groups|, i requires 0 <= i < |groups| => groups[i].subject)
  }

  /** The subjects of `urls` without repetitions, in order of first appearance. */
  function DistinctSubjects(urls: seq<string>): seq<string> {
    if urls == [] then []
    else
      var d := DistinctSubjects(urls[..|urls| - 1]);
      var s := SubjectOf(urls[|urls| - 1]);
      if s in d then d else d + [s]
  }

  /** The URLs among `urls` with subject `s` and kind `k`, in order. */
  function UrlsOf(urls: seq<string>, s: string, k: MediaKind): seq<string> {
    if urls == [] then []
    else
      var rest := UrlsOf(urls[..|urls| - 1], s, k);
      var u := urls[|urls| - 1];
      if SubjectOf(u) == s && KindOf(u) == k then rest + [u] else rest
  }

  /** Membership in a non-empty sequence: in the part before the last element, or the last. */
  lemma InInitOrLast<T>(xs: seq<T>)
    requires xs != []
    ensures forall x :: x in xs <==> x in xs[..|xs| - 1] || x == xs[|xs| - 1]
  {
    assert xs == xs[..|xs| - 1] + [xs[|xs| - 1]];
  }

  lemma {:induction false} DistinctSubjectsProps(urls: seq<string>)
    ensures var d := DistinctSubjects(urls);
            (forall i, j :: 0 <= i < j < |d| ==> d[i] != d[j])
            && (forall u :: u in urls ==> SubjectOf(u) in d)
            && (forall x :: x in d ==> exists u :: u in urls && SubjectOf(u) == x)
    decreases |urls|
  {
    if urls != [] {
      var init := urls[..|urls| - 1];
      DistinctSubjectsProps(init);
      InInitOrLast(urls);
    }
  }

  /** The groups appear once per subject, in order of first appearance. */
  lemma {:induction false} GroupedSubjects(urls: seq<string>)
    ensures Subjects(Grouped(urls)) == DistinctSubjects(urls)
    decreases |urls|
  {
    if urls != [] {
      var init := urls[..|urls| - 1];
      var url := urls[|urls| - 1];
      var g := Grouped(init);
      GroupedSubjects(init);
      var s := SubjectOf(url);
      assert Grouped(urls) == AddUrl(g, url);
      match FindGroup(g, s)
      case None =>
        assert s !in Subjects(g);
        SubjectsAppend(g, Place(EmptyGroup(s), url));
      case Some(j) =>
        assert s in Subjects(g) by { assert Subjects(g)[j] == s; }
        SubjectsUpdate(g, j, Place(g[j], url));
    }
  }

  lemma SubjectsAppend(g: seq<Group>, x: Group)
    ensures Subjects(g + [x]) == Subjects(g) + [x.subject]
  {
  }

  lemma SubjectsUpdate(g: seq<Group>, j: nat, x: Group)
    requires j < |g| && x.subject == g[j].subject
    ensures Subjects(g[j := x]) == Subjects(g)
  {
  }

  lemma UrlsOfOther(urls: seq<string>, u: string, s: string, k: MediaKind)
    requires SubjectOf(u) != s || KindOf(u) != k
    ensures UrlsOf(urls + [u], s, k) == UrlsOf(urls, s, k)
  {
    assert (urls + [u])[..|urls|] == urls;
  }

  lemma UrlsOfSame(urls: seq<string>, u: string)
    ensures UrlsOf(urls + [u], SubjectOf(u), KindOf(u)) == UrlsOf(urls, SubjectOf(u), KindOf(u)) + [u]
  {
    assert (urls + [u])[..|urls|] == urls;
  }

  lemma {:induction false} UrlsOfAbsent(urls: seq<string>, s: string, k: MediaKind)
    requires forall u :: u in urls ==> SubjectOf(u) != s
    ensures UrlsOf(urls, s, k) == []
    decreases |urls|
  {
    if urls != [] {
      UrlsOfAbsent(urls[..|urls| - 1], s, k);
    }
  }

  /** Each list of each group is exactly the URLs of that subject and kind, in input
      order: every URL that is not a hidden video is shown once, in its own
      subject's group, and nowhere else. */
  lemma {:induction false} GroupedLists(urls: seq<string>, i: nat, k: MediaKind)
    requires i < |Grouped(urls)| && k != HiddenVideo
    ensures ListOf(Grouped(urls)[i], k) == UrlsOf(urls, Grouped(urls)[i].subject, k)
    decreases |urls|, 1
  {
    if FindGroup(Grouped(urls[..|urls| - 1]), SubjectOf(urls[|urls| - 1])).None? {
      GroupedListsNewSubject(urls, i, k);
    } else {
      GroupedListsKnownSubject(urls, i, k);
    }
  }

  lemma {:induction false} GroupedListsNewSubject(urls: seq<string>, i: nat, k: MediaKind)
    requires urls != [] && FindGroup(Grouped(urls[..|urls| - 1]), SubjectOf(urls[|urls| - 1])).None?
    requires i < |Grouped(urls)| && k != HiddenVideo
    ensures ListOf(Grouped(urls)[i], k) == UrlsOf(urls, Grouped(urls)[i].subject, k)
    decreases |urls|, 0
  {
    var init := urls[..|urls| - 1];
    var url := urls[|urls| - 1];
    var g := Grouped(init);
    var s := SubjectOf(url);
    assert Grouped(urls) == g + [Place(EmptyGroup(s), url)];
    if i < |g| {
      GroupedLists(init, i, k);
      assert g[i].subject != s;
    } else {
      NewGroupLists(urls, k);
    }
  }

  /** The group a URL opens holds that URL alone in the list of its kind. */
  lemma NewGroupLists(urls: seq<string>, k: MediaKind)
    requires urls != [] && FindGroup(Grouped(urls[..|urls| - 1]), SubjectOf(urls[|urls| - 1])).None?
    requires k != HiddenVideo
    ensures var url := urls[|urls| - 1];
            ListOf(Place(EmptyGroup(SubjectOf(url)), url), k) == UrlsOf(urls, SubjectOf(url), k)
  {
    var init := urls[..|urls| - 1];
    var url := urls[|urls| - 1];
    UngroupedSubjectAbsent(init, SubjectOf(url));
    UrlsOfAbsent(init, SubjectOf(url), k);
  }

  /** A subject without a group is the subject of none of the URLs. */
  lemma UngroupedSubjectAbsent(urls: seq<string>, s: string)
    requires FindGroup(Grouped(urls), s).None?
    ensures forall u :: u in urls ==> SubjectOf(u) != s
  {
    var g := Grouped(urls);
    GroupedSubjects(urls);
    DistinctSubjectsProps(urls);
    forall u | u in urls ensures SubjectOf(u) != s {
      assert SubjectOf(u) in Subjects(g);
    }
  }

  lemma {:induction false} GroupedListsKnownSubject(urls: seq<string>, i: nat, k: MediaKind)
    requires urls != [] && FindGroup(Grouped(urls[..|urls| - 1]), SubjectOf(urls[|urls| - 1])).Some?
    requires i < |Grouped(urls)| && k != HiddenVideo
    ensures ListOf(Grouped(urls)[i], k) == UrlsOf(urls, Grouped(urls)[i].subject, k)
    decreases |urls|, 0
  {
    var init := urls[..|urls| - 1];
    var url := urls[|urls| - 1];
    var g := Grouped(init);
    var s := SubjectOf(url);
    var j := FindGroup(g, s).value;
    assert Grouped(urls) == g[j := Place(g[j], url)];
    assert i < |g|;
    GroupedLists(init, i, k);
    if i != j {
      GroupedSubjects(init);
      DistinctSubjectsProps(init);
      assert Subjects(g)[i] != Subjects(g)[j];
    }
  }

  lemma {:induction false} UrlsOfMembers(urls: seq<string>, s: string, k: MediaKind, u: string)
    ensures u in UrlsOf(urls, s, k) <==> u in urls && SubjectOf(u) == s && KindOf(u) == k
    decreases |urls|
  {
    if urls != [] {
      var init := urls[..|urls| - 1];
      UrlsOfMembers(init, s, k, u);
      InInitOrLast(urls);
    }
  }

  /** A hidden video is in no list of any group. */
  lemma HiddenVideoNotShown(urls: seq<string>, i: nat, u: string)
    requires i < |Grouped(urls)| && KindOf(u) == HiddenVideo
    ensures u !in Grouped(urls)[i].images && u !in Grouped(urls)[i].videos && u !in Grouped(urls)[i].audios
  {
    var g := Grouped(urls)[i];
    GroupedLists(urls, i, ImageKind);
    GroupedLists(urls, i, VideoKind);
    GroupedLists(urls, i, AudioKind);
    UrlsOfMembers(urls, g.subject, ImageKind, u);
    UrlsOfMembers(urls, g.subject, VideoKind, u);
    UrlsOfMembers(urls, g.subject, AudioKind, u);
  }

  // ================================================================ markers

  predicate IsThumbnail(url: string) { Contains(url, "thumbnail") }
  predicate IsAnnotated(url: string) { Contains(url, "annotated") }
  predicate IsMarked(url: string) { IsThumbnail(url) || IsAnnotated(url) }

  /** `hasThumbnailsOrAnnotated`: some URL of the whole result carries a marker
      (compared case-sensitively). */
  predicate HasMarkers(result: seq<string>) {
    exists i :: 0 <= i < |result| && IsMarked(result[i])
  }

  /** The page-level `originalURL`: the sole URL of a one-element result without a
      marker. It is computed but never displayed. */
  function OriginalUrl(result: seq<string>): (r: Option<string>)
    ensures r.Some? <==> |result| == 1 && !IsMarked(result[0])
    ensures r.Some? ==> r.value == result[0]
  {
    if |result| == 1 && !IsMarked(result[0]) then Some(result[0]) else None
  }

  /** The two flags never both hold. */
  lemma OriginalUrlExcludesMarkers(result: seq<string>)
    ensures OriginalUrl(result).Some? ==> !HasMarkers(result)
    ensures HasMarkers(result) && |result| == 1 ==> OriginalUrl(result).None?
  {
  }

  // ================================================================ the image row

  datatype Card = Card(src: string, href: string, caption: string)

  datatype ImageRow = Cards(cards: seq<Card>) | OriginalCard(url: string) | NoImages

  /** `images.find(...)`: the first image of the group whose URL contains
      `raw_uploads` and whose file name equals `name` exactly. */
  function FindRaw(images: seq<string>, name: string): (r: Option<string>)
    ensures r.Some? ==> r.value in images && Contains(r.value, "raw_uploads") && FileName(r.value) == name
    ensures r.None? <==> forall k :: 0 <= k < |images| ==> !(Contains(images[k], "raw_uploads") && FileName(images[k]) == name)
  {
    if images == [] then None
    else if Contains(images[0], "raw_uploads") && FileName(images[0]) == name then Some(images[0])
    else
      var r := FindRaw(images[1..], name);
      assert forall k :: 1 <= k < |images| ==> images[k] == images[1..][k - 1];
      r
  }

  /** The card shown for a marked image: a thumbnail links to its raw upload when
      there is one and to itself otherwise. */
  function MarkedCard(images: seq<string>, url: string): Card {
    var raw := if IsThumbnail(url) then FindRaw(images, FileName(url)) else None;
    Card(url, if IsThumbnail(url) && raw.Some? then raw.value else url,
         if IsThumbnail(url) then "Thumbnail" else if IsAnnotated(url) then "Annotated" else "Image")
  }

  /** `images.filter(marked).map(card)` */
  function MarkedCards(images: seq<string>, shown: seq<string>): (r: seq<Card>)
    ensures forall c :: c in r ==> IsMarked(c.src) && c.src in shown
  {
    if shown == [] then []
    else
      var rest := MarkedCards(images, shown[..|shown| - 1]);
      var u := shown[|shown| - 1];
      if IsMarked(u) then rest + [MarkedCard(images, u)] else rest
  }

  function PlainCards(images: seq<string>): (r: seq<Card>)
    ensures |r| == |images|
    ensures forall k :: 0 <= k < |r| ==> r[k] == Card(images[k], images[k], "Original Image")
  {
    seq(|images|, k requires 0 <= k < |images| => Card(images[k], images[k], "Original Image"))
  }

  /** The image row of one group. `originalURL` is the value the page destructures
      from the group. */
  function ImageRowOf(g: Group, marked: bool, originalURL: Option<string>): ImageRow {
    if |g.images| > 0 then
      (if marked then Cards(MarkedCards(g.images, g.images)) else Cards(PlainCards(g.images)))
    else if originalURL.Some? && originalURL.value != "" then OriginalCard(originalURL.value)
    else NoImages
  }

  /** A group has no `originalURL` field, so the destructured value is always absent. */
  function GroupOriginalUrl(g: Group): Option<string> { None }

  function ShownImageRow(g: Group, marked: bool): ImageRow {
    ImageRowOf(g, marked, GroupOriginalUrl(g))
  }

  /** The card for a lone original image is never shown. */
  lemma OriginalCardNeverShown(g: Group, marked: bool)
    ensures !ShownImageRow(g, marked).OriginalCard?
    ensures |g.images| == 0 ==> ShownImageRow(g, marked) == NoImages
  {
  }

  function Sources(cards: seq<Card>): seq<string> {
    if cards == [] then [] else Sources(cards[..|cards| - 1]) + [cards[|cards| - 1].src]
  }

  function Marked(urls: seq<string>): seq<string> {
    if urls == [] then []
    else
      var rest := Marked(urls[..|urls| - 1]);
      var u := urls[|urls| - 1];
      if IsMarked(u) then rest + [u] else rest
  }

  /** With the flag set, the row shows exactly the group's marked images, in order,
      under a `Thumbnail` or `Annotated` label. */
  lemma {:induction false} MarkedCardsShowMarked(images: seq<string>, shown: seq<string>)
    ensures Sources(MarkedCards(images, shown)) == Marked(shown)
    ensures forall c :: c in MarkedCards(images, shown) ==> c.caption == "Thumbnail" || c.caption == "Annotated"
    decreases |shown|
  {
    if shown != [] {
      var init := shown[..|shown| - 1];
      MarkedCardsShowMarked(images, init);
      var rest := MarkedCards(images, init);
      var u := shown[|shown| - 1];
      if IsMarked(u) {
        assert (rest + [MarkedCard(images, u)])[..|rest|] == rest;
      }
    }
  }

  /** A thumbnail links to the first raw upload of its group with the same file name,
      or to itself when there is none; any other card links to itself. */
  lemma MarkedCardLink(images: seq<string>, url: string)
    ensures var c := MarkedCard(images, url);
            c.src == url
            && (IsThumbnail(url) && FindRaw(images, FileName(url)).Some? ==> c.href == FindRaw(images, FileName(url)).value)
            && (IsThumbnail(url) && FindRaw(images, FileName(url)).None? ==> c.href == url)
            && (!IsThumbnail(url) ==> c.href == url)
  {
  }

  // ================================================================ videos and audio

  /** The download link under a video: annotated copies and raw uploads have one
      (tested on the lower-cased URL), other videos none. */
  function VideoDownloadLabel(url: string): (r: Option<string>)
    ensures r.Some? <==> Contains(Lower(url), "annotated") || Contains(Lower(url), "raw_uploads")
  {
    var lower := Lower(url);
    if Contains(lower, "annotated") then Some("Download Annotated Video")
    else if Contains(lower, "raw_uploads") then Some("Download Original Video")
    else None
  }

  // ================================================================ the whole result area

  datatype GroupView = GroupView(subject: string, imageRow: ImageRow,
                                 videos: seq<(string, Option<string>)>, audios: seq<string>)

  datatype ResultArea =
    | NothingShown      // no result yet (or a falsy one)
    | NoResultsFound    // an empty list
    | ShownGroups(groups: seq<GroupView>)
    | RenderFails       // the page throws: not a list of strings, or an inherited subject

  function VideoRow(videos: seq<string>): (r: seq<(string, Option<string>)>)
    ensures |r| == |videos| && forall k :: 0 <= k < |r| ==> r[k] == (videos[k], VideoDownloadLabel(videos[k]))
  {
    seq(|videos|, k requires 0 <= k < |videos| => (videos[k], VideoDownloadLabel(videos[k])))
  }

  function ViewOf(g: Group, marked: bool): GroupView {
    GroupView(g.subject, ShownImageRow(g, marked), VideoRow(g.videos), g.audios)
  }

  function ViewAll(groups: seq<Group>, marked: bool): (r: seq<GroupView>)
    ensures |r| == |groups| && forall k :: 0 <= k < |r| ==> r[k] == ViewOf(groups[k], marked)
  {
    seq(|groups|, k requires 0 <= k < |groups| => ViewOf(groups[k], marked))
  }

  predicate AllStrings(items: seq<Json>) { forall k :: 0 <= k < |items| ==> items[k].JStr? }

  function Texts(items: seq<Json>): (r: seq<string>)
    requires AllStrings(items)
    ensures |r| == |items| && forall k :: 0 <= k < |r| ==> items[k] == JStr(r[k])
  {
    seq(|items|, k requires 0 <= k < |items| => items[k].s)
  }

  /** What the result area shows for the current result. A truthy value that is not an
      array has no `some` method, an entry that is not a string has no `split`, and a
      URL pushed under an inherited name has no list, so all three make the page throw;
      a falsy result shows nothing. */
  function ResultAreaOf(result: Json): (a: ResultArea)
    ensures !JsTruthy(result) ==> a == NothingShown
    ensures a == NoResultsFound <==> result == JArr([])
    ensures a == RenderFails <==>
              JsTruthy(result) && (!result.JArr? || !AllStrings(result.items) || Crashes(Texts(result.items)))
    ensures a.ShownGroups? <==>
              result.JArr? && result.items != [] && AllStrings(result.items) && !Crashes(Texts(result.items))
    ensures a.ShownGroups? ==>
              a.groups == ViewAll(Grouped(Visible(Texts(result.items))), HasMarkers(Texts(result.items)))
  {
    if !JsTruthy(result) then NothingShown
    else if !result.JArr? then RenderFails
    else if !AllStrings(result.items) then RenderFails
    else if result.items == [] then NoResultsFound
    else
      var urls := Texts(result.items);
      if Crashes(urls) then RenderFails
      else ShownGroups(ViewAll(Grouped(Visible(urls)), HasMarkers(urls)))
  }

  // ================================================================ examples

  /** A thumbnail is paired with its raw upload only on identical file names: with
      `crow-1.jpg` and `crow-1-thumbnail.jpg` the thumbnail links to itself. */
  lemma ThumbnailNeedsIdenticalName(images: seq<string>, thumb: string)
    requires IsThumbnail(thumb)
    requires forall k :: 0 <= k < |images| ==> FileName(images[k]) != FileName(thumb)
    ensures MarkedCard(images, thumb) == Card(thumb, thumb, "Thumbnail")
  {
  }
}
