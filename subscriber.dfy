/** The stream Lambda that keeps a user's e-mail subscription to the alert topic in line
    with the bird tags the user follows. */
module Subscriber {
  import opened Wrappers
  import opened Text
  import opened DynamoStream

  const TopicArn: string := "arn:aws:sns:us-east-1:651706776121:bird-tag-notifications"

  /** `get_value`: the value of a string, number or flag attribute; any other type, or a
      missing attribute, gives `None`. Numbers come back as their text. */
  function GetValue(image: Image, key: string): (r: PyValue)
    ensures key !in image ==> r == PyNone
    ensures key in image && image[key].S? ==> r == PyStr(image[key].s)
    ensures key in image && image[key].N? ==> r == PyStr(image[key].n)
    ensures key in image && image[key].BOOL? ==> r == PyBool(image[key].b)
    ensures r.PyNone? <==> key !in image || !(image[key].S? || image[key].N? || image[key].BOOL?)
  {
    if key !in image then PyNone
    else match image[key]
      case S(s) => PyStr(s)
      case N(n) => PyStr(n)
      case BOOL(b) => PyBool(b)
      case _ => PyNone
  }

  predicate AllS(items: seq<Attr>) { forall k :: 0 <= k < |items| ==> items[k].S? }

  /** `get_list`: the lower-cased strings of a list attribute; a list holding anything
      but strings, or any other attribute, gives the empty list. */
  function GetList(image: Image, key: string): (r: seq<string>)
    ensures key in image && image[key].L? && AllS(image[key].items) ==>
              |r| == |image[key].items| && forall k :: 0 <= k < |r| ==> r[k] == Lower(image[key].items[k].s)
    ensures !(key in image && image[key].L? && AllS(image[key].items)) ==> r == []
  {
    if key in image && image[key].L? && AllS(image[key].items) then
      var items := image[key].items;
      seq(|items|, k requires 0 <= k < |items| => Lower(items[k].s))
    else []
  }

  /** The filter policy a subscription is created with: `{"tags": [...]}`, lower-cased. */
  function FilterPolicy(tags: seq<string>): (r: seq<string>)
    ensures |r| == |tags| && forall k :: 0 <= k < |r| ==> r[k] == Lower(tags[k])
  {
    seq(|tags|, k requires 0 <= k < |tags| => Lower(tags[k]))
  }

  /** The tags `get_list` returns are already lower-case, so the policy lists them
      unchanged. */
  lemma PolicyOfStoredTags(image: Image, key: string)
    ensures FilterPolicy(GetList(image, key)) == GetList(image, key)
  {
    var tags := GetList(image, key);
    forall k | 0 <= k < |tags|
      ensures FilterPolicy(tags)[k] == tags[k]
    {
      LowerTwice(image[key].items[k].s);
    }
  }

  /** The calls the handler makes, in order. */
  datatype Action =
    | Subscribe(endpoint: PyValue, policy: seq<string>)
    | Unsubscribe(subscription: PyValue)
    | SaveArn(email: PyValue, arn: string)
    | RemoveArn(email: PyValue)

  /** `subscribes(email, tags)` is the ARN `sns.subscribe` answers with, if any. */
  type SnsReply = (PyValue, seq<string>) -> Option<string>

  /** A subscription, followed by saving its ARN when the answer has one. */
  function SubscribeAndSave(sns: SnsReply, email: PyValue, tags: seq<string>): (r: seq<Action>)
    ensures 1 <= |r| <= 2 && r[0] == Subscribe(email, FilterPolicy(tags))
    ensures |r| == 2 <==> sns(email, tags).Some? && sns(email, tags).value != ""
  {
    var arn := sns(email, tags);
    [Subscribe(email, FilterPolicy(tags))] + (if arn.Some? && arn.value != "" then [SaveArn(email, arn.value)] else [])
  }

  function SetOf(s: seq<string>): set<string> { set x | x in s }

  /** The record's e-mail address: the new image's when it has a non-empty one,
      otherwise the old image's. */
  function Email(record: Record): PyValue {
    Or(GetValue(record.newImage, "email"), GetValue(record.oldImage, "email"))
  }

  /** The record's subscription ARN, chosen the same way. */
  function Arn(record: Record): PyValue {
    Or(GetValue(record.newImage, "subscriptionArn"), GetValue(record.oldImage, "subscriptionArn"))
  }

  /** What the handler does for one stream record. The e-mail address and the ARN come
      from the new image when it has a non-empty value there, otherwise from the old. */
  function RecordActions(sns: SnsReply, record: Record): (r: seq<Action>)
    ensures record.eventName == "INSERT" ==>
              r == SubscribeAndSave(sns, Email(record), GetList(record.newImage, "tags"))
    ensures record.eventName == "MODIFY" ==>
              r == if SetOf(GetList(record.newImage, "tags")) == SetOf(GetList(record.oldImage, "tags")) then []
                   else (if Truthy(Arn(record)) then [Unsubscribe(Arn(record))] else [])
                        + SubscribeAndSave(sns, Email(record), GetList(record.newImage, "tags"))
    ensures record.eventName == "REMOVE" ==>
              r == if Truthy(Arn(record)) then [Unsubscribe(Arn(record)), RemoveArn(Email(record))] else []
    ensures record.eventName !in {"INSERT", "MODIFY", "REMOVE"} ==> r == []
  {
    var email := Email(record);
    var newTags := GetList(record.newImage, "tags");
    var oldTags := GetList(record.oldImage, "tags");
    var arn := Arn(record);
    if record.eventName == "INSERT" then
      SubscribeAndSave(sns, email, newTags)
    else if record.eventName == "MODIFY" then
      if SetOf(newTags) != SetOf(oldTags) then
        (if Truthy(arn) then [Unsubscribe(arn)] else []) + SubscribeAndSave(sns, email, newTags)
      else []
    else if record.eventName == "REMOVE" then
      if Truthy(arn) then [Unsubscribe(arn), RemoveArn(email)] else []
    else []
  }

  function AllActions(sns: SnsReply, records: seq<Record>): seq<Action> {
    if records == [] then []
    else AllActions(sns, records[..|records| - 1]) + RecordActions(sns, records[|records| - 1])
  }

  /** `lambda_handler`: the records in order. */
  method HandleRecords(sns: SnsReply, records: seq<Record>) returns (actions: seq<Action>)
    ensures actions == AllActions(sns, records)
  {
    actions := [];
    for i := 0 to |records|
      invariant actions == AllActions(sns, records[..i])
    {
      assert records[..i + 1][..i] == records[..i];
      actions := actions + RecordActions(sns, records[i]);
    }
    assert records[..|records|] == records;
  }

  /** An update that leaves the set of followed tags alone does nothing, whatever the
      order or repetition of the list; one that changes it re-subscribes. */
  lemma ModifyActsIffTagsChange(sns: SnsReply, record: Record)
    requires record.eventName == "MODIFY"
    ensures RecordActions(sns, record) == [] <==>
              SetOf(GetList(record.newImage, "tags")) == SetOf(GetList(record.oldImage, "tags"))
    ensures RecordActions(sns, record) != [] ==>
              Subscribe(Or(GetValue(record.newImage, "email"), GetValue(record.oldImage, "email")),
                        GetList(record.newImage, "tags")) in RecordActions(sns, record)
  {
    PolicyOfStoredTags(record.newImage, "tags");
  }

  /** A changed subscription drops the old one first, when there is one. */
  lemma ModifyUnsubscribesFirst(sns: SnsReply, record: Record)
    requires record.eventName == "MODIFY"
    requires SetOf(GetList(record.newImage, "tags")) != SetOf(GetList(record.oldImage, "tags"))
    requires Truthy(GetValue(record.newImage, "subscriptionArn")) || Truthy(GetValue(record.oldImage, "subscriptionArn"))
    ensures RecordActions(sns, record) ==
              [Unsubscribe(Arn(record))] + SubscribeAndSave(sns, Email(record), GetList(record.newImage, "tags"))
  {
  }

  /** A deleted user loses the subscription and the stored ARN, and nothing is
      subscribed; without an ARN nothing happens. */
  lemma RemoveOnlyUnsubscribes(sns: SnsReply, record: Record)
    requires record.eventName == "REMOVE"
    ensures forall a :: a in RecordActions(sns, record) ==> !a.Subscribe? && !a.SaveArn?
    ensures Truthy(Arn(record)) ==> RecordActions(sns, record) == [Unsubscribe(Arn(record)), RemoveArn(Email(record))]
    ensures RecordActions(sns, record) != [] <==>
              Truthy(GetValue(record.newImage, "subscriptionArn")) || Truthy(GetValue(record.oldImage, "subscriptionArn"))
  {
  }

  /** SNS delivers a message to a subscription when its `tag` attribute is one of the
      policy's values. */
  predicate Delivers(policy: seq<string>, tagAttribute: string) {
    tagAttribute in policy
  }

  /** A user following a tag in any letter case is notified of a sighting of that tag
      in any letter case, because both sides lower-case it. */
  lemma FollowedTagIsDelivered(image: Image, followed: string, sighted: string)
    requires "tags" in image && image["tags"].L? && AllS(image["tags"].items)
    requires S(followed) in image["tags"].items
    requires Lower(followed) == Lower(sighted)
    ensures Delivers(FilterPolicy(GetList(image, "tags")), Lower(sighted))
  {
    var items := image["tags"].items;
    var k :| 0 <= k < |items| && items[k] == S(followed);
    PolicyOfStoredTags(image, "tags");
    assert GetList(image, "tags")[k] == Lower(followed);
  }
}
