/** The account page's alert form: the user types bird tags separated by commas and the
    page sends them to `POST /sns-alert`. */
module UserAccount {
  import opened Wrappers
  import opened Text
  import opened Json
  import SearchApp
  import TagsUpdater

  /** `valuesArray`: the input split at commas, each piece trimmed, empty pieces
      dropped. */
  function ValuesArray(input: string): (r: seq<string>)
    ensures forall k :: 0 <= k < |r| ==> r[k] != "" && ',' !in r[k] && JsTrim(r[k]) == r[k]
    ensures forall x :: x in r <==> x != "" && exists p :: p in Split(input, ',') && x == JsTrim(p)
  {
    var pieces := Split(input, ',');
    var trimmed := SearchApp.TrimAll(pieces);
    TrimmedPieces(pieces);
    SearchApp.DropEmpty(trimmed)
  }

  /** The trimmed pieces hold no comma and are trimmed already, and every trimmed piece
      is among them. */
  lemma TrimmedPieces(pieces: seq<string>)
    requires forall k :: 0 <= k < |pieces| ==> ',' !in pieces[k]
    ensures forall x :: x in SearchApp.TrimAll(pieces) ==> ',' !in x && JsTrim(x) == x
    ensures forall p :: p in pieces ==> JsTrim(p) in SearchApp.TrimAll(pieces)
  {
    var trimmed := SearchApp.TrimAll(pieces);
    forall x | x in trimmed
      ensures ',' !in x && JsTrim(x) == x
    {
      var j :| 0 <= j < |trimmed| && trimmed[j] == x;
      TrimKeepsOut(pieces[j], ',');
      TrimTwice(pieces[j]);
    }
    forall p | p in pieces
      ensures JsTrim(p) in trimmed
    {
      var j :| 0 <= j < |pieces| && pieces[j] == p;
      assert trimmed[j] == JsTrim(p);
    }
  }

  /** Trimming only removes characters. */
  lemma TrimKeepsOut(s: string, c: char)
    requires c !in s
    ensures c !in JsTrim(s)
  {
    var d := DropWhile(s, IsJsSpace);
    DropWhileIsSuffix(s, IsJsSpace);
    DropWhileEndIsPrefix(d, IsJsSpace);
    assert forall x :: x in d ==> x in s;
    assert forall x :: x in JsTrim(s) ==> x in d;
  }

  lemma TrimTwice(s: string)
    ensures JsTrim(JsTrim(s)) == JsTrim(s)
  {
    var t := JsTrim(s);
    var d := DropWhile(s, IsJsSpace);
    DropWhileEndIsPrefix(d, IsJsSpace);
    StripUnchanged(t, IsJsSpace);
  }

  function Strings(values: seq<string>): (r: seq<Json>)
    ensures |r| == |values| && forall k :: 0 <= k < |r| ==> r[k] == JStr(values[k])
  {
    seq(|values|, k requires 0 <= k < |values| => JStr(values[k]))
  }

  /** The request body: the signed-in user's e-mail, left out when the user has none,
      and the values. */
  function SubmitBody(email: Option<string>, values: seq<string>): (body: Json)
    ensures body.JObj? && Prop(body, "values") == Some(JArr(Strings(values)))
    ensures Prop(body, "email") == if email.Some? then Some(JStr(email.value)) else None
  {
    var fields := map["values" := JArr(Strings(values))];
    JObj(if email.Some? then fields["email" := JStr(email.value)] else fields)
  }

  /** What `fetch` gives back: a network failure, or a reply whose body is JSON or not
      (`parseError` is the message `response.json()` throws then). */
  datatype FetchResult =
    | NetworkError(message: string)
    | HttpReply(ok: bool, body: Option<Json>, parseError: string)

  const EmptyInputText: string := "Please enter at least one value."
  const SubmittedText: string := "Values submitted successfully!"

  /** The page's form state. */
  class AlertForm {
    var inputValues: string
    var submitting: bool
    var submitSuccess: Option<string>
    var submitError: Option<string>
    var updatedTags: Option<Json>

    constructor()
      ensures inputValues == "" && !submitting
      ensures submitSuccess.None? && submitError.None? && updatedTags.None?
    {
      inputValues := "";
      submitting := false;
      submitSuccess := None;
      submitError := None;
      updatedTags := None;
    }

    /** `handleSubmit` up to the request: the messages are cleared; input with no
        value is refused without a request. */
    method HandleSubmit(email: Option<string>) returns (body: Option<Json>)
      modifies this
      ensures body.Some? <==> ValuesArray(old(inputValues)) != []
      ensures body.Some? ==> body.value == SubmitBody(email, ValuesArray(inputValues)) && submitting
      ensures body.None? ==> submitError == Some(EmptyInputText) && submitting == old(submitting)
      ensures body.Some? ==> submitError.None?
      ensures submitSuccess.None? && updatedTags.None? && inputValues == old(inputValues)
    {
      submitSuccess := None;
      submitError := None;
      updatedTags := None;
      var values := ValuesArray(inputValues);
      if values == [] {
        submitError := Some(EmptyInputText);
        return None;
      }
      submitting := true;
      body := Some(SubmitBody(email, values));
    }

    /** The rest of `handleSubmit`: a failed reply shows its `message` (or a fixed
        text), a good one shows success, keeps `data.tags || []` and clears the input;
        either way the request is over. A reply whose JSON is `null` has no fields to
        read: the browser's type error (`typeErrorMessage`) is shown instead, after the
        success text when the reply was good. */
    method SubmitDone(result: FetchResult, typeErrorMessage: string)
      modifies this
      ensures !submitting
      ensures result.HttpReply? && result.ok && result.body.Some? && result.body.value != JNull ==>
                submitSuccess == Some(SubmittedText) && inputValues == "" && submitError == old(submitError)
                && updatedTags == Some(match Prop(result.body.value, "tags")
                                       case Some(t) => if JsTruthy(t) then t else JArr([])
                                       case None => JArr([]))
      ensures result.HttpReply? && result.ok && result.body == Some(JNull) ==>
                submitSuccess == Some(SubmittedText) && submitError == Some(typeErrorMessage)
                && inputValues == old(inputValues) && updatedTags == old(updatedTags)
      ensures result.NetworkError? ==> submitError == Some(result.message)
      ensures result.HttpReply? && result.body.None? ==> submitError == Some(result.parseError)
      ensures result.HttpReply? && !result.ok && result.body == Some(JNull) ==> submitError == Some(typeErrorMessage)
      ensures result.HttpReply? && !result.ok && result.body.Some? && result.body.value != JNull ==>
                submitError == Some(match Prop(result.body.value, "message")
                                    case Some(m) => if JsTruthy(m) then JsText(m) else "Failed to submit data"
                                    case None => "Failed to submit data")
      ensures !(result.HttpReply? && result.ok && result.body.Some?) ==>
                inputValues == old(inputValues) && submitSuccess == old(submitSuccess) && updatedTags == old(updatedTags)
    {
      match result {
      case NetworkError(message) =>
        submitError := Some(message);
      case HttpReply(ok, body, parseError) =>
        if body.None? {
          submitError := Some(parseError);
        } else if !ok {
          if body.value == JNull {
            submitError := Some(typeErrorMessage);
          } else {
            var message := Prop(body.value, "message");
            submitError := Some(if message.Some? && JsTruthy(message.value) then JsText(message.value) else "Failed to submit data");
          }
        } else {
          submitSuccess := Some(SubmittedText);
          if body.value == JNull {
            submitError := Some(typeErrorMessage);
          } else {
            var tags := Prop(body.value, "tags");
            updatedTags := Some(if tags.Some? && JsTruthy(tags.value) then tags.value else JArr([]));
            inputValues := "";
          }
        }
      }
      submitting := false;
    }
  }

  /** A request the page sends for a signed-in user always passes the Lambda's checks,
      and afterwards the user follows every value typed. The reply lists the tags
      exactly when no number was stored for the address before; otherwise it is the
      500 for the `Decimal` the table reads back. */
  lemma SubmittedValuesAreStored(prefs: TagsUpdater.Preferences, email: string, input: string)
    requires email != "" && ValuesArray(input) != []
    ensures var e := TagsUpdater.Event("POST", "/sns-alert", TagsUpdater.Parsed(SubmitBody(Some(email), ValuesArray(input))));
            var o := TagsUpdater.Handle(prefs, e, None);
            email in o.preferences
            && (forall v :: v in ValuesArray(input) ==> JStr(v) in o.preferences[email])
            && (o.reply.Updated? <==> !TagsUpdater.HoldsNumber(TagsUpdater.Stored(prefs, email)))
            && (!o.reply.Updated? ==> o.reply == TagsUpdater.Respond(500, TagsUpdater.DecimalError, map[]))
  {
    var values := ValuesArray(input);
    var body := SubmitBody(Some(email), values);
    assert forall k :: 0 <= k < |Strings(values)| ==> TagsUpdater.Hashable(Strings(values)[k]);
    TagsUpdater.HandleStores(prefs, TagsUpdater.Event("POST", "/sns-alert", TagsUpdater.Parsed(body)), email, Strings(values));
    forall v | v in values
      ensures JStr(v) in Strings(values)
    {
      var k :| 0 <= k < |values| && values[k] == v;
      assert Strings(values)[k] == JStr(v);
    }
  }

  /** Every stored tag is a string, as the page itself only ever sends strings. */
  predicate OnlyStrings(prefs: TagsUpdater.Preferences) {
    forall a, v :: a in prefs && v in prefs[a] ==> v.JStr?
  }

  /** While only the page writes to the table, each of its requests is answered with
      the updated tags. */
  lemma PageRequestsAreAnswered(prefs: TagsUpdater.Preferences, email: string, input: string)
    requires OnlyStrings(prefs)
    requires email != "" && ValuesArray(input) != []
    ensures var e := TagsUpdater.Event("POST", "/sns-alert", TagsUpdater.Parsed(SubmitBody(Some(email), ValuesArray(input))));
            TagsUpdater.Handle(prefs, e, None).reply.Updated?
  {
    SubmittedValuesAreStored(prefs, email, input);
    assert !TagsUpdater.HoldsNumber(TagsUpdater.Stored(prefs, email)) by {
      forall v | v in TagsUpdater.Stored(prefs, email)
        ensures v.JStr?
      {
        assert email in prefs && v in prefs[email];
      }
    }
  }

  /** The page's requests keep every stored tag a string. */
  lemma PageStoresOnlyStrings(prefs: TagsUpdater.Preferences, email: string, input: string)
    requires OnlyStrings(prefs)
    requires email != "" && ValuesArray(input) != []
    ensures var e := TagsUpdater.Event("POST", "/sns-alert", TagsUpdater.Parsed(SubmitBody(Some(email), ValuesArray(input))));
            OnlyStrings(TagsUpdater.Handle(prefs, e, None).preferences)
  {
    var values := ValuesArray(input);
    var e := TagsUpdater.Event("POST", "/sns-alert", TagsUpdater.Parsed(SubmitBody(Some(email), values)));
    assert forall k :: 0 <= k < |Strings(values)| ==> TagsUpdater.Hashable(Strings(values)[k]);
    TagsUpdater.HandleStores(prefs, e, email, Strings(values));
    var after := TagsUpdater.Handle(prefs, e, None).preferences;
    assert TagsUpdater.Address(e) == Some(email);
    forall a: string, v: Json | a in after && v in after[a]
      ensures v.JStr?
    {
      if a != email {
        TagsUpdater.HandleOnlyAdds(prefs, e, None, a);
      } else if v !in TagsUpdater.Stored(prefs, email) {
        var k :| 0 <= k < |Strings(values)| && Strings(values)[k] == v;
      }
    }
  }
}
