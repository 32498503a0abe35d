/** The Lambda behind `POST /sns-alert`: it adds the tags a user wants alerts for to the
    ones already stored for that e-mail address. */
module TagsUpdater {
  import opened Wrappers
  import opened Json

  /** The stored preferences: the followed tags of each e-mail address. A list of tags
      is kept as the set of its values. */
  type Preferences = map<string, set<Json>>

  /** The request body as the event carries it. A `body` that is present but `null`
      cannot be parsed at all. */
  datatype Body = Absent | Null | Unparsable | Parsed(json: Json)

  datatype Event = Event(httpMethod: string, path: string, body: Body)

  /** A reply of the Lambda. */
  datatype Reply =
    | Preflight
    | Reply(status: int, body: map<string, Json>)
    /** The success reply `respond(200, "Tags updated successfully.", {'tags': ...})`;
        its `tags` field lists the merged set in Python's set order. */
    | Updated(tags: set<Json>)

  /** `respond(status_code, message, data)`: the body is the message, with the fields of
      `data` added (and overriding) when `data` is non-empty. */
  function Respond(status: int, message: string, data: map<string, Json>): (r: Reply)
    ensures r.Reply? && r.status == status
    ensures r.body.Keys == data.Keys + {"message"}
    ensures "message" !in data ==> r.body["message"] == JStr(message)
    ensures forall k :: k in data ==> r.body[k] == data[k]
  {
    Reply(status, map["message" := JStr(message)] + data)
  }

  predicate Hashable(j: Json) { !j.JArr? && !j.JObj? }

  /** The name of the Python type a parsed JSON value has. */
  function PyTypeName(j: Json): string {
    match j
    case JNull => "NoneType"
    case JBool(_) => "bool"
    case JNum(_) => "int"
    case JStr(_) => "str"
    case JArr(_) => "list"
    case JObj(_) => "dict"
  }

  /** The first value that cannot go into a Python set: the one `set(new_tags)` fails on. */
  function FirstUnhashable(items: seq<Json>): (r: Json)
    requires exists k :: 0 <= k < |items| && !Hashable(items[k])
    ensures !Hashable(r)
    ensures exists k :: 0 <= k < |items| && items[k] == r && forall j :: 0 <= j < k ==> Hashable(items[j])
  {
    if !Hashable(items[0]) then items[0]
    else
      var r := FirstUnhashable(items[1..]);
      var k :| 0 <= k < |items[1..]| && items[1..][k] == r && forall j :: 0 <= j < k ==> Hashable(items[1..][j]);
      assert items[k + 1] == r;
      r
  }

  datatype Outcome = Outcome(reply: Reply, preferences: Preferences)

  /** The tags merged into an address's stored ones: a union, so nothing stored is
      lost and nothing is stored twice. */
  function Merge(existing: set<Json>, values: seq<Json>): (r: set<Json>)
    ensures existing <= r
    ensures forall v :: v in values ==> v in r
    ensures forall v :: v in r ==> v in existing || v in values
  {
    existing + set v | v in values
  }

  /** `email` is a non-empty string. */
  predicate EmailOk(body: Json)
    requires body.JObj?
  {
    Prop(body, "email").Some? && Prop(body, "email").value.JStr? && Prop(body, "email").value.s != ""
  }

  /** `values` is a non-empty list. */
  predicate ValuesOk(body: Json)
    requires body.JObj?
  {
    Prop(body, "values").Some? && Prop(body, "values").value.JArr? && Prop(body, "values").value.items != []
  }

  const EmailRefused := "Invalid or missing 'email' field."
  const ValuesRefused := "Invalid or missing 'values' field. It must be a list."
  /** The table hands stored numbers back as `Decimal`, which `json.dumps` refuses. */
  const DecimalError := "Unexpected error: Object of type Decimal is not JSON serializable"
  /** `json.loads(None)` fails with a type error, which the catch-all reports. */
  const NullBodyError := "Unexpected error: the JSON object must be str, bytes or bytearray, not NoneType"

  /** The tags stored for an address, or none. */
  function Stored(prefs: Preferences, address: string): set<Json> {
    if address in prefs then prefs[address] else {}
  }

  /** A number among the stored tags: it is read back as a `Decimal` and stays one in
      the merged set, so the reply cannot be written out. */
  predicate HoldsNumber(tags: set<Json>) { exists v :: v in tags && v.JNum? }

  /** The body passes every check and the table answers: the merged tags are written. */
  predicate Accepted(body: Json, dbError: Option<string>) {
    body.JObj? && EmailOk(body) && ValuesOk(body) && dbError.None?
    && forall k :: 0 <= k < |Prop(body, "values").value.items| ==> Hashable(Prop(body, "values").value.items[k])
  }

  /** `lambda_handler`. `dbError` is the message of a DynamoDB client error, if the
      table access fails. */
  function Handle(prefs: Preferences, e: Event, dbError: Option<string>): (o: Outcome)
    ensures e.httpMethod == "OPTIONS" ==> o == Outcome(Preflight, prefs)
    ensures !(e.httpMethod == "POST" && e.path == "/sns-alert") && e.httpMethod != "OPTIONS" ==>
              o == Outcome(Respond(404, "Route not found or method not supported.", map[]), prefs)
    ensures e.httpMethod == "POST" && e.path == "/sns-alert" ==>
              (e.body.Unparsable? ==> o == Outcome(Respond(400, "Invalid JSON in request body.", map[]), prefs))
              && (e.body.Absent? ==> o == Outcome(Respond(400, EmailRefused, map[]), prefs))
              && (e.body.Null? ==> o == Outcome(Respond(500, NullBodyError, map[]), prefs))
              && (e.body.Parsed? ==> o == HandleBody(prefs, e.body.json, dbError))
    ensures o.preferences != prefs ==>
              e.body.Parsed? && Accepted(e.body.json, dbError)
              && (o.reply.Updated? || o.reply == Respond(500, DecimalError, map[]))
  {
    if e.httpMethod == "OPTIONS" then Outcome(Preflight, prefs)
    else if !(e.httpMethod == "POST" && e.path == "/sns-alert") then
      Outcome(Respond(404, "Route not found or method not supported.", map[]), prefs)
    else
      match e.body
      case Unparsable => Outcome(Respond(400, "Invalid JSON in request body.", map[]), prefs)
      case Null => Outcome(Respond(500, NullBodyError, map[]), prefs)
      case Absent => Outcome(Respond(400, EmailRefused, map[]), prefs)
      case Parsed(body) => HandleBody(prefs, body, dbError)
  }

  /** The `POST /sns-alert` branch once the body has been parsed: the checks in their
      order, each refusal leaving the preferences as they were. */
  function HandleBody(prefs: Preferences, body: Json, dbError: Option<string>): (o: Outcome)
    ensures !body.JObj? ==>
              o == Outcome(Respond(500, "Unexpected error: '" + PyTypeName(body) + "' object has no attribute 'get'", map[]), prefs)
    ensures body.JObj? && !EmailOk(body) ==> o == Outcome(Respond(400, EmailRefused, map[]), prefs)
    ensures (body.JObj? && EmailOk(body) && !ValuesOk(body)) ==> o == Outcome(Respond(400, ValuesRefused, map[]), prefs)
    ensures (body.JObj? && EmailOk(body) && ValuesOk(body) && dbError.Some?) ==>
              o == Outcome(Respond(500, "DynamoDB error: " + dbError.value, map[]), prefs)
    ensures (body.JObj? && EmailOk(body) && ValuesOk(body) && dbError.None?
             && exists k :: 0 <= k < |Prop(body, "values").value.items| && !Hashable(Prop(body, "values").value.items[k])) ==>
              o == Outcome(Respond(500, "Unexpected error: unhashable type: '"
                                        + PyTypeName(FirstUnhashable(Prop(body, "values").value.items)) + "'", map[]), prefs)
    ensures Accepted(body, dbError) ==>
              var address := Prop(body, "email").value.s;
              var combined := Merge(Stored(prefs, address), Prop(body, "values").value.items);
              o.preferences == prefs[address := combined]
              && o.reply == (if HoldsNumber(Stored(prefs, address)) then Respond(500, DecimalError, map[]) else Updated(combined))
    ensures !Accepted(body, dbError) ==> o.preferences == prefs && !o.reply.Updated?
    ensures o.reply.Updated? <==> Accepted(body, dbError) && !HoldsNumber(Stored(prefs, Prop(body, "email").value.s))
  {
    if !body.JObj? then
      Outcome(Respond(500, "Unexpected error: '" + PyTypeName(body) + "' object has no attribute 'get'", map[]), prefs)
    else if !EmailOk(body) then Outcome(Respond(400, EmailRefused, map[]), prefs)
    else if !ValuesOk(body) then Outcome(Respond(400, ValuesRefused, map[]), prefs)
    else if dbError.Some? then Outcome(Respond(500, "DynamoDB error: " + dbError.value, map[]), prefs)
    else
      var items := Prop(body, "values").value.items;
      if exists k :: 0 <= k < |items| && !Hashable(items[k]) then
        Outcome(Respond(500, "Unexpected error: unhashable type: '" + PyTypeName(FirstUnhashable(items)) + "'", map[]), prefs)
      else
        var address := Prop(body, "email").value.s;
        var combined := Merge(Stored(prefs, address), items);
        if HoldsNumber(Stored(prefs, address)) then Outcome(Respond(500, DecimalError, map[]), prefs[address := combined])
        else Outcome(Updated(combined), prefs[address := combined])
  }

  /** The address a request names, if it names one. */
  function Address(e: Event): Option<string> {
    if e.body.Parsed? && e.body.json.JObj? && Prop(e.body.json, "email").Some? && Prop(e.body.json, "email").value.JStr?
    then Some(Prop(e.body.json, "email").value.s)
    else None
  }

  /** Sending the same request again changes nothing more: the merge is idempotent. */
  lemma HandleIdempotent(prefs: Preferences, e: Event)
    ensures var once := Handle(prefs, e, None).preferences;
            Handle(once, e, None).preferences == once
  {
    var once := Handle(prefs, e, None);
    if once.preferences != prefs {
      var body := e.body.json;
      var address := Prop(body, "email").value.s;
      var items := Prop(body, "values").value.items;
      assert once.preferences[address] == Merge(Stored(prefs, address), items);
      assert Merge(once.preferences[address], items) == once.preferences[address];
      assert once.preferences[address := once.preferences[address]] == once.preferences;
    }
  }

  /** A user's followed tags only ever grow, and only the address the request names
      can change. */
  lemma HandleOnlyAdds(prefs: Preferences, e: Event, dbError: Option<string>, other: string)
    ensures other in prefs ==> other in Handle(prefs, e, dbError).preferences
                               && prefs[other] <= Handle(prefs, e, dbError).preferences[other]
    ensures Address(e) != Some(other) ==>
              (other in Handle(prefs, e, dbError).preferences <==> other in prefs)
              && (other in prefs ==> Handle(prefs, e, dbError).preferences[other] == prefs[other])
  {
  }

  /** A request naming an address and a non-empty list of plain values is stored when
      the table answers: the address's tags afterwards are the ones stored before
      together with every value sent. The reply lists them, unless a number was stored
      before, in which case the write still happens and the reply is the 500. */
  lemma HandleStores(prefs: Preferences, e: Event, address: string, items: seq<Json>)
    requires e.httpMethod == "POST" && e.path == "/sns-alert" && e.body.Parsed?
    requires Prop(e.body.json, "email") == Some(JStr(address)) && address != ""
    requires Prop(e.body.json, "values") == Some(JArr(items)) && items != []
    requires forall k :: 0 <= k < |items| ==> Hashable(items[k])
    ensures var o := Handle(prefs, e, None);
            address in o.preferences
            && (o.reply.Updated? <==> !HoldsNumber(Stored(prefs, address)))
            && (o.reply.Updated? ==> o.reply.tags == o.preferences[address])
            && (!o.reply.Updated? ==> o.reply == Respond(500, DecimalError, map[]))
            && (address in prefs ==> prefs[address] <= o.preferences[address])
            && (forall v :: v in items ==> v in o.preferences[address])
            && (forall v :: v in o.preferences[address] ==> (address in prefs && v in prefs[address]) || v in items)
  {
    var combined := Merge(Stored(prefs, address), items);
    assert Handle(prefs, e, None).preferences == prefs[address := combined];
  }
}
