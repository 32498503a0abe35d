/** DynamoDB stream records as the notification Lambdas receive them: each attribute
    is a one-entry object whose key names its type. */
module DynamoStream {
  import opened Wrappers

  /** An attribute value. A map keeps its entries in the order the record lists them. */
  datatype Attr =
    | S(s: string)
    | N(n: string)
    | BOOL(b: bool)
    | NULL
    | L(items: seq<Attr>)
    | M(entries: seq<(string, Attr)>)
    | SS(strings: seq<string>)

  /** A new or old image; a record without one is given the empty image. */
  type Image = map<string, Attr>

  datatype Record = Record(eventName: string, newImage: Image, oldImage: Image)

  /** A Python value read out of an image: a string, a flag, or `None`. */
  datatype PyValue = PyStr(s: string) | PyBool(b: bool) | PyNone

  predicate Truthy(v: PyValue) {
    match v
    case PyStr(s) => s != ""
    case PyBool(b) => b
    case PyNone => false
  }

  /** Python's `a or b`. */
  function Or(a: PyValue, b: PyValue): (r: PyValue)
    ensures Truthy(r) <==> Truthy(a) || Truthy(b)
    ensures Truthy(a) ==> r == a
    ensures !Truthy(a) ==> r == b
  {
    if Truthy(a) then a else b
  }

  /** `image.get(key, {}).get('S', '')`: the text of a string attribute, otherwise empty. */
  function StringOr(image: Image, key: string): (r: string)
    ensures key in image && image[key].S? ==> r == image[key].s
    ensures !(key in image && image[key].S?) ==> r == ""
  {
    if key in image && image[key].S? then image[key].s else ""
  }

  /** The names of a map's entries, in order. */
  function Names(entries: seq<(string, Attr)>): (r: seq<string>)
    ensures |r| == |entries| && forall k :: 0 <= k < |entries| ==> r[k] == entries[k].0
  {
    seq(|entries|, k requires 0 <= k < |entries| => entries[k].0)
  }
}
