/** Choosing the model files the ingestion Lambdas download: the most recently modified
    object under the model prefix whose key ends with a given suffix. */
module ModelStore {
  import opened Wrappers
  import opened Text
  import opened Paths

  /** An entry of `list_objects_v2`'s `Contents`; `lastModified` is a time stamp. */
  datatype S3Object = S3Object(key: string, lastModified: int)

  /** `o["Key"].lower().endswith(suffix)`, for a lower-case suffix. */
  predicate HasSuffix(o: S3Object, suffix: string) {
    EndsWith(Lower(o.key), suffix)
  }

  /** The candidates, in listing order. */
  function WithSuffix(objs: seq<S3Object>, suffix: string): (r: seq<S3Object>)
    ensures forall o :: o in r <==> o in objs && HasSuffix(o, suffix)
  {
    if objs == [] then []
    else
      var rest := WithSuffix(objs[1..], suffix);
      assert objs == [objs[0]] + objs[1..];
      if HasSuffix(objs[0], suffix) then [objs[0]] + rest else rest
  }

  /** `max(candidates, key=lambda o: o["LastModified"])`: the first of the newest. */
  function Newest(cands: seq<S3Object>): (r: S3Object)
    requires cands != []
    ensures r in cands
    ensures forall o :: o in cands ==> o.lastModified <= r.lastModified
  {
    if |cands| == 1 then cands[0]
    else
      var best := Newest(cands[1..]);
      assert forall o :: o in cands[1..] ==> o in cands;
      assert forall o :: o in cands ==> o == cands[0] || o in cands[1..];
      if best.lastModified > cands[0].lastModified then best else cands[0]
  }

  /** Python's `max` keeps the first of equal maxima: no earlier candidate is as new. */
  lemma {:induction false} NewestIsFirst(cands: seq<S3Object>, k: nat)
    requires cands != [] && k < |cands| && cands[k] == Newest(cands)
    requires forall j :: 0 <= j < |cands| && cands[j] == Newest(cands) ==> k <= j
    ensures forall j :: 0 <= j < k ==> cands[j].lastModified < Newest(cands).lastModified
  {
    if |cands| > 1 {
      var best := Newest(cands[1..]);
      if best.lastModified > cands[0].lastModified {
        forall j | 1 <= j < k
          ensures cands[j].lastModified < best.lastModified
        {
          assert cands[1..][j - 1] == cands[j];
          if cands[j].lastModified >= best.lastModified {
            NewestMaximalFirst(cands[1..], j - 1);
          }
        }
      } else {
        assert k == 0;
      }
    }
  }

  /** If some candidate is at least as new as every other, the pick is not later than it. */
  lemma {:induction false} NewestMaximalFirst(cands: seq<S3Object>, j: nat)
    requires cands != [] && j < |cands|
    requires cands[j].lastModified >= Newest(cands).lastModified
    ensures exists i :: 0 <= i <= j && cands[i] == Newest(cands)
  {
    if j == 0 {
      if |cands| > 1 {
        var best := Newest(cands[1..]);
        assert Newest(cands) == cands[0];
      }
    } else {
      var best := Newest(cands[1..]);
      if best.lastModified > cands[0].lastModified {
        assert cands[1..][j - 1] == cands[j];
        NewestMaximalFirst(cands[1..], j - 1);
        var i :| 0 <= i <= j - 1 && cands[1..][i] == best;
        assert cands[i + 1] == Newest(cands);
      } else {
        assert cands[0] == Newest(cands);
      }
    }
  }

  /** The model file chosen, or `None` where the Lambda raises `RuntimeError`. */
  function LatestWithSuffix(objs: seq<S3Object>, suffix: string): (r: Option<S3Object>)
    ensures r.None? <==> forall o :: o in objs ==> !HasSuffix(o, suffix)
    ensures r.Some? ==> r.value in objs && HasSuffix(r.value, suffix)
    ensures r.Some? ==> forall o :: o in objs && HasSuffix(o, suffix) ==> o.lastModified <= r.value.lastModified
  {
    var cands := WithSuffix(objs, suffix);
    if cands == [] then None else Some(Newest(cands))
  }

  /** The file name the object is downloaded to. */
  function LocalName(o: S3Object): string { Basename(o.key) }
}
