/**
  The `get_screenshots` listing: the remote store's resource records for the
  "screenshots" prefix, projected to their `secure_url` fields. The remote
  call itself is an input; each record is a dictionary of text fields, and
  a missing key raises `KeyError` as dictionary indexing does.
 */
module Listing {
  import opened Wrappers

  const ListPrefix: string := "screenshots"
  const ResourcesKey: string := "resources"
  const SecureUrlKey: string := "secure_url"

  /** One resource record of the remote store's answer. */
  type Resource = map<string, string>

  /** The answer of the resource query; `resources` is None when the answer
      has no "resources" entry. */
  datatype ApiResponse = ApiResponse(resources: Option<seq<Resource>>)

  datatype ListError =
    | Unreachable           // the remote query itself raised
    | MissingKey(key: string)

  /** The list comprehension over the records: one URL per record, in
      record order; a record without "secure_url" makes the whole listing
      fail. */
  function PhotoUrls(rs: seq<Resource>): (r: Result<seq<string>, ListError>)
    ensures r.Success? <==> forall i :: 0 <= i < |rs| ==> SecureUrlKey in rs[i]
    ensures r.Failure? ==> r.error == MissingKey(SecureUrlKey)
    ensures r.Success? ==> |r.value| == |rs|
    ensures r.Success? ==> forall i :: 0 <= i < |rs| ==> r.value[i] == rs[i][SecureUrlKey]
    decreases |rs|
  {
    if rs == [] then Success([])
    else if SecureUrlKey !in rs[0] then Failure(MissingKey(SecureUrlKey))
    else
      match PhotoUrls(rs[1..])
      case Failure(e) => Failure(e)
      case Success(tail) => Success([rs[0][SecureUrlKey]] + tail)
  }

  /** `get_screenshots`: `fetched` is the answer of the resource query for
      uploads under `ListPrefix`, or None when that query raised. */
  function GetScreenshots(fetched: Option<ApiResponse>): (r: Result<seq<string>, ListError>)
    ensures fetched.None? ==> r == Failure(Unreachable)
    ensures fetched.Some? && fetched.value.resources.None? ==> r == Failure(MissingKey(ResourcesKey))
    ensures r.Success? ==> fetched.Some? && fetched.value.resources.Some?
    ensures fetched.Some? && fetched.value.resources.Some? ==> r == PhotoUrls(fetched.value.resources.value)
    ensures r.Success? <==>
      fetched.Some? && fetched.value.resources.Some? && AllHaveUrl(fetched.value.resources.value)
    ensures r.Success? ==>
      var rs := fetched.value.resources.value;
      && |r.value| == |rs|
      && forall i :: 0 <= i < |rs| ==> SecureUrlKey in rs[i] && r.value[i] == rs[i][SecureUrlKey]
  {
    match fetched
    case None => Failure(Unreachable)
    case Some(resp) =>
      match resp.resources
      case None => Failure(MissingKey(ResourcesKey))
      case Some(rs) => PhotoUrls(rs)
  }

  /** Every record in `rs` carries a "secure_url". */
  predicate AllHaveUrl(rs: seq<Resource>)
  {
    forall i :: 0 <= i < |rs| ==> SecureUrlKey in rs[i]
  }

  lemma AllHaveUrlAppend(a: seq<Resource>, b: seq<Resource>)
    ensures AllHaveUrl(a + b) <==> AllHaveUrl(a) && AllHaveUrl(b)
  {
    var ab := a + b;
    if AllHaveUrl(ab) {
      forall i | 0 <= i < |b| ensures SecureUrlKey in b[i] {
        assert b[i] == ab[|a| + i];
      }
      forall i | 0 <= i < |a| ensures SecureUrlKey in a[i] {
        assert a[i] == ab[i];
      }
    }
  }

  /** The projection works record by record: listing a concatenation is
      concatenating the listings, and it fails exactly when either part
      does. */
  lemma PhotoUrlsAppend(a: seq<Resource>, b: seq<Resource>)
    ensures PhotoUrls(a + b).Success? <==> PhotoUrls(a).Success? && PhotoUrls(b).Success?
    ensures PhotoUrls(a + b).Success? ==>
      PhotoUrls(a + b).value == PhotoUrls(a).value + PhotoUrls(b).value
  {
    var ab := a + b;
    var rab, ra, rb := PhotoUrls(ab), PhotoUrls(a), PhotoUrls(b);
    assert rab.Success? <==> AllHaveUrl(ab);
    assert ra.Success? <==> AllHaveUrl(a);
    assert rb.Success? <==> AllHaveUrl(b);
    AllHaveUrlAppend(a, b);
    if rab.Success? {
      var joined := ra.value + rb.value;
      assert |rab.value| == |joined|;
      forall i | 0 <= i < |ab| ensures rab.value[i] == joined[i] {
        if i < |a| {
          assert ab[i] == a[i];
        } else {
          assert ab[i] == b[i - |a|];
        }
      }
    }
  }

  /** Every URL in a successful listing is the `secure_url` of some record. */
  lemma PhotoUrlsSources(rs: seq<Resource>, url: string)
    requires PhotoUrls(rs).Success? && url in PhotoUrls(rs).value
    ensures exists i :: 0 <= i < |rs| && SecureUrlKey in rs[i] && rs[i][SecureUrlKey] == url
  {
  }
}
