/**
 * The boundary of the graph-query service: the values it answers with and the
 * requests it is sent. The service itself is a `Client`, a bundle of functions
 * standing for its answers at the moment of a call.
 */
module Graph {
  import opened Base

  /** `blob.Ref`; the zero ref is `NoRef`, a valid ref is named by its canonical string. */
  datatype BlobRef = NoRef | Ref(digest: string) {
    predicate Valid() { Ref? }

    /** `blob.Ref.String`, the key of the ref in a describe result. */
    function String(): string {
      if NoRef? then "<invalid-blob.Ref>" else digest
    }
  }

  /** A permanode's current attributes (`url.Values`): name to ordered values. */
  type Attrs = map<string, seq<string>>

  /** `Attr.Get(key)`: the first value of `key`, or "" when it has none. */
  function AttrGet(attrs: Attrs, key: string): (v: string)
    ensures v != "" ==> key in attrs && |attrs[key]| > 0 && v == attrs[key][0]
    ensures key in attrs && |attrs[key]| > 0 ==> v == attrs[key][0]
  {
    if key in attrs && |attrs[key]| > 0 then attrs[key][0] else ""
  }

  datatype FileInfo = FileInfo(size: int64)

  /**
   * `search.DescribedBlob`: its own ref, its camli type, and the optional
   * permanode part (`Permanode`) and file part (`File`).
   */
  datatype DescribedBlob = DescribedBlob(
    blobRef: BlobRef,
    camliType: string,
    permanode: Option<Attrs>,
    file: Option<FileInfo>)

  /** `DescribeResponse.Meta`: ref string to described blob. */
  type Meta = map<string, DescribedBlob>

  /** A describe request: the refs to start from, the traversal depth and the as-of time (zero: now). */
  datatype DescribeRequest = DescribeRequest(blobRefs: seq<BlobRef>, depth: nat, at: Time)

  /** A claims request: the permanode and the attribute whose claims are wanted. */
  datatype ClaimsRequest = ClaimsRequest(permanode: BlobRef, attr: string)

  /** An attribute search: at most `n` permanodes that carry `attr`. */
  datatype WithAttrRequest = WithAttrRequest(n: nat, attr: string)

  /** One claim of a claim history: the claimed value and the claim's date. */
  datatype Claim = Claim(value: string, date: Time)

  /** The outcome of one query: an answer, or an error. */
  datatype Answer<+T> = Answered(value: T) | Failed

  /** The graph-query service's answers, one function per query kind. */
  datatype Client = Client(
    describe: DescribeRequest -> Answer<Meta>,
    getClaims: ClaimsRequest -> Answer<seq<Claim>>,
    getPermanodesWithAttr: WithAttrRequest -> Answer<seq<BlobRef>>)

  /** One request sent to the service, as recorded in a call log. */
  datatype Request =
    | DescribeCall(describe: DescribeRequest)
    | ClaimsCall(claims: ClaimsRequest)
    | WithAttrCall(withAttr: WithAttrRequest)
}
