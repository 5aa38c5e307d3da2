/** The bucket extractor (`extractBucketKeys`) and the shape of an
    aggregation response: `{ total_hits?, aggs?: { <name>: {
    field_aggregation: { buckets: [ { key, count } ] } } } }`, where only
    the first aggregation, in enumeration order, is consulted. */
module BucketExtractor {
  import opened Wrappers

  /** One grouped value and how many events it stands for. */
  datatype Bucket = Bucket(key: string, count: nat)

  datatype FieldAggregation = FieldAggregation(buckets: Option<seq<Bucket>>)

  datatype Aggregation = Aggregation(fieldAggregation: Option<FieldAggregation>)

  /** An aggregation response. An entry of `aggs` that is `null` is `None`. */
  datatype AggResponse = AggResponse(
    totalHits: Option<nat>,
    aggs: Option<seq<(string, Option<Aggregation>)>>)

  /** `responseData.aggs[firstAggKey]?.field_aggregation?.buckets`, after the
      guard on `responseData.aggs`; `None` when any step of the path is
      missing. */
  function FirstBuckets(response: AggResponse): (r: Option<seq<Bucket>>)
    ensures r.Some? <==>
      && response.aggs.Some? && |response.aggs.value| > 0
      && response.aggs.value[0].1.Some?
      && response.aggs.value[0].1.value.fieldAggregation.Some?
      && response.aggs.value[0].1.value.fieldAggregation.value.buckets.Some?
    ensures r.Some? ==> r.value == response.aggs.value[0].1.value.fieldAggregation.value.buckets.value
  {
    match response.aggs
    case None => None
    case Some(entries) =>
      if |entries| == 0 then None
      else
        match entries[0].1
        case None => None
        case Some(agg) =>
          match agg.fieldAggregation
          case None => None
          case Some(fa) => fa.buckets
  }

  /** `buckets.map(bucket => bucket.key)`. */
  function BucketKeys(buckets: seq<Bucket>): (keys: seq<string>)
    ensures |keys| == |buckets|
    ensures forall i :: 0 <= i < |buckets| ==> keys[i] == buckets[i].key
  {
    if |buckets| == 0 then [] else [buckets[0].key] + BucketKeys(buckets[1..])
  }

  /** `extractBucketKeys`: the keys of the first aggregation's buckets, in
      response order, or none when the path to them is missing. */
  function ExtractBucketKeys(response: AggResponse): (keys: seq<string>)
    ensures FirstBuckets(response).None? ==> keys == []
    ensures FirstBuckets(response).Some? ==>
      |keys| == |FirstBuckets(response).value| &&
      forall i :: 0 <= i < |keys| ==> keys[i] == FirstBuckets(response).value[i].key
  {
    match FirstBuckets(response)
    case None => []
    case Some(buckets) => BucketKeys(buckets)
  }

  /** The three ways the path can be missing all give no keys, and so do
      buckets that are present but empty. */
  lemma ExtractBucketKeysEmpty(response: AggResponse)
    ensures response.aggs.None? ==> ExtractBucketKeys(response) == []
    ensures response.aggs == Some([]) ==> ExtractBucketKeys(response) == []
    ensures (&& response.aggs.Some? && |response.aggs.value| > 0
             && (|| response.aggs.value[0].1.None?
                 || response.aggs.value[0].1.value.fieldAggregation.None?
                 || response.aggs.value[0].1.value.fieldAggregation.value.buckets.None?))
      ==> ExtractBucketKeys(response) == []
    ensures FirstBuckets(response) == Some([]) ==> ExtractBucketKeys(response) == []
  {
  }

  /** Extraction examples: no `aggs`, an empty `aggs`, and two buckets. */
  lemma ExtractBucketKeysExamples()
    ensures ExtractBucketKeys(AggResponse(None, None)) == []
    ensures ExtractBucketKeys(AggResponse(None, Some([]))) == []
    ensures ExtractBucketKeys(AggResponse(None, Some([("g", Some(Aggregation(Some(FieldAggregation(
      Some([Bucket("k1", 0), Bucket("k2", 0)]))))))]))) == ["k1", "k2"]
  {
  }
}
