/** One polling cycle: request, acceptance, normalization, reduction, and the
    batch handed to the sink. */
module Task {
  import opened Wrappers
  import opened Json
  import opened Feed
  import opened Normalizer
  import opened Latest
  import opened Request

  /** The batch handed to the sink (its GeoJSON `type` is always
      "FeatureCollection"). */
  datatype FeatureCollection = FeatureCollection(features: seq<Feature>)

  predicate NoNullProperties(body: Body) {
    forall i :: 0 <= i < |body.features| ==> body.features[i].properties != JNull
  }

  /** The outcome of a cycle: `Ok` is the batch submitted, `Err` what the
      cycle throws, in which case nothing is submitted. `fetch` stands for the
      network round trip. */
  function Cycle(env: Env, now: int, base64: string -> string, toTime: Clock, fetch: Request -> Response)
    : (r: Result<FeatureCollection, Error>)
    ensures var res := fetch(BuildRequest(env, now, base64));
      && (!res.ok ==> r == Err(Upstream(res.text)))
      && (Accept(res).Err? ==> r == Err(Accept(res).error))
      && (r.Ok? <==> (Accept(res).Ok? && NoNullProperties(Accept(res).value)))
    ensures var res := fetch(BuildRequest(env, now, base64));
      Accept(res).Ok? && !NoNullProperties(Accept(res).value) ==> r == Err(NullProperties)
    ensures var res := fetch(BuildRequest(env, now, base64));
      r.Ok? ==> NormalizeEach(Accept(res).value.features).Ok?
                && r.value.features == LatestFixes(toTime, NormalizeEach(Accept(res).value.features).value)
    ensures r.Ok? ==> forall a, b :: 0 <= a < b < |r.value.features| ==> r.value.features[a].id != r.value.features[b].id
  {
    match Accept(fetch(BuildRequest(env, now, base64)))
    case Err(e) => Err(e)
    case Ok(body) =>
      match NormalizeEach(body.features)
      case Err(e) => Err(e)
      case Ok(fs) =>
        OnePerUnit(toTime, fs);
        Ok(FeatureCollection(LatestFixes(toTime, fs)))
  }

  /** The task's `control` step. */
  method Control(env: Env, now: int, base64: string -> string, toTime: Clock, fetch: Request -> Response)
    returns (submitted: Result<FeatureCollection, Error>)
    ensures submitted == Cycle(env, now, base64, toTime, fetch)
  {
    var request := BuildRequest(env, now, base64);
    var res := fetch(request);
    var accepted := Accept(res);
    if accepted.Err? {
      return Err(accepted.error);
    }
    var reduced := ReduceLatest(toTime, accepted.value.features);
    if reduced.Err? {
      return Err(reduced.error);
    }
    submitted := Ok(FeatureCollection(reduced.value));
  }

  /** An upstream failure is reported with its body text, and nothing is
      submitted. */
  lemma UpstreamFailure(env: Env, now: int, base64: string -> string, toTime: Clock, fetch: Request -> Response)
    requires fetch(BuildRequest(env, now, base64)) == Response(false, "rate limited", None)
    ensures Cycle(env, now, base64, toTime, fetch) == Err(Upstream("rate limited"))
  {
  }

  /** A well-formed response with no features yields an empty batch, which is
      submitted. */
  lemma EmptyFeed(env: Env, now: int, base64: string -> string, toTime: Clock, fetch: Request -> Response)
    requires fetch(BuildRequest(env, now, base64)) == Response(true, "", Some(JObj(map[
      "type" := JStr("FeatureCollection"), "dataInfo" := JArr([]), "features" := JArr([])])))
    ensures Cycle(env, now, base64, toTime, fetch) == Ok(FeatureCollection([]))
  {
  }

  /** A feature with a LineString geometry fails the cycle with a schema
      error, and nothing is submitted. */
  lemma LineStringRejected(env: Env, now: int, base64: string -> string, toTime: Clock, fetch: Request -> Response)
    requires fetch(BuildRequest(env, now, base64)) == Response(true, "", Some(JObj(map[
      "type" := JStr("FeatureCollection"), "dataInfo" := JArr([]),
      "features" := JArr([JObj(map[
        "type" := JStr("Feature"), "properties" := JObj(map[]),
        "geometry" := JObj(map["type" := JStr("LineString"), "coordinates" := JArr([])])])])])))
    ensures Cycle(env, now, base64, toTime, fetch) == Err(SchemaMismatch)
  {
  }
}
