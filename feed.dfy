/** Response acceptance: the HTTP status check and the schema the feed body
    must satisfy before any feature is processed. */
module Feed {
  import opened Wrappers
  import opened Json

  /** What a polling cycle can fail with. */
  datatype Error =
    | Upstream(text: string)   // non-ok HTTP status; the body text is the message
    | MalformedJson            // the body of an ok response is not JSON
    | SchemaMismatch           // the JSON does not have the expected shape
    | NullProperties           // a feature whose `properties` is null (reading a field of it throws)

  /** The provider's answer: the status flag, the body text, and the body
      decoded as JSON (`None` when the text is not JSON). */
  datatype Response = Response(ok: bool, text: string, json: Option<Json>)

  /** One element of `dataInfo`. */
  datatype DataInfo = DataInfo(affVer: string, provider: string, rptTime: string, reqTime: string, sysId: string)

  /** One element of `features` once accepted: `properties` is loosely typed and
      `geometry` is the Point object exactly as received. */
  datatype RawFeature = RawFeature(properties: Json, geometry: Json)

  /** An accepted feed body. */
  datatype Body = Body(dataInfo: seq<DataInfo>, features: seq<RawFeature>)

  // ---------------------------------------------------------------------
  // The schema, stated declaratively

  predicate HasString(o: map<string, Json>, key: string) {
    key in o && o[key].JStr?
  }

  predicate HasLiteral(o: map<string, Json>, key: string, lit: string) {
    key in o && o[key] == JStr(lit)
  }

  predicate HasArray(o: map<string, Json>, key: string) {
    key in o && o[key].JArr?
  }

  /** One `dataInfo` record: an object with five string members. */
  predicate ConformsDataInfo(j: Json): (r: bool)
    ensures j.JObj? && "sysId" in j.fields && j.fields["sysId"] == JNull ==> !r
    ensures (j == JObj(map["affVer" := JStr(""), "provider" := JStr(""), "rptTime" := JStr(""),
                           "reqTime" := JStr(""), "sysId" := JStr("")])) ==> r
  {
    && j.JObj?
    && HasString(j.fields, "affVer")
    && HasString(j.fields, "provider")
    && HasString(j.fields, "rptTime")
    && HasString(j.fields, "reqTime")
    && HasString(j.fields, "sysId")
  }

  /** A Point geometry: an array of numbers of any length. */
  predicate ConformsGeometry(j: Json): (r: bool)
    ensures j.JObj? && "type" in j.fields && j.fields["type"] == JStr("LineString") ==> !r
    ensures j == JObj(map["type" := JStr("Point"), "coordinates" := JArr([])]) ==> r
  {
    && j.JObj?
    && HasLiteral(j.fields, "type", "Point")
    && HasArray(j.fields, "coordinates")
    && forall c :: c in j.fields["coordinates"].items ==> c.JNum?
  }

  /** `properties` must be present (any value, null included). */
  predicate ConformsFeature(j: Json): (r: bool)
    ensures j.JObj? && "properties" !in j.fields ==> !r
    ensures (&& j.JObj? && j.fields.Keys == {"type", "properties", "geometry"}
             && j.fields["type"] == JStr("Feature") && j.fields["properties"] == JNull
             && ConformsGeometry(j.fields["geometry"])) ==> r
  {
    && j.JObj?
    && HasLiteral(j.fields, "type", "Feature")
    && "properties" in j.fields
    && "geometry" in j.fields
    && ConformsGeometry(j.fields["geometry"])
  }

  predicate AllDataInfos(items: seq<Json>) {
    forall i :: 0 <= i < |items| ==> ConformsDataInfo(items[i])
  }

  predicate AllFeatures(items: seq<Json>) {
    forall i :: 0 <= i < |items| ==> ConformsFeature(items[i])
  }

  /** The whole body: a "FeatureCollection" object with the `dataInfo` and
      `features` arrays, every element conforming. */
  predicate ConformsBody(j: Json): (r: bool)
    ensures j.JObj? && "type" in j.fields && j.fields["type"] != JStr("FeatureCollection") ==> !r
    ensures j == JObj(map["type" := JStr("FeatureCollection"), "dataInfo" := JArr([]), "features" := JArr([])]) ==> r
  {
    && j.JObj?
    && HasLiteral(j.fields, "type", "FeatureCollection")
    && HasArray(j.fields, "dataInfo")
    && AllDataInfos(j.fields["dataInfo"].items)
    && HasArray(j.fields, "features")
    && AllFeatures(j.fields["features"].items)
  }

  // ---------------------------------------------------------------------
  // The typed view of a conforming body

  function DataInfoView(j: Json): DataInfo
    requires ConformsDataInfo(j)
  {
    DataInfo(j.fields["affVer"].s, j.fields["provider"].s, j.fields["rptTime"].s,
             j.fields["reqTime"].s, j.fields["sysId"].s)
  }

  function FeatureView(j: Json): RawFeature
    requires ConformsFeature(j)
  {
    RawFeature(j.fields["properties"], j.fields["geometry"])
  }

  /** Checks every element of `dataInfo` in turn. */
  function DecodeDataInfos(items: seq<Json>): (r: Option<seq<DataInfo>>)
    ensures r.Some? <==> AllDataInfos(items)
    ensures r.Some? ==> |r.value| == |items|
    ensures r.Some? ==> forall i :: 0 <= i < |items| ==> r.value[i] == DataInfoView(items[i])
  {
    if items == [] then Some([])
    else if !ConformsDataInfo(items[0]) then None
    else match DecodeDataInfos(items[1..])
      case None => None
      case Some(rest) => Some([DataInfoView(items[0])] + rest)
  }

  /** Checks every element of `features` in turn. */
  function DecodeFeatures(items: seq<Json>): (r: Option<seq<RawFeature>>)
    ensures r.Some? <==> AllFeatures(items)
    ensures r.Some? ==> |r.value| == |items|
    ensures r.Some? ==> forall i :: 0 <= i < |items| ==> r.value[i] == FeatureView(items[i])
  {
    if items == [] then Some([])
    else if !ConformsFeature(items[0]) then None
    else match DecodeFeatures(items[1..])
      case None => None
      case Some(rest) => Some([FeatureView(items[0])] + rest)
  }

  /** The schema check on the decoded body: it accepts exactly the conforming
      bodies, and the accepted body lists the same features, in order, with
      their `properties` and `geometry` untouched. */
  function DecodeBody(j: Json): (r: Result<Body, Error>)
    ensures r.Ok? <==> ConformsBody(j)
    ensures r.Err? ==> r.error == SchemaMismatch
    ensures r.Ok? ==> |r.value.features| == |j.fields["features"].items|
    ensures r.Ok? ==> forall i :: 0 <= i < |r.value.features| ==>
      var item := j.fields["features"].items[i];
      item.JObj? && r.value.features[i] == RawFeature(item.fields["properties"], item.fields["geometry"])
    ensures r.Ok? ==> |r.value.dataInfo| == |j.fields["dataInfo"].items|
    ensures r.Ok? ==> forall i :: 0 <= i < |r.value.dataInfo| ==>
      var item := j.fields["dataInfo"].items[i];
      ConformsDataInfo(item) && r.value.dataInfo[i] == DataInfoView(item)
  {
    if !(j.JObj? && HasLiteral(j.fields, "type", "FeatureCollection")
         && HasArray(j.fields, "dataInfo") && HasArray(j.fields, "features"))
    then Err(SchemaMismatch)
    else match (DecodeDataInfos(j.fields["dataInfo"].items), DecodeFeatures(j.fields["features"].items))
      case (Some(infos), Some(feats)) => Ok(Body(infos, feats))
      case _ => Err(SchemaMismatch)
  }

  /** Acceptance of the provider's response: a non-ok status fails with the
      body text, a body that is not JSON or does not conform fails, and
      nothing else does. */
  function Accept(res: Response): (r: Result<Body, Error>)
    ensures !res.ok ==> r == Err(Upstream(res.text))
    ensures res.ok ==> (r.Ok? <==> res.json.Some? && ConformsBody(res.json.value))
    ensures res.ok && res.json.None? ==> r == Err(MalformedJson)
    ensures res.ok && res.json.Some? && r.Err? ==> r.error == SchemaMismatch
    ensures r.Ok? ==> r == DecodeBody(res.json.value)
  {
    if !res.ok then Err(Upstream(res.text))
    else if res.json.None? then Err(MalformedJson)
    else DecodeBody(res.json.value)
  }

  /** One feature that is not a `Feature` with a Point geometry (a
      LineString, say) makes the whole body refused, whatever else it holds. */
  lemma NonconformingFeatureRejected(res: Response, i: nat)
    requires res.ok && res.json.Some? && res.json.value.JObj?
    requires HasArray(res.json.value.fields, "features")
    requires i < |res.json.value.fields["features"].items|
    requires !ConformsFeature(res.json.value.fields["features"].items[i])
    ensures Accept(res) == Err(SchemaMismatch)
  {
  }
}
