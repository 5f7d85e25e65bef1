/** The per-feature normalizer: provider property names are mapped onto the
    canonical feature shape, and absent provider fields stay absent. */
module Normalizer {
  import opened Wrappers
  import opened Json
  import opened Feed

  /** The provider properties the pipeline reads, each one absent (`None`)
      when the provider left it out. */
  datatype Props = Props(
    unitId: Option<Json>, cog: Option<Json>, speed: Option<Json>,
    ctrId: Option<Json>, esn: Option<Json>, fix: Option<Json>, hdop: Option<Json>,
    posTime: Option<Json>, dataCtrTime: Option<Json>, src: Option<Json>, trackId: Option<Json>)

  /** The nine provider fields copied into a feature's metadata. */
  datatype Metadata = Metadata(
    ctrId: Option<Json>, esn: Option<Json>, fix: Option<Json>, hdop: Option<Json>,
    posTime: Option<Json>, dataCtrTime: Option<Json>, src: Option<Json>,
    unitId: Option<Json>, trackId: Option<Json>)

  /** A normalized feature (its GeoJSON `type` is always "Feature"). */
  datatype Feature = Feature(
    id: Option<Json>, course: Option<Json>, speed: Option<Json>,
    metadata: Metadata, geometry: Json)

  /** Reading member `name` of a non-null JSON value: present only on an object
      that has that member. */
  function Prop(props: Json, name: string): (r: Option<Json>)
    ensures r.Some? <==> props.JObj? && name in props.fields
    ensures r.Some? ==> r.value == props.fields[name]
  {
    if props.JObj? && name in props.fields then Some(props.fields[name]) else None
  }

  /** Reading the provider fields: null has no members to read (the read
      throws); any other value yields whatever members it has. */
  function ReadProps(props: Json): (r: Option<Props>)
    ensures r.Some? <==> props != JNull
    ensures r.Some? ==> var p := r.value;
      && p.unitId == Prop(props, "unitId") && p.cog == Prop(props, "cog") && p.speed == Prop(props, "speed")
      && p.ctrId == Prop(props, "ctrId") && p.esn == Prop(props, "esn") && p.fix == Prop(props, "fix")
      && p.hdop == Prop(props, "hdop") && p.posTime == Prop(props, "posTime")
      && p.dataCtrTime == Prop(props, "dataCtrTime") && p.src == Prop(props, "src")
      && p.trackId == Prop(props, "trackId")
  {
    if props.JNull? then None
    else Some(Props(
      Prop(props, "unitId"), Prop(props, "cog"), Prop(props, "speed"),
      Prop(props, "ctrId"), Prop(props, "esn"), Prop(props, "fix"), Prop(props, "hdop"),
      Prop(props, "posTime"), Prop(props, "dataCtrTime"), Prop(props, "src"), Prop(props, "trackId")))
  }

  /** The provider properties a normalized feature was made from: the inverse
      of the renaming that Normalize performs. */
  function SourceProps(f: Feature): Props {
    Props(f.metadata.unitId, f.course, f.speed,
          f.metadata.ctrId, f.metadata.esn, f.metadata.fix, f.metadata.hdop,
          f.metadata.posTime, f.metadata.dataCtrTime, f.metadata.src, f.metadata.trackId)
  }

  /** The record mapping: nothing the provider sent is lost (the provider
      properties can be read back), the feature id is the unit id, and the
      geometry is passed through. */
  function Normalize(p: Props, geometry: Json): (f: Feature)
    ensures SourceProps(f) == p
    ensures f.id == p.unitId && f.id == f.metadata.unitId
    ensures f.geometry == geometry
  {
    Feature(
      p.unitId, p.cog, p.speed,
      Metadata(p.ctrId, p.esn, p.fix, p.hdop, p.posTime, p.dataCtrTime, p.src, p.unitId, p.trackId),
      geometry)
  }

  /** Normalization of one accepted feature: it fails only on null
      properties, and otherwise every canonical field holds the provider
      field it is named after, absent ones included. */
  function NormalizeFeature(raw: RawFeature): (r: Option<Feature>)
    ensures r.Some? <==> raw.properties != JNull
    ensures r.Some? ==> var f := r.value;
      && f.id == Prop(raw.properties, "unitId")
      && f.course == Prop(raw.properties, "cog")
      && f.speed == Prop(raw.properties, "speed")
      && f.metadata == Metadata(
           Prop(raw.properties, "ctrId"), Prop(raw.properties, "esn"), Prop(raw.properties, "fix"),
           Prop(raw.properties, "hdop"), Prop(raw.properties, "posTime"), Prop(raw.properties, "dataCtrTime"),
           Prop(raw.properties, "src"), Prop(raw.properties, "unitId"), Prop(raw.properties, "trackId"))
      && f.geometry == raw.geometry
  {
    match ReadProps(raw.properties)
    case None => None
    case Some(p) => Some(Normalize(p, raw.geometry))
  }

  /** Normalization of the features in order; the first one with null
      properties stops it. */
  function NormalizeEach(raws: seq<RawFeature>): (r: Result<seq<Feature>, Error>)
    ensures r.Err? <==> exists i :: 0 <= i < |raws| && raws[i].properties == JNull
    ensures r.Err? ==> r.error == NullProperties
    ensures r.Ok? ==> |r.value| == |raws|
    ensures r.Ok? ==> forall i :: 0 <= i < |raws| ==> NormalizeFeature(raws[i]) == Some(r.value[i])
    decreases |raws|
  {
    if raws == [] then Ok([])
    else
      var last := raws[|raws| - 1];
      match NormalizeEach(raws[..|raws| - 1])
      case Err(e) => Err(e)
      case Ok(done) =>
        match NormalizeFeature(last)
        case None => Err(NullProperties)
        case Some(f) => Ok(done + [f])
  }
}
