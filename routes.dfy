/** Route features as delivered by the `/rutas` endpoint, their bounding
    region (`featureBounds`) and the search index built from them
    (`routeIndex`). */
module Routes {
  import opened Wrappers
  import opened Js
  import opened Normalize

  /** A GeoJSON position `[lng, lat]`; further ordinates are ignored. */
  datatype Position = Position(lng: real, lat: real)

  datatype Geometry =
    | LineString(coordinates: seq<Position>)
    | MultiLineString(lines: seq<seq<Position>>)
    | OtherGeometry(kind: string)

  /** The feature properties the core reads. A feature without a
      `properties` object reads every one of them as `undefined`. */
  datatype Properties = Properties(id: JsValue, numeroRuta: JsValue, nombreRuta: JsValue, color: JsValue)

  datatype Feature = Feature(properties: Properties, geometry: Option<Geometry>)

  /** The region the map library accumulates with `LngLatBounds.extend`:
      the positions added to it, in order. Its rectangle and centre belong
      to the library. */
  datatype Bounds = Bounds(points: seq<Position>)

  function Flatten(lines: seq<seq<Position>>): (r: seq<Position>)
    ensures forall p :: p in r <==> exists l :: l in lines && p in l
  {
    if lines == [] then []
    else
      assert forall l :: l in lines <==> l == lines[0] || l in lines[1..];
      lines[0] + Flatten(lines[1..])
  }

  /** `featureBounds(f)`: a region exactly for line and multi-line
      geometries, made of every position they contain; `null` otherwise. */
  function FeatureBounds(f: Feature): (r: Option<Bounds>)
    ensures r.Some? <==> f.geometry.Some? && (f.geometry.value.LineString? || f.geometry.value.MultiLineString?)
    ensures r.Some? && f.geometry.value.LineString? ==>
              forall p :: p in r.value.points <==> p in f.geometry.value.coordinates
    ensures r.Some? && f.geometry.value.MultiLineString? ==>
              forall p :: p in r.value.points <==> exists l :: l in f.geometry.value.lines && p in l
  {
    match f.geometry
    case None => None
    case Some(LineString(cs)) => Some(Bounds(cs))
    case Some(MultiLineString(ls)) => Some(Bounds(Flatten(ls)))
    case Some(OtherGeometry(_)) => None
  }

  /** One record of `routeIndex`. */
  datatype RouteEntry = RouteEntry(
    idStr: string,
    num: string,
    name: string,
    color: JsValue,
    nNum: string,
    nName: string,
    feature: Feature,
    labelText: string)

  const DefaultColor: string := "#3392ff"
  const Unnamed: string := "(sin nombre)"
  const LabelSeparator: string := " \U{2014} "

  /** `num ? `${num} — ${name}` : name || "(sin nombre)"` */
  function Label(num: string, name: string): (text: string)
    ensures text != ""
    ensures num != "" ==> |text| == |num| + 3 + |name| && text[..|num|] == num && text[|num|..|num| + 3] == LabelSeparator && text[|num| + 3..] == name
    ensures num == "" && name != "" ==> text == name
    ensures num == "" && name == "" ==> text == Unnamed
  {
    if num != "" then num + LabelSeparator + name else if name != "" then name else Unnamed
  }

  /** The index record of one feature: the id, number and name as strings
      (`undefined`/`null` read as empty), their normalised tokens, the
      display label and the colour with its fallback. */
  function MakeEntry(f: Feature): (e: RouteEntry)
    ensures e.feature == f
    ensures e.idStr == ToJsStringOrEmpty(f.properties.id)
    ensures e.num == ToJsStringOrEmpty(f.properties.numeroRuta)
    ensures e.name == ToJsStringOrEmpty(f.properties.nombreRuta)
    ensures e.nNum == NormalizeStr(e.num) && e.nName == NormalizeStr(e.name)
    ensures e.labelText == Label(e.num, e.name)
    ensures Truthy(e.color) && (Truthy(f.properties.color) ==> e.color == f.properties.color)
    ensures !Truthy(f.properties.color) ==> e.color == Str(DefaultColor)
  {
    var num := ToJsStringOrEmpty(f.properties.numeroRuta);
    var name := ToJsStringOrEmpty(f.properties.nombreRuta);
    RouteEntry(
      ToJsStringOrEmpty(f.properties.id),
      num,
      name,
      if Truthy(f.properties.color) then f.properties.color else Str(DefaultColor),
      NormalizeStr(num),
      NormalizeStr(name),
      f,
      Label(num, name))
  }

  /** `routeIndex = rutasFeatures.map(...)`: one record per feature, in the
      order of the features, none skipped. */
  function BuildIndex(features: seq<Feature>): (index: seq<RouteEntry>)
    ensures |index| == |features|
    ensures forall i :: 0 <= i < |index| ==> index[i] == MakeEntry(features[i])
  {
    seq(|features|, i requires 0 <= i < |features| => MakeEntry(features[i]))
  }

  /** The tokens stored in the index are already normal: normalising them
      again (as the matcher does with the query) is the identity. */
  lemma IndexTokensAreNormal(features: seq<Feature>, i: nat)
    requires i < |features|
    ensures var e := BuildIndex(features)[i];
      e.feature == features[i] && NormalizeStr(e.nNum) == e.nNum && NormalizeStr(e.nName) == e.nName
  {
    var e := BuildIndex(features)[i];
    NormalizeIdempotent(e.num);
    NormalizeIdempotent(e.name);
  }

  /** A valid index: every record is the index record of its own feature. */
  ghost predicate IsIndex(index: seq<RouteEntry>)
  {
    forall i :: 0 <= i < |index| ==> index[i] == MakeEntry(index[i].feature)
  }

  lemma BuildIndexIsIndex(features: seq<Feature>)
    ensures IsIndex(BuildIndex(features))
  {
  }
}
