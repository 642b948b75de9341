/** `roadStyle`: the style of a road by its `Type`. */
module Roads {
  import opened Values
  import opened Features

  /**
   * The stroke of a road: its colour, its width in tenths of a pixel
   * (the source's widths all have one decimal), the dash pattern if it is
   * dotted, and the label drawn along it.
   */
  datatype RoadStyle = RoadStyle(color: string, widthTenths: nat, dash: Option<Dash>, text: Option<string>)

  /** A line-dash pattern: the lengths of the dashes and gaps. */
  type Dash = seq<nat>

  /** The road types with a style of their own, from widest to narrowest. */
  const ROAD_TYPES: seq<string> :=
    ["national road", "district access road", "community access roads", "park access road", "park feeder road", "tracks"]

  /** `typeRaw ? String(typeRaw).toLowerCase() : ''`: the type is lower-cased but not trimmed. */
  function RoadType(ft: Feature): string
  {
    if Truthy(Get(ft, "Type")) then Lower(ToStr(Get(ft, "Type"))) else ""
  }

  /** The colour and width for a lower-cased road type; anything else is brown and dotted. */
  function StrokeFor(t: string): (string, nat, Option<Dash>)
  {
    if t == "national road" then ("#5C2E0E", 52, None)
    else if t == "district access road" then ("#754022", 30, None)
    else if t == "community access roads" then ("#8B4513", 26, None)
    else if t == "park access road" then ("#A35B2A", 24, None)
    else if t == "park feeder road" then ("#C7824C", 20, None)
    else if t == "tracks" then ("#E2BC8E", 16, None)
    else ("#8B4513", 18, Some([4, 4]))
  }

  /**
   * `roadStyle(feature)`: the known types get a solid stroke of their own,
   * anything else a dotted one; the label is `String(Name)` exactly when
   * `Name` is truthy; a national road is the widest of all.
   */
  function RoadStyleOf(ft: Feature): (r: RoadStyle)
    ensures r.dash.Some? <==> RoadType(ft) !in ROAD_TYPES
    ensures r.dash.Some? ==> r.dash == Some([4, 4]) && r.color == "#8B4513"
    ensures r.text.Some? <==> Truthy(Get(ft, "Name"))
    ensures r.text.Some? ==> r.text.value == ToStr(Get(ft, "Name"))
    ensures 16 <= r.widthTenths <= 52
    ensures r.widthTenths == 52 <==> RoadType(ft) == "national road"
  {
    var (color, width, dash) := StrokeFor(RoadType(ft));
    RoadStyle(color, width, dash, if Truthy(Get(ft, "Name")) then Some(ToStr(Get(ft, "Name"))) else None)
  }

  /** The known types are drawn ever thinner in their listed order. */
  lemma WidthsDecreaseAlongTypes(i: nat, j: nat)
    requires i < j < |ROAD_TYPES|
    ensures StrokeFor(ROAD_TYPES[i]).1 > StrokeFor(ROAD_TYPES[j]).1
  {
  }

  /**
   * An unknown type is drawn thinner than every known type but `tracks`,
   * which is the thinnest stroke of all.
   */
  lemma UnknownTypeWidth(k: nat, t: string)
    requires k < |ROAD_TYPES| && t !in ROAD_TYPES
    ensures StrokeFor(ROAD_TYPES[k]).1 > StrokeFor(t).1 <==> ROAD_TYPES[k] != "tracks"
    ensures StrokeFor("tracks").1 < StrokeFor(t).1
  {
  }

  /** The type is matched without regard to letter case. */
  lemma TypeIgnoresCase(ft: Feature, s: string)
    requires Get(ft, "Type") == Str(s)
    ensures RoadStyleOf(ft).color == RoadStyleOf(Feature(ft.props["Type" := Str(Lower(s))])).color
    ensures RoadStyleOf(ft).widthTenths == RoadStyleOf(Feature(ft.props["Type" := Str(Lower(s))])).widthTenths
    ensures RoadStyleOf(ft).dash == RoadStyleOf(Feature(ft.props["Type" := Str(Lower(s))])).dash
  {
    var ft' := Feature(ft.props["Type" := Str(Lower(s))]);
    LowerIdempotent(s);
    assert Truthy(Get(ft', "Type")) <==> Truthy(Get(ft, "Type"));
    assert RoadType(ft') == RoadType(ft);
  }

  /** The scenario of a padded type: `" Tracks"` is not trimmed, so it is drawn as an unknown type. */
  lemma PaddedTypeIsUnknown()
    ensures RoadStyleOf(Feature(map["Type" := Str(" Tracks")])).dash == Some([4, 4])
  {
    var ft := Feature(map["Type" := Str(" Tracks")]);
    assert RoadType(ft)[0] == ' ';
  }
}
