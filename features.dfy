/** Features and layers as main.js reads them from the map library. */
module Features {
  import opened Values

  /**
   * A GeoJSON feature: its properties, from attribute name to value. The
   * library stores the geometry among the properties under `geometry`.
   */
  datatype Feature = Feature(props: map<string, Value>)

  /** A vector or tile layer: its `title`, its visibility flag and the features its source holds. */
  datatype Layer = Layer(title: string, visible: bool, features: seq<Feature>)

  /** `feature.get(key)`: a key the feature does not have reads as `Null`. */
  function Get(ft: Feature, key: string): Value
  {
    if key in ft.props then ft.props[key] else Null
  }

  /** `feature.get('Names') || feature.get('Name')`. */
  function NameValue(ft: Feature): Value
  {
    if Truthy(Get(ft, "Names")) then Get(ft, "Names") else Get(ft, "Name")
  }

  function Titles(layers: seq<Layer>): seq<string>
  {
    seq(|layers|, i requires 0 <= i < |layers| => layers[i].title)
  }

  function Visibility(layers: seq<Layer>): seq<bool>
  {
    seq(|layers|, i requires 0 <= i < |layers| => layers[i].visible)
  }

  predicate DistinctTitles(layers: seq<Layer>)
  {
    forall i, j :: 0 <= i < j < |layers| ==> layers[i].title != layers[j].title
  }
}
