/**
 * `collectUniqueValues`: the distinct values of some fields across the point
 * layers' features, sorted, with which the district and ward dropdowns are filled.
 */
module Dropdowns {
  import opened Values
  import opened Features
  import opened StringOrder
  import opened Collections

  /** What one feature contributes to the values of `field`: `String(v)`, untrimmed. */
  function ValueOf(ft: Feature, field: string): set<string>
  {
    if NonBlank(Get(ft, field)) then {ToStr(Get(ft, field))} else {}
  }

  function FeatureValues(feats: seq<Feature>, field: string): set<string>
  {
    UnionOver(feats, ft => ValueOf(ft, field))
  }

  /** The values of `field` that the features of `layers` contribute. */
  function LayerValues(layers: seq<Layer>, field: string): set<string>
  {
    UnionOver(layers, (l: Layer) => FeatureValues(l.features, field))
  }

  /** A feature of some layer holds a listable value of `field` whose text is `x`. */
  predicate Occurs(layers: seq<Layer>, field: string, x: string)
  {
    exists i, j :: 0 <= i < |layers| && 0 <= j < |layers[i].features| && x in ValueOf(layers[i].features[j], field)
  }

  lemma FeatureValuesIff(feats: seq<Feature>, field: string, x: string)
    ensures x in FeatureValues(feats, field) <==> exists j :: 0 <= j < |feats| && x in ValueOf(feats[j], field)
  {
    UnionOverIff(feats, ft => ValueOf(ft, field), x);
  }

  /** The values are exactly the texts of the listable values of `field` in any feature of any layer. */
  lemma LayerValuesIff(layers: seq<Layer>, field: string, x: string)
    ensures x in LayerValues(layers, field) <==> Occurs(layers, field, x)
  {
    UnionOverIff(layers, (l: Layer) => FeatureValues(l.features, field), x);
    if x in LayerValues(layers, field) {
      var i :| 0 <= i < |layers| && x in FeatureValues(layers[i].features, field);
      FeatureValuesIff(layers[i].features, field, x);
    }
    if Occurs(layers, field, x) {
      var i, j :| 0 <= i < |layers| && 0 <= j < |layers[i].features| && x in ValueOf(layers[i].features[j], field);
      FeatureValuesIff(layers[i].features, field, x);
    }
  }

  /**
   * `collectUniqueValues(layers, fields)`: for each requested field, its
   * distinct listable values across all layers, ascending.
   */
  method CollectUniqueValues(layers: seq<Layer>, fields: seq<string>) returns (out: map<string, seq<string>>)
    ensures out.Keys == set f | f in fields
    ensures forall f :: f in out ==> StrictlySorted(out[f])
    ensures forall f :: f in out ==> forall x :: x in out[f] <==> x in LayerValues(layers, f)
  {
    var found := GatherValues(layers, fields);
    out := map[];
    for k := 0 to |fields|
      invariant out.Keys == set f | f in fields[..k]
      invariant forall f :: f in out ==> StrictlySorted(out[f])
      invariant forall f :: f in out ==> forall x :: x in out[f] <==> x in LayerValues(layers, f)
    {
      var sorted := SortedElements(found[fields[k]]);
      out := out[fields[k] := sorted];
      assert fields[..k + 1] == fields[..k] + [fields[k]];
    }
    assert fields[..|fields|] == fields;
  }

  /** `layers.forEach(...)`: fills one `Set` per field. */
  method GatherValues(layers: seq<Layer>, fields: seq<string>) returns (found: map<string, set<string>>)
    ensures found.Keys == set f | f in fields
    ensures forall f :: f in found ==> found[f] == LayerValues(layers, f)
  {
    found := map f | f in fields :: {};
    for i := 0 to |layers|
      invariant found.Keys == set f | f in fields
      invariant forall f :: f in found ==> found[f] == LayerValues(layers[..i], f)
    {
      found := PushLayer(found, layers[i], fields);
      assert layers[..i + 1][..i] == layers[..i];
    }
    assert layers[..|layers|] == layers;
  }

  lemma FeatureValuesStep(feats: seq<Feature>, j: nat, f: string)
    requires j < |feats|
    ensures FeatureValues(feats[..j + 1], f) == FeatureValues(feats[..j], f) + ValueOf(feats[j], f)
  {
    assert feats[..j + 1][..j] == feats[..j];
  }

  /** `src.getFeatures().forEach(...)` for one layer. */
  method PushLayer(found: map<string, set<string>>, layer: Layer, fields: seq<string>)
    returns (found': map<string, set<string>>)
    requires found.Keys == set f | f in fields
    ensures found'.Keys == found.Keys
    ensures forall f :: f in found' ==> found'[f] == found[f] + FeatureValues(layer.features, f)
  {
    var feats := layer.features;
    found' := found;
    for j := 0 to |feats|
      invariant found'.Keys == found.Keys
      invariant forall f :: f in found' ==> found'[f] == found[f] + FeatureValues(feats[..j], f)
    {
      found' := PushFeature(found', feats[j], fields);
      forall f | f in found' ensures found'[f] == found[f] + FeatureValues(feats[..j + 1], f) {
        FeatureValuesStep(feats, j, f);
      }
    }
    assert feats[..|feats|] == feats;
  }

  /** `fields.forEach(f => push(f, ft.get(f)))`: adds what one feature contributes to each field. */
  method PushFeature(found: map<string, set<string>>, ft: Feature, fields: seq<string>)
    returns (found': map<string, set<string>>)
    requires found.Keys == set f | f in fields
    ensures found'.Keys == found.Keys
    ensures forall f :: f in found' ==> found'[f] == found[f] + ValueOf(ft, f)
  {
    found' := found;
    for k := 0 to |fields|
      invariant found'.Keys == found.Keys
      invariant forall f :: f in found' ==> found'[f] == found[f] + (if f in fields[..k] then ValueOf(ft, f) else {})
    {
      var f, v := fields[k], Get(ft, fields[k]);
      if NonBlank(v) {
        found' := found'[f := found'[f] + {ToStr(v)}];
      }
      assert fields[..k + 1] == fields[..k] + [f];
    }
    assert fields[..|fields|] == fields;
  }
}
