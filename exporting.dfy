/**
 * `exportFiltered`: which features the GeoJSON export contains. Reprojection
 * and serialisation are left to the map library.
 */
module Exporting {
  import opened Features
  import opened Filtering
  import opened Collections

  /** `feats.filter(passesFilters)`. */
  function Passing(feats: seq<Feature>, fs: Filters): seq<Feature>
  {
    Filter(feats, ft => Passes(fs, ft))
  }

  /** The passing features of the visible layers, layer after layer. */
  function Selection(layers: seq<Layer>, fs: Filters): seq<Feature>
  {
    if layers == [] then []
    else
      var last := layers[|layers| - 1];
      Selection(layers[..|layers| - 1], fs) + (if last.visible then Passing(last.features, fs) else [])
  }

  /** What the export button does: report that nothing qualifies, or download these features. */
  datatype ExportOutcome = NothingToExport | Download(features: seq<Feature>)

  /** `exportFiltered(layers)` under the filter state `fs`. */
  method ExportFiltered(layers: seq<Layer>, fs: Filters) returns (r: ExportOutcome)
    ensures r == if Selection(layers, fs) == [] then NothingToExport else Download(Selection(layers, fs))
  {
    var out: seq<Feature> := [];
    for i := 0 to |layers|
      invariant out == Selection(layers[..i], fs)
    {
      assert layers[..i + 1][..i] == layers[..i];
      if layers[i].visible {
        var feats := layers[i].features;
        var kept: seq<Feature> := [];
        for j := 0 to |feats|
          invariant kept == Passing(feats[..j], fs)
        {
          assert feats[..j + 1][..j] == feats[..j];
          if Passes(fs, feats[j]) {
            kept := kept + [feats[j]];
          }
        }
        assert feats[..|feats|] == feats;
        out := out + kept;
      }
    }
    assert layers[..|layers|] == layers;
    if |out| == 0 {
      return NothingToExport;
    }
    return Download(out);
  }

  /** The filter keeps exactly the passing features. */
  lemma PassingMembers(feats: seq<Feature>, fs: Filters, ft: Feature)
    ensures ft in Passing(feats, fs) <==> ft in feats && Passes(fs, ft)
  {
    FilterMembers(feats, ft' => Passes(fs, ft'), ft);
  }

  /** The export keeps layer order: the layers' selections follow one another. */
  lemma {:induction false} SelectionOfConcat(a: seq<Layer>, b: seq<Layer>, fs: Filters)
    ensures Selection(a + b, fs) == Selection(a, fs) + Selection(b, fs)
    decreases |b|
  {
    if b == [] {
      assert a + b == a;
    } else {
      var b' := b[..|b| - 1];
      assert (a + b)[..|a + b| - 1] == a + b';
      SelectionOfConcat(a, b', fs);
    }
  }

  /** A feature is exported exactly when some visible layer holds it and it passes the filter. */
  lemma {:induction false} SelectionMembers(layers: seq<Layer>, fs: Filters, ft: Feature)
    ensures ft in Selection(layers, fs) <==>
      Passes(fs, ft) && exists i :: 0 <= i < |layers| && layers[i].visible && ft in layers[i].features
    decreases |layers|
  {
    if layers != [] {
      var init, last := layers[..|layers| - 1], layers[|layers| - 1];
      SelectionMembers(init, fs, ft);
      PassingMembers(last.features, fs, ft);
      if exists i :: 0 <= i < |init| && init[i].visible && ft in init[i].features {
        var i :| 0 <= i < |init| && init[i].visible && ft in init[i].features;
        assert layers[i] == init[i];
      }
      if exists i :: 0 <= i < |layers| && layers[i].visible && ft in layers[i].features {
        var i :| 0 <= i < |layers| && layers[i].visible && ft in layers[i].features;
        if i < |init| {
          assert init[i] == layers[i];
        }
      }
    }
  }

  /** The export reports "Nothing to export" exactly when no visible layer holds a passing feature. */
  lemma NothingToExportIff(layers: seq<Layer>, fs: Filters)
    ensures Selection(layers, fs) == [] <==>
      forall i, ft :: 0 <= i < |layers| && layers[i].visible && ft in layers[i].features ==> !Passes(fs, ft)
  {
    if Selection(layers, fs) != [] {
      SelectionMembers(layers, fs, Selection(layers, fs)[0]);
    }
    forall i, ft | 0 <= i < |layers| && layers[i].visible && ft in layers[i].features && Passes(fs, ft)
      ensures Selection(layers, fs) != []
    {
      SelectionMembers(layers, fs, ft);
    }
  }

  /** With no filter set, the filter keeps every feature. */
  lemma PassingEverything(feats: seq<Feature>)
    ensures Passing(feats, NoFilters) == feats
  {
    forall i | 0 <= i < |feats| ensures Passes(NoFilters, feats[i]) {
      NoFiltersPassEverything(feats[i]);
    }
    FilterKeepsAll(feats, ft => Passes(NoFilters, ft));
  }
}
