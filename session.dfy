/**
 * The page's mutable state: base and thematic layer visibility, the filter
 * state, the one-key saved session, and the handlers that change them.
 */
module Session {
  import opened Values
  import opened Features
  import opened Filtering
  import opened Dropdowns
  import opened Exporting

  /** The base layers, in the order of the radio choices; the first starts visible. */
  const BASE_TITLES: seq<string> := ["OSMStand", "CartoLight", "CartoDark", "OpenTopoMap"]

  /** The thematic layers, in the order of their group; `districts` starts visible. */
  const THEMATIC_TITLES: seq<string> :=
    ["zimbabwe", "districts", "wards", "roads", "gardens", "waterPoints", "sandDams", "gabions", "woodlots", "boreholes"]

  /** Where each entry of `pointLayers` sits among the thematic layers. */
  const POINT_INDICES: seq<nat> := [6, 5, 9, 4, 8, 7]

  /** The base title saved when no base layer is visible. */
  const DEFAULT_BASE := "OSMStand"

  /** The fields whose values fill the two dropdowns. */
  const DROPDOWN_FIELDS: seq<string> := ["District", "Ward"]

  /** `pointLayers`: the point layers, in the order the page lists them. */
  function PointLayers(thematic: seq<Layer>): (r: seq<Layer>)
    requires |thematic| == |THEMATIC_TITLES|
    ensures |r| == |POINT_INDICES|
    ensures forall k :: 0 <= k < |r| ==> r[k] == thematic[POINT_INDICES[k]]
  {
    seq(|POINT_INDICES|, k requires 0 <= k < |POINT_INDICES| => thematic[POINT_INDICES[k]])
  }

  /** The point layers picked by position carry the point-layer titles, in order. */
  lemma PointLayersAreTheTitledOnes(thematic: seq<Layer>)
    requires Titles(thematic) == THEMATIC_TITLES
    ensures Titles(PointLayers(thematic)) == POINT_LAYER_TITLES
  {
    var p := PointLayers(thematic);
    forall k | 0 <= k < |p| ensures p[k].title == POINT_LAYER_TITLES[k] {
      assert p[k].title == Titles(thematic)[POINT_INDICES[k]];
    }
  }

  /** The titles of the point layers, whose features can be filtered, clicked and exported. */
  const POINT_LAYER_TITLES: seq<string> := ["sandDams", "waterPoints", "boreholes", "gardens", "woodlots", "gabions"]

  /** `isPointLayerTitle(t)`: the thematic titles other than those of the area and line layers. */
  predicate IsPointLayerTitle(t: string): (b: bool)
    ensures b <==> t in THEMATIC_TITLES && t !in ["zimbabwe", "districts", "wards", "roads"]
  {
    t in POINT_LAYER_TITLES
  }

  // ---- Visibility ----

  /** The radio handler's effect: exactly the layers titled `title` are visible. */
  function ShowOnly(layers: seq<Layer>, title: string): seq<Layer>
  {
    seq(|layers|, i requires 0 <= i < |layers| => layers[i].(visible := layers[i].title == title))
  }

  /** The checkbox handler's effect: the layers titled `title` take visibility `want`, the others keep theirs. */
  function SetVisibleWhere(layers: seq<Layer>, title: string, want: bool): seq<Layer>
  {
    seq(|layers|, i requires 0 <= i < |layers| =>
      if layers[i].title == title then layers[i].(visible := want) else layers[i])
  }

  /** The restore's effect on the thematic layers: visible exactly when the title is in `shown`. */
  function ShowTitles(layers: seq<Layer>, shown: set<string>): seq<Layer>
  {
    seq(|layers|, i requires 0 <= i < |layers| => layers[i].(visible := layers[i].title in shown))
  }

  predicate AtMostOneVisible(layers: seq<Layer>)
  {
    forall i, j :: 0 <= i < j < |layers| && layers[i].visible ==> !layers[j].visible
  }

  /** With distinct titles, choosing a base layer leaves at most one visible: the chosen one, when it exists. */
  lemma ShowOnlyShowsOne(layers: seq<Layer>, title: string)
    requires DistinctTitles(layers)
    ensures AtMostOneVisible(ShowOnly(layers, title))
    ensures forall i :: 0 <= i < |layers| ==> (ShowOnly(layers, title)[i].visible <==> layers[i].title == title)
  {
  }

  /** `find(l => l.getVisible())`: the title of the first visible layer. */
  function FirstVisibleTitle(layers: seq<Layer>): Option<string>
  {
    if layers == [] then None
    else if layers[0].visible then Some(layers[0].title)
    else FirstVisibleTitle(layers[1..])
  }

  /** Nothing is found exactly when no layer is visible; otherwise the title is that of the first visible layer. */
  lemma {:induction false} FirstVisibleTitleSpec(layers: seq<Layer>)
    ensures FirstVisibleTitle(layers).None? <==> forall i :: 0 <= i < |layers| ==> !layers[i].visible
    ensures FirstVisibleTitle(layers).Some? ==>
      exists i :: 0 <= i < |layers| && layers[i].visible && layers[i].title == FirstVisibleTitle(layers).value
        && forall j :: 0 <= j < i ==> !layers[j].visible
  {
    if layers != [] && !layers[0].visible {
      FirstVisibleTitleSpec(layers[1..]);
      assert forall j :: 1 <= j < |layers| ==> layers[j] == layers[1..][j - 1];
      if FirstVisibleTitle(layers).Some? {
        var i :| 0 <= i < |layers[1..]| && layers[1..][i].visible && layers[1..][i].title == FirstVisibleTitle(layers).value
          && forall j :: 0 <= j < i ==> !layers[1..][j].visible;
        assert layers[i + 1] == layers[1..][i];
      }
    }
  }

  /** `filter(l => l.getVisible()).map(l => l.get('title'))`. */
  function VisibleTitles(layers: seq<Layer>): seq<string>
  {
    if layers == [] then []
    else (if layers[0].visible then [layers[0].title] else []) + VisibleTitles(layers[1..])
  }

  lemma {:induction false} VisibleTitlesIff(layers: seq<Layer>, t: string)
    ensures t in VisibleTitles(layers) <==> exists i :: 0 <= i < |layers| && layers[i].visible && layers[i].title == t
  {
    if layers != [] {
      VisibleTitlesIff(layers[1..], t);
      if exists i :: 1 <= i < |layers| && layers[i].visible && layers[i].title == t {
        var i :| 1 <= i < |layers| && layers[i].visible && layers[i].title == t;
        assert layers[1..][i - 1] == layers[i];
      }
      if exists i :: 0 <= i < |layers[1..]| && layers[1..][i].visible && layers[1..][i].title == t {
        var i :| 0 <= i < |layers[1..]| && layers[1..][i].visible && layers[1..][i].title == t;
        assert layers[1..][i] == layers[i + 1];
      }
    }
  }

  // ---- The saved session ----

  /** The filter fields as read back from storage: each may be missing. */
  datatype StoredFilters = StoredFilters(district: Option<string>, ward: Option<string>, search: Option<string>)

  /**
   * The saved session under `geohub_state_v1`: the base title, the visible
   * thematic titles and the filters. A field missing from the stored object
   * is `None`.
   */
  datatype Snapshot = Snapshot(base: Option<string>, visibleLayers: Option<seq<string>>, filters: Option<StoredFilters>)

  /** The object `persistState` saves. */
  function SnapshotOf(baseLayers: seq<Layer>, thematic: seq<Layer>, fs: Filters): (s: Snapshot)
    ensures s.base.Some? && s.visibleLayers.Some? && s.filters.Some?
    ensures s.base == if FirstVisibleTitle(baseLayers).Some? then FirstVisibleTitle(baseLayers) else Some(DEFAULT_BASE)
    ensures forall t :: t in s.visibleLayers.value <==>
      exists i :: 0 <= i < |thematic| && thematic[i].visible && thematic[i].title == t
    ensures s.filters.value == StoredFilters(Some(fs.district), Some(fs.ward), Some(fs.search))
  {
    forall t ensures t in VisibleTitles(thematic) <==>
      exists i :: 0 <= i < |thematic| && thematic[i].visible && thematic[i].title == t
    {
      VisibleTitlesIff(thematic, t);
    }
    Snapshot(
      Some(match FirstVisibleTitle(baseLayers) case Some(t) => t case None => DEFAULT_BASE),
      Some(VisibleTitles(thematic)),
      Some(StoredFilters(Some(fs.district), Some(fs.ward), Some(fs.search))))
  }

  /** `x || ''` for a stored string field. */
  function OrEmpty(o: Option<string>): string
  {
    if o.Some? then o.value else ""
  }

  /** The filters after a restore: each stored field, or `''`; unchanged without stored filters. */
  function RestoredFilters(fs: Filters, snap: Snapshot): (r: Filters)
    ensures snap.filters.None? ==> r == fs
    ensures snap.filters.Some? ==>
      && r.district == (match snap.filters.value.district case Some(d) => d case None => "")
      && r.ward == (match snap.filters.value.ward case Some(w) => w case None => "")
      && r.search == (match snap.filters.value.search case Some(q) => q case None => "")
  {
    if snap.filters.Some? then
      Filters(OrEmpty(snap.filters.value.district), OrEmpty(snap.filters.value.ward), OrEmpty(snap.filters.value.search))
    else fs
  }

  /** `new Set(state.visibleLayers || [])`. */
  function ShownTitles(snap: Snapshot): set<string>
  {
    if snap.visibleLayers.Some? then set t | t in snap.visibleLayers.value else {}
  }

  /** Whether `state.base` is truthy: present and not empty. */
  predicate HasBase(snap: Snapshot)
  {
    snap.base.Some? && snap.base.value != ""
  }

  /** The restored filters are exactly those saved. */
  lemma RestoreFiltersRoundTrip(base: seq<Layer>, thematic: seq<Layer>, fs: Filters, current: Filters)
    ensures RestoredFilters(current, SnapshotOf(base, thematic, fs)) == fs
  {
  }

  /** A thematic layer is restored visible exactly when it was visible when saved, for layers with distinct titles. */
  lemma {:induction false} RestoreThematicRoundTrip(thematic: seq<Layer>, current: seq<Layer>, base: seq<Layer>, fs: Filters)
    requires DistinctTitles(thematic) && Titles(current) == Titles(thematic)
    ensures Visibility(ShowTitles(current, ShownTitles(SnapshotOf(base, thematic, fs)))) == Visibility(thematic)
  {
    var shown := ShownTitles(SnapshotOf(base, thematic, fs));
    var r := ShowTitles(current, shown);
    forall i | 0 <= i < |thematic| ensures r[i].visible == thematic[i].visible {
      assert current[i].title == Titles(current)[i] == Titles(thematic)[i] == thematic[i].title;
      VisibleTitlesIff(thematic, thematic[i].title);
    }
    assert Visibility(r) == Visibility(thematic);
  }

  /** The set of visible thematic titles is restored even when titles repeat. */
  lemma RestoreVisibleSetRoundTrip(thematic: seq<Layer>, base: seq<Layer>, fs: Filters, t: string)
    ensures t in VisibleTitles(ShowTitles(thematic, ShownTitles(SnapshotOf(base, thematic, fs)))) <==> t in VisibleTitles(thematic)
  {
    var r := ShowTitles(thematic, ShownTitles(SnapshotOf(base, thematic, fs)));
    VisibleTitlesIff(thematic, t);
    VisibleTitlesIff(r, t);
    if t in VisibleTitles(thematic) {
      var i :| 0 <= i < |thematic| && thematic[i].visible && thematic[i].title == t;
      assert r[i].visible && r[i].title == t;
    }
  }

  /**
   * With exactly one base layer visible, among distinct non-empty titles,
   * restoring shows that one again; with none visible, `OSMStand` is saved
   * and restored.
   */
  lemma {:induction false} RestoreBaseRoundTrip(base: seq<Layer>, current: seq<Layer>, thematic: seq<Layer>, fs: Filters)
    requires DistinctTitles(base) && AtMostOneVisible(base) && Titles(current) == Titles(base)
    requires forall i :: 0 <= i < |base| ==> base[i].title != ""
    ensures var snap := SnapshotOf(base, thematic, fs);
      && HasBase(snap)
      && ((exists i :: 0 <= i < |base| && base[i].visible) ==> Visibility(ShowOnly(current, snap.base.value)) == Visibility(base))
      && ((forall i :: 0 <= i < |base| ==> !base[i].visible) ==> snap.base.value == DEFAULT_BASE)
  {
    FirstVisibleTitleSpec(base);
    if FirstVisibleTitle(base).Some? {
      var k :| 0 <= k < |base| && base[k].visible && base[k].title == FirstVisibleTitle(base).value;
      ShowOnlyTheVisibleOne(base, current, k);
    }
  }

  /** Showing only the title of the one visible layer reproduces the visibility of every layer. */
  lemma ShowOnlyTheVisibleOne(base: seq<Layer>, current: seq<Layer>, k: nat)
    requires DistinctTitles(base) && AtMostOneVisible(base) && Titles(current) == Titles(base)
    requires k < |base| && base[k].visible
    ensures Visibility(ShowOnly(current, base[k].title)) == Visibility(base)
  {
    var r := ShowOnly(current, base[k].title);
    forall i | 0 <= i < |base| ensures r[i].visible == base[i].visible {
      assert current[i].title == Titles(current)[i] == Titles(base)[i] == base[i].title;
      if i < k {
        assert !base[i].visible;
      } else if i > k {
        assert !base[i].visible;
      }
    }
  }

  // ---- The page ----

  /** The base layers as the page creates them: only `OSMStand` visible, no features. */
  function InitialBase(): (r: seq<Layer>)
    ensures Titles(r) == BASE_TITLES
    ensures forall i :: 0 <= i < |r| ==> (r[i].visible <==> r[i].title == DEFAULT_BASE) && r[i].features == []
  {
    var r := seq(|BASE_TITLES|, i requires 0 <= i < |BASE_TITLES| => Layer(BASE_TITLES[i], i == 0, []));
    assert Titles(r) == BASE_TITLES;
    r
  }

  /** The thematic layers as the page creates them: only `districts` visible, each holding the features `loaded` gives its title. */
  function InitialThematic(loaded: map<string, seq<Feature>>): (r: seq<Layer>)
    ensures Titles(r) == THEMATIC_TITLES
    ensures forall i :: 0 <= i < |r| ==>
      && (r[i].visible <==> r[i].title == "districts")
      && r[i].features == (if r[i].title in loaded then loaded[r[i].title] else [])
  {
    var r := seq(|THEMATIC_TITLES|, i requires 0 <= i < |THEMATIC_TITLES| =>
      var t := THEMATIC_TITLES[i];
      Layer(t, t == "districts", if t in loaded then loaded[t] else []));
    assert Titles(r) == THEMATIC_TITLES;
    r
  }

  /** The page's state: the layer groups, `filterState` and the saved session. */
  class GeoHub {
    var baseLayers: seq<Layer>
    var thematic: seq<Layer>
    var filters: Filters
    var store: Option<Snapshot>

    /** The layer groups keep their titles, and at most one base layer is visible. */
    predicate Valid()
      reads this
    {
      && Titles(baseLayers) == BASE_TITLES
      && Titles(thematic) == THEMATIC_TITLES
      && AtMostOneVisible(baseLayers)
    }

    /**
     * Page start-up: the layers with their initial visibility and the
     * features `loaded` for each title, empty filters, then one restore
     * from the `stored` session.
     */
    constructor(stored: Option<Snapshot>, loaded: map<string, seq<Feature>>)
      ensures Valid()
      ensures store == stored
      ensures stored.None? ==> baseLayers == InitialBase() && thematic == InitialThematic(loaded) && filters == NoFilters
      ensures stored.Some? ==>
        var snap := stored.value;
        && baseLayers == (if HasBase(snap) then ShowOnly(InitialBase(), snap.base.value) else InitialBase())
        && thematic == ShowTitles(InitialThematic(loaded), ShownTitles(snap))
        && filters == RestoredFilters(NoFilters, snap)
    {
      baseLayers := InitialBase();
      thematic := InitialThematic(loaded);
      filters := NoFilters;
      store := stored;
      new;
      assert AtMostOneVisible(baseLayers) by {
        forall i, j | 0 <= i < j < |baseLayers| && baseLayers[i].visible ensures !baseLayers[j].visible {
          assert baseLayers[i].title == BASE_TITLES[i] && baseLayers[j].title == BASE_TITLES[j];
        }
      }
      var _ := Restore();
    }

    /** `baseMapsLayerGroup.getLayers().forEach(l => l.setVisible(l.get('title') === title))`. */
    method ShowOnlyBase(title: string)
      modifies this
      ensures baseLayers == ShowOnly(old(baseLayers), title)
      ensures thematic == old(thematic) && filters == old(filters) && store == old(store)
    {
      ghost var before := baseLayers;
      for i := 0 to |baseLayers|
        invariant |baseLayers| == |before|
        invariant forall j :: 0 <= j < i ==> baseLayers[j] == before[j].(visible := before[j].title == title)
        invariant forall j :: i <= j < |before| ==> baseLayers[j] == before[j]
        invariant thematic == old(thematic) && filters == old(filters) && store == old(store)
      {
        baseLayers := baseLayers[i := baseLayers[i].(visible := baseLayers[i].title == title)];
      }
    }

    /** The checkbox handler's loop: the thematic layers titled `title` take visibility `want`. */
    method SetThematicVisible(title: string, want: bool)
      modifies this
      ensures thematic == SetVisibleWhere(old(thematic), title, want)
      ensures baseLayers == old(baseLayers) && filters == old(filters) && store == old(store)
    {
      ghost var before := thematic;
      for i := 0 to |thematic|
        invariant |thematic| == |before|
        invariant forall j :: 0 <= j < i ==>
          thematic[j] == if before[j].title == title then before[j].(visible := want) else before[j]
        invariant forall j :: i <= j < |before| ==> thematic[j] == before[j]
        invariant baseLayers == old(baseLayers) && filters == old(filters) && store == old(store)
      {
        if thematic[i].title == title {
          thematic := thematic[i := thematic[i].(visible := want)];
        }
      }
    }

    /** The restore's loop: each thematic layer is visible exactly when its title is in `shown`. */
    method ShowThematic(shown: set<string>)
      modifies this
      ensures thematic == ShowTitles(old(thematic), shown)
      ensures baseLayers == old(baseLayers) && filters == old(filters) && store == old(store)
    {
      ghost var before := thematic;
      for i := 0 to |thematic|
        invariant |thematic| == |before|
        invariant forall j :: 0 <= j < i ==> thematic[j] == before[j].(visible := before[j].title in shown)
        invariant forall j :: i <= j < |before| ==> thematic[j] == before[j]
        invariant baseLayers == old(baseLayers) && filters == old(filters) && store == old(store)
      {
        thematic := thematic[i := thematic[i].(visible := thematic[i].title in shown)];
      }
    }

    /** `persistState()`: the store holds the snapshot of the current state. */
    method Persist()
      modifies this
      ensures store == Some(SnapshotOf(baseLayers, thematic, filters))
      ensures baseLayers == old(baseLayers) && thematic == old(thematic) && filters == old(filters)
    {
      store := Some(SnapshotOf(baseLayers, thematic, filters));
    }

    /**
     * `restoreState()`: false, changing nothing, when nothing is saved;
     * otherwise the saved base (when truthy), thematic visibility and
     * filters (when saved) are applied, and the result is true.
     */
    method Restore() returns (ok: bool)
      requires Valid()
      modifies this
      ensures Valid()
      ensures ok <==> old(store).Some?
      ensures !ok ==> baseLayers == old(baseLayers) && thematic == old(thematic) && filters == old(filters)
      ensures ok ==>
        var snap := old(store).value;
        && baseLayers == (if HasBase(snap) then ShowOnly(old(baseLayers), snap.base.value) else old(baseLayers))
        && thematic == ShowTitles(old(thematic), ShownTitles(snap))
        && filters == RestoredFilters(old(filters), snap)
      ensures store == old(store)
    {
      if store.None? {
        return false;
      }
      var snap := store.value;
      if snap.base.Some? && snap.base.value != "" {
        ShowOnlyBase(snap.base.value);
        KeepsTitles(old(baseLayers), snap.base.value);
      }
      var shown := if snap.visibleLayers.Some? then set t | t in snap.visibleLayers.value else {};
      ShowThematic(shown);
      assert Titles(thematic) == THEMATIC_TITLES;
      if snap.filters.Some? {
        var f := snap.filters.value;
        filters := Filters(OrEmpty(f.district), OrEmpty(f.ward), OrEmpty(f.search));
      }
      return true;
    }

    /** The radio handler: the chosen base layer alone is shown, then the state is saved. */
    method OnBaseRadioChange(value: string)
      requires Valid()
      modifies this
      ensures Valid()
      ensures baseLayers == ShowOnly(old(baseLayers), value)
      ensures thematic == old(thematic) && filters == old(filters)
      ensures store == Some(SnapshotOf(baseLayers, thematic, filters))
    {
      ShowOnlyBase(value);
      KeepsTitles(old(baseLayers), value);
      Persist();
    }

    /** The checkbox handler: the layers titled `title` take the box's state, then the state is saved. */
    method OnLayerCheckboxChange(title: string, checked: bool)
      requires Valid()
      modifies this
      ensures Valid()
      ensures thematic == SetVisibleWhere(old(thematic), title, checked)
      ensures baseLayers == old(baseLayers) && filters == old(filters)
      ensures store == Some(SnapshotOf(baseLayers, thematic, filters))
    {
      SetThematicVisible(title, checked);
      assert Titles(thematic) == THEMATIC_TITLES;
      Persist();
    }

    /** The district dropdown handler: the new district is kept as chosen, then the state is saved. */
    method OnDistrictChange(value: string)
      requires Valid()
      modifies this
      ensures Valid()
      ensures filters == old(filters).(district := value)
      ensures baseLayers == old(baseLayers) && thematic == old(thematic)
      ensures store == Some(SnapshotOf(baseLayers, thematic, filters))
    {
      filters := filters.(district := value);
      Persist();
    }

    /** The ward dropdown handler. */
    method OnWardChange(value: string)
      requires Valid()
      modifies this
      ensures Valid()
      ensures filters == old(filters).(ward := value)
      ensures baseLayers == old(baseLayers) && thematic == old(thematic)
      ensures store == Some(SnapshotOf(baseLayers, thematic, filters))
    {
      filters := filters.(ward := value);
      Persist();
    }

    /** The search box handler: the trimmed text is kept, and the state is not saved. */
    method OnSearchInput(value: string)
      requires Valid()
      modifies this
      ensures Valid()
      ensures filters == old(filters).(search := Trim(value))
      ensures baseLayers == old(baseLayers) && thematic == old(thematic) && store == old(store)
    {
      filters := filters.(search := Trim(value));
    }

    /** The clear button: all three filters are emptied, then the state is saved. */
    method OnClear()
      requires Valid()
      modifies this
      ensures Valid()
      ensures filters == NoFilters
      ensures baseLayers == old(baseLayers) && thematic == old(thematic)
      ensures store == Some(SnapshotOf(baseLayers, thematic, filters))
    {
      filters := Filters("", "", "");
      Persist();
    }

    /** The export button: the filtered features of the visible point layers. */
    method Export() returns (r: ExportOutcome)
      requires Valid()
      ensures r == if Selection(PointLayers(thematic), filters) == [] then NothingToExport
                   else Download(Selection(PointLayers(thematic), filters))
    {
      r := ExportFiltered(PointLayers(thematic), filters);
    }

    /** The dropdown options: the sorted distinct districts and wards of the point layers. */
    method DropdownOptions() returns (out: map<string, seq<string>>)
      requires Valid()
      ensures out.Keys == {"District", "Ward"}
      ensures forall f :: f in out ==> StringOrder.StrictlySorted(out[f])
      ensures forall f :: f in out ==> forall x :: x in out[f] <==> x in LayerValues(PointLayers(thematic), f)
    {
      out := CollectUniqueValues(PointLayers(thematic), DROPDOWN_FIELDS);
    }
  }

  /** Showing one layer changes no title. */
  lemma KeepsTitles(layers: seq<Layer>, title: string)
    requires Titles(layers) == BASE_TITLES
    ensures Titles(ShowOnly(layers, title)) == BASE_TITLES
    ensures AtMostOneVisible(ShowOnly(layers, title))
  {
    assert Titles(ShowOnly(layers, title)) == Titles(layers);
    forall i, j | 0 <= i < j < |layers| ensures layers[i].title != layers[j].title {
      assert layers[i].title == BASE_TITLES[i] && layers[j].title == BASE_TITLES[j];
    }
    ShowOnlyShowsOne(layers, title);
  }
}
