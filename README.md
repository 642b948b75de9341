# GeoHub web map: a verified model of the page logic in `Web_Map/main.js`

`Web_Map/main.js` drives a single-page map viewer. The page shows four base maps, ten thematic layers and six point layers (sand dams, water points, boreholes, gardens, woodlots and gabions). Most of the file builds map-library objects. The part modelled here is the logic the page owns:

- **the point-feature filter.** `filterState` holds a district, a ward and a search text. The handlers change it, and `passesFilters` with its `clean` helper decides which point features are drawn and exported (`filtering.dfy`);
- **dropdown values.** `collectUniqueValues` gathers the distinct non-blank values of `District` and `Ward` across the point layers and sorts them (`dropdowns.dfy`);
- **the export selection.** `exportFiltered` chooses the passing features of the visible point layers (`exporting.dfy`);
- **feature details.** `getImageUrlFromFeature` looks up an image by priority and falls back to the feature's name. `buildAttributesTable` orders the attribute rows and renders them. `escapeHtml` and `escapeAttr` do the escaping (`details.dfy`, `escaping.dfy`);
- **the road style table** `roadStyle` (`roads.dfy`);
- **the session.** The radio and checkbox handlers change layer visibility. `persistState` writes the single stored session and `restoreState` reads it back. The point-layer test `isPointLayerTitle` sits beside the layer titles (`session.dfy`, class `GeoHub`).

Supporting modules:

- `values.dfy` models attribute values and the JavaScript string operations the code relies on: truthiness, `String(v)`, `trim`, `toLowerCase` and `includes`.
- `order.dfy` holds the string order and a sort.
- `features.dfy` defines features and layers.
- `collections.dfy` holds `filter` and a union over a sequence.

Modelling choices:

- **Features.** A feature is a map from attribute name to a value. The value is `Null`, a string, a safe integer (magnitude at most 2^53 - 1, which `String` writes as a plain decimal numeral) or a boolean. `Null` stands for `null` and for a missing attribute, which every expression in the source treats alike.
- **Layers.** A layer is a record with a title, a visibility flag and its features.
- **In-place updates.** Where the source changes state in place, the model does too. `GeoHub` holds the base layers, the thematic layers, `filterState` and the stored session as fields. Its handlers loop over the layers the way the source's `forEach(l => l.setVisible(...))` does. `collectUniqueValues`, `exportFiltered`, `getImageUrlFromFeature` and `buildAttributesTable` are methods with loops, each proved against a specification function.

The model follows the code in two places where some descriptions of the application differ:

- The code has no reserve filter and no dynamic layer/field/value filter; only district, ward and search exist.
- `restoreState` calls `JSON.parse` without a guard. So the model does not claim that corrupt storage is read as "nothing saved". A stored session is a `Snapshot` whose fields may each be missing.

Two consequences of the code as written are stated as lemmas:

- `Filtering.BlankNamesHidesName`: a `Names` value of only spaces is truthy. It therefore hides `Name`, and any search rejects the feature.
- `Roads.PaddedTypeIsUnknown`: `roadStyle` lower-cases the road type but does not trim it, so `" Tracks"` is drawn as an unknown, dotted road.

## Model

| member | source | states |
|---|---|---|
| Values.TrimIgnoresPadding | Web_Map/main.js:370 | trimming ignores any whitespace padding around a string |
| Values.TrimEmptyIffBlank | Web_Map/main.js:370 | a trimmed string is empty exactly when the original is all whitespace |
| Values.TrimOfLower | Web_Map/main.js:370 | trimming and lower-casing commute, so `clean` may do them in either order |
| Values.LowerIdempotent | Web_Map/main.js:370 | lower-casing twice is lower-casing once |
| Values.SafeIntegerIsPlainDecimal | Web_Map/main.js:370 | a safe integer's `String` has at most 16 digits and a sign, so it is never in exponent form |
| Values.Contains | Web_Map/main.js:366 | `includes` holds exactly when the text occurs at some position |
| StringOrder.LessIrreflexive | Web_Map/main.js:399 | no string sorts before itself |
| StringOrder.LessTransitive | Web_Map/main.js:399 | the sort order is transitive |
| StringOrder.LessTotal | Web_Map/main.js:399 | any two distinct strings are ordered one way or the other |
| StringOrder.SortedHasNoDuplicates | Web_Map/main.js:399 | a strictly ascending list holds no value twice |
| StringOrder.Insert | Web_Map/main.js:399 | inserting a new value into a sorted list keeps it sorted and adds exactly that value |
| StringOrder.SortedElements | Web_Map/main.js:399 | sorting a collection of distinct strings gives exactly its elements, ascending |
| Collections.FilterMembers | Web_Map/main.js:439 | `filter` keeps exactly the elements that pass |
| Collections.FilterConcat | Web_Map/main.js:439 | filtering keeps the order: a concatenation filters part by part |
| Collections.FilterKeepsAll | Web_Map/main.js:439 | a filter every element passes changes nothing |
| Collections.UnionOverIff | Web_Map/main.js:395-397 | a value is in the union over a sequence exactly when some element contributes it |
| Filtering.Clean | Web_Map/main.js:370 | the cleaned text is empty exactly for a missing or blank value, and is already lower case |
| Filtering.Passes | Web_Map/main.js:359-368 | a feature passes iff the district and ward match after cleaning (when set) and, when a search is set, the cleaned name is non-empty and contains the cleaned search |
| Filtering.NoFiltersPassEverything | Web_Map/main.js:364-368 | with district, ward and search empty, every feature passes |
| Filtering.MismatchRejects | Web_Map/main.js:364-365 | a set district or ward that differs from the feature's after cleaning rejects it |
| Filtering.SearchRejectsNameless | Web_Map/main.js:367 | a search rejects every feature whose cleaned name is empty |
| Filtering.CleanIgnoresCaseAndPadding | Web_Map/main.js:370 | `clean` ignores surrounding whitespace and letter case |
| Filtering.DistrictsWithSameCleanTextAgree | Web_Map/main.js:364 | two district choices with the same cleaned text select the same features |
| Filtering.DistrictMatchIgnoresCaseAndPadding | Web_Map/main.js:359-370 | a padded, differently cased district selects the same features as its lower-cased text |
| Filtering.BlankNamesHidesName | Web_Map/main.js:362-367 | a blank but present `Names` hides `Name`, so any search rejects the feature |
| Filtering.DistrictScenario | Web_Map/main.js:359-370 | district `Chikwalakwala` accepts a feature whose District is `chikwalakwala ` |
| Dropdowns.FeatureValuesIff | Web_Map/main.js:394-397 | the values gathered from a layer are exactly the listable values of its features |
| Dropdowns.LayerValuesIff | Web_Map/main.js:394-397 | the values gathered are exactly the `String(v)` of the non-null, non-blank values of the field in any feature of any layer |
| Dropdowns.CollectUniqueValues | Web_Map/main.js:392-400 | one entry per requested field, each strictly ascending and holding exactly the gathered values |
| Dropdowns.GatherValues | Web_Map/main.js:393-398 | filling the sets over all layers gives each field's gathered values |
| Dropdowns.PushLayer | Web_Map/main.js:395-397 | one layer adds the values of its features to each field |
| Dropdowns.PushFeature | Web_Map/main.js:394-397 | one feature adds its listable value of each field, and nothing else |
| Exporting.ExportFiltered | Web_Map/main.js:434-450 | the export is "nothing to export" when the selection is empty, and otherwise downloads exactly the selection |
| Exporting.PassingMembers | Web_Map/main.js:439 | a layer contributes exactly its features that pass the filter |
| Exporting.SelectionOfConcat | Web_Map/main.js:437-446 | the selection follows layer order: the selection of consecutive layer lists is concatenated |
| Exporting.SelectionMembers | Web_Map/main.js:437-446 | a feature is exported exactly when it passes and some visible layer holds it |
| Exporting.NothingToExportIff | Web_Map/main.js:447 | nothing is exported exactly when no visible layer holds a passing feature |
| Exporting.PassingEverything | Web_Map/main.js:439 | with no filter set, a visible layer contributes all its features, in order |
| Escaping.EscapeHtml | Web_Map/main.js:645 | the output holds no `<`, `>`, `"` or `'`, and text without `& < > " '` is unchanged |
| Escaping.ReplaceQuotesWithoutQuotes | Web_Map/main.js:646 | replacing quotes in quote-free text changes nothing |
| Escaping.EscapeAttr | Web_Map/main.js:646 | `escapeAttr(s)` equals `escapeHtml(s)` |
| Escaping.UnescapeEscapeHtml | Web_Map/main.js:645 | every character is replaced by an entity that reads back as it: unescaping the escaped text gives the text |
| Escaping.EscapeHtmlInjective | Web_Map/main.js:645 | two texts that escape alike are equal |
| Details.GetImageUrl | Web_Map/main.js:529-543 | the lookup loop returns the image URL the three-step rule defines |
| Details.DirectImageTakesFirstUsable | Web_Map/main.js:531-534 | the first key with a usable value wins over every later key, and its value is trimmed |
| Details.DirectImageNoneIff | Web_Map/main.js:531-534 | no direct image exactly when no key has a usable value |
| Details.ImageUrlFromKey | Web_Map/main.js:531-534 | step 1: the trimmed value of the first usable image key is the URL |
| Details.ImageUrlFromName | Web_Map/main.js:536-542 | steps 2 and 3: otherwise the base directory, the encoded trimmed name (`Names` before `Name`) and `.jpg`, or nothing |
| Details.NoImageIff | Web_Map/main.js:529-543 | no URL exactly when no image key and no name is usable |
| Details.KeyedRowsSpec | Web_Map/main.js:549-552 | the preferred rows are preferred keys with their shown values, and none with a shown value is missing |
| Details.KeyedRowsDistinct | Web_Map/main.js:546-552 | the preferred rows hold each key once |
| Details.PreferredRows | Web_Map/main.js:549-552 | the first pass builds the preferred rows in their listed order |
| Details.OtherRows | Web_Map/main.js:554-559 | the second pass gives the keys other than `geometry` and those already shown, with shown values, strictly ascending and complete |
| Details.AttributeRows | Web_Map/main.js:546-559 | preferred rows first, in order, then the remaining shown keys in sorted order |
| Details.AppendSortedRow | Web_Map/main.js:555-559 | appending the rows in key order keeps the keys ascending |
| Details.ArrangedRowsDrawn | Web_Map/main.js:546-559 | every row is a non-`geometry` attribute with its own shown value |
| Details.ArrangedRowsComplete | Web_Map/main.js:546-559 | every non-`geometry` attribute with a shown value has a row |
| Details.ArrangedRowsDistinct | Web_Map/main.js:546-559 | no key has two rows |
| Details.ArrangedIsFaithful | Web_Map/main.js:546-559 | the rows are exactly the shown attributes other than `geometry`, each once |
| Details.FaithfulEmptyIff | Web_Map/main.js:561 | there are no rows exactly when no attribute but `geometry` has a shown value |
| Details.TableHtml | Web_Map/main.js:561-565 | only a table without rows is `<em>No attributes</em>` |
| Details.BuildAttributesTable | Web_Map/main.js:545-566 | the table renders rows in the order above, and is `<em>No attributes</em>` exactly when nothing but `geometry` has a shown value |
| Details.ParseRowOfCells | Web_Map/main.js:563-564 | a rendered row of escaped cells reads back as its cells |
| Details.RowsHtml | Web_Map/main.js:563-564 | the table body loses nothing: it reads back as each row's key and `String(value)`, in order |
| Roads.RoadStyleOf | Web_Map/main.js:139-195 | unknown types, and only they, are dotted `[4, 4]` in the base brown; the label is `String(Name)` exactly when `Name` is truthy; widths lie between 1.6 and 5.2, and 5.2 is only for national roads |
| Roads.WidthsDecreaseAlongTypes | Web_Map/main.js:148-166 | the known types are drawn ever thinner in their listed order |
| Roads.UnknownTypeWidth | Web_Map/main.js:163-171 | every known type but `tracks` is wider than an unknown type; `tracks` (1.6) is thinner than an unknown type (1.8) |
| Roads.TypeIgnoresCase | Web_Map/main.js:141 | the road type matches regardless of letter case |
| Roads.PaddedTypeIsUnknown | Web_Map/main.js:141 | the type is not trimmed, so `" Tracks"` is dotted |
| Session.PointLayersAreTheTitledOnes | Web_Map/main.js:265 | the point layers carry exactly the titles `isPointLayerTitle` accepts, in that order |
| Session.IsPointLayerTitle | Web_Map/main.js:373-375 | a title is a point-layer title exactly when it is a thematic title other than those of the area and line layers |
| Session.ShowOnlyShowsOne | Web_Map/main.js:247 | with distinct titles, a base choice leaves at most one base layer visible |
| Session.FirstVisibleTitleSpec | Web_Map/main.js:464 | `find` gives the title of the first visible layer (no earlier layer is visible), and nothing exactly when none is visible |
| Session.VisibleTitlesIff | Web_Map/main.js:465-467 | the saved titles are exactly those of visible thematic layers |
| Session.SnapshotOf | Web_Map/main.js:469-474 | the snapshot holds the first visible base title (`OSMStand` when none), the visible thematic titles and the three filter fields |
| Session.RestoredFilters | Web_Map/main.js:501-505 | each filter field takes its stored value or `''`; without stored filters nothing changes |
| Session.RestoreFiltersRoundTrip | Web_Map/main.js:469-505 | restoring a saved session reproduces `filterState` |
| Session.RestoreThematicRoundTrip | Web_Map/main.js:465-498 | restoring reproduces each thematic layer's visibility |
| Session.RestoreVisibleSetRoundTrip | Web_Map/main.js:465-498 | restoring reproduces the set of visible thematic titles, even with repeated titles |
| Session.RestoreBaseRoundTrip | Web_Map/main.js:464-494 | with one base layer visible, restoring shows it again; with none, `OSMStand` is saved |
| Session.ShowOnlyTheVisibleOne | Web_Map/main.js:493 | showing only the visible base layer's title reproduces every base layer's visibility |
| Session.KeepsTitles | Web_Map/main.js:247 | a base choice keeps the titles and leaves at most one base layer visible |
| Session.InitialBase | Web_Map/main.js:12-55 | the base layers start with `OSMStand` alone visible |
| Session.InitialThematic | Web_Map/main.js:229-240 | the thematic layers start with `districts` alone visible, each holding the features loaded for its title |
| Session.GeoHub.constructor | Web_Map/main.js:220 | the page starts from the initial layers and empty `filterState`; with nothing stored that is its state, otherwise the stored base (when truthy), thematic visibility and filters are applied to it (main.js:514) |
| Session.GeoHub.ShowOnlyBase | Web_Map/main.js:247 | the loop over base layers sets each visible exactly when its title is the chosen one |
| Session.GeoHub.SetThematicVisible | Web_Map/main.js:259 | the loop over thematic layers sets those with the title to the wanted state |
| Session.GeoHub.ShowThematic | Web_Map/main.js:497-498 | the loop over thematic layers shows exactly the stored titles |
| Session.GeoHub.Persist | Web_Map/main.js:462-476 | the store holds the snapshot of the current state, and nothing else changes |
| Session.GeoHub.Restore | Web_Map/main.js:480-511 | false with no change when nothing is stored; otherwise the truthy base, the thematic visibility and the stored filters are applied, and true |
| Session.GeoHub.OnBaseRadioChange | Web_Map/main.js:245-250 | the chosen base layer alone is shown, then the session is saved |
| Session.GeoHub.OnLayerCheckboxChange | Web_Map/main.js:255-262 | the layers with that title take the box's state, then the session is saved |
| Session.GeoHub.OnDistrictChange | Web_Map/main.js:272 | the district becomes the chosen value, then the session is saved |
| Session.GeoHub.OnWardChange | Web_Map/main.js:273 | the ward becomes the chosen value, then the session is saved |
| Session.GeoHub.OnSearchInput | Web_Map/main.js:274 | the search becomes the trimmed input, and the session is not saved |
| Session.GeoHub.OnClear | Web_Map/main.js:276-282 | all three filters are emptied, then the session is saved |
| Session.GeoHub.Export | Web_Map/main.js:292 | the export covers the point layers under the current filters |
| Session.GeoHub.DropdownOptions | Web_Map/main.js:265-270 | the dropdowns list the sorted distinct districts and wards of the point layers |

## Left out

- Map, view, controls, tile sources and the map library's style objects are not modelled. `roadStyle` returns a plain record instead of a style object.
- The view's centre, zoom and rotation are not in the snapshot. They are floating-point data handed to the map library.
- `wardFillStyle` is not modelled. It relies on `Number`/`isNaN` floating-point thresholds and is never used.
- `labelStyle` is not modelled; it only builds a map-library style object.
- Numbers are safe integers (magnitude at most 2^53 - 1): `String(v)` is modelled for them, booleans and strings only. Fractional numbers, larger numbers (inexact, and from 10^21 on written in exponent form such as `1e+21`) and objects are not values of the model.
- Strings are sequences of Unicode code points, not of UTF-16 code units. A lone surrogate, on which `encodeURIComponent` throws a `URIError` (main.js:538), is not representable.
- `toLowerCase` is modelled on ASCII and Latin-1 capitals only; other Unicode case mappings are not modelled.
- `localeCompare` and the default `sort` are modelled as lexicographic order on code points; locale rules are not modelled. The default `sort` (main.js:555) compares UTF-16 code units, which orders characters above U+FFFF against those from U+E000 to U+FFFF differently; the model does not capture that difference.
- `encodeURIComponent` is a function parameter of the image lookup; its percent-encoding (section 2.1 of RFC 3986) is not modelled.
- JSON serialisation and `localStorage` are not modelled. The store is an optional `Snapshot`. A stored value that does not parse is not representable, because the source's `JSON.parse` is unguarded and would throw.
- Geometry reprojection in the export, the GeoJSON writing, the file name and the download are not modelled; the export is the selected feature list.
- `waitForVectorReady` and the `Promise.all` that fills the dropdowns are asynchronous and not modelled; `GeoHub.DropdownOptions` is the value they compute once all point layers have loaded. `fillSelect` (DOM) is not modelled.
- The DOM side of the handlers is not modelled. This covers the radio and checkbox `checked` flags, the select and input values, `applyFilters` re-rendering and the toasts.
- The click dispatch, the modal, the new-tab page and the coordinate pop-ups are not modelled.
- The thematic layers' features are given to the constructor; loading them is not modelled.
- Session.GeoHub: `pointLayers` are the same objects as the six thematic point layers; the model picks them from the thematic layers by position each time rather than sharing objects.
- Session.PointLayers: requires the ten thematic layers the page always has.
