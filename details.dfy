/**
 * The feature-detail helpers: the image lookup `getImageUrlFromFeature` and
 * the attribute table `buildAttributesTable`.
 */
module Details {
  import opened Values
  import opened Features
  import opened StringOrder
  import opened Escaping

  // ---- getImageUrlFromFeature ----

  const IMAGE_BASE_DIR := "./resources/images/dams/"
  const IMAGE_EXT := ".jpg"

  /** The attributes that may hold an image URL, the earlier preferred. */
  const IMAGE_KEYS: seq<string> := [
    "imgUrl", "imgURL", "IMGURL",
    "Picture", "picture", "Photo", "photo", "Image", "image", "Img", "img",
    "ImageURL", "image_url", "URL", "url", "Link", "link", "PIC_URL", "pic_url"
  ]

  /** `v && String(v).trim()`: a value that may be used as an image URL or a name. */
  predicate Usable(v: Value)
  {
    Truthy(v) && Trim(ToStr(v)) != ""
  }

  /** The trimmed value of the first of `keys` whose value is usable. */
  function DirectImage(ft: Feature, keys: seq<string>): Option<string>
  {
    if keys == [] then None
    else if Usable(Get(ft, keys[0])) then Some(Trim(ToStr(Get(ft, keys[0]))))
    else DirectImage(ft, keys[1..])
  }

  /** The URL built from the feature's name, `encode` standing for `encodeURIComponent`. */
  function NamedImage(ft: Feature, encode: string -> string): Option<string>
  {
    if Usable(NameValue(ft)) then Some(IMAGE_BASE_DIR + encode(Trim(ToStr(NameValue(ft)))) + IMAGE_EXT)
    else None
  }

  function ImageUrlOf(ft: Feature, encode: string -> string): Option<string>
  {
    if DirectImage(ft, IMAGE_KEYS).Some? then DirectImage(ft, IMAGE_KEYS) else NamedImage(ft, encode)
  }

  /** `getImageUrlFromFeature(ft)`. */
  method GetImageUrl(ft: Feature, encode: string -> string) returns (r: Option<string>)
    ensures r == ImageUrlOf(ft, encode)
  {
    for i := 0 to |IMAGE_KEYS|
      invariant DirectImage(ft, IMAGE_KEYS) == DirectImage(ft, IMAGE_KEYS[i..])
    {
      var v := Get(ft, IMAGE_KEYS[i]);
      if Truthy(v) && Trim(ToStr(v)) != "" {
        return Some(Trim(ToStr(v)));
      }
      assert IMAGE_KEYS[i..][1..] == IMAGE_KEYS[i + 1..];
    }
    var name := NameValue(ft);
    if Truthy(name) && Trim(ToStr(name)) != "" {
      return Some(IMAGE_BASE_DIR + encode(Trim(ToStr(name))) + IMAGE_EXT);
    }
    return None;
  }

  /** A usable key wins over every later key. */
  lemma {:induction false} DirectImageTakesFirstUsable(ft: Feature, keys: seq<string>, i: nat)
    requires i < |keys| && Usable(Get(ft, keys[i]))
    requires forall j :: 0 <= j < i ==> !Usable(Get(ft, keys[j]))
    ensures DirectImage(ft, keys) == Some(Trim(ToStr(Get(ft, keys[i]))))
  {
    if i > 0 {
      DirectImageTakesFirstUsable(ft, keys[1..], i - 1);
    }
  }

  lemma {:induction false} DirectImageNoneIff(ft: Feature, keys: seq<string>)
    ensures DirectImage(ft, keys) == None <==> forall j :: 0 <= j < |keys| ==> !Usable(Get(ft, keys[j]))
  {
    if keys != [] {
      DirectImageNoneIff(ft, keys[1..]);
      assert forall j :: 1 <= j < |keys| ==> keys[j] == keys[1..][j - 1];
    }
  }

  /** Step 1: the first image key with a usable value gives the URL, trimmed. */
  lemma ImageUrlFromKey(ft: Feature, encode: string -> string, i: nat)
    requires i < |IMAGE_KEYS| && Usable(Get(ft, IMAGE_KEYS[i]))
    requires forall j :: 0 <= j < i ==> !Usable(Get(ft, IMAGE_KEYS[j]))
    ensures ImageUrlOf(ft, encode) == Some(Trim(ToStr(Get(ft, IMAGE_KEYS[i]))))
  {
    DirectImageTakesFirstUsable(ft, IMAGE_KEYS, i);
  }

  /**
   * Steps 2 and 3: with no usable image key, the URL is built from the
   * trimmed name (`Names` before `Name`), or there is none.
   */
  lemma ImageUrlFromName(ft: Feature, encode: string -> string)
    requires forall j :: 0 <= j < |IMAGE_KEYS| ==> !Usable(Get(ft, IMAGE_KEYS[j]))
    ensures ImageUrlOf(ft, encode) ==
      if Usable(NameValue(ft)) then Some(IMAGE_BASE_DIR + encode(Trim(ToStr(NameValue(ft)))) + ".jpg")
      else None
  {
    DirectImageNoneIff(ft, IMAGE_KEYS);
  }

  /** The image is missing exactly when no image key and no name is usable. */
  lemma NoImageIff(ft: Feature, encode: string -> string)
    ensures ImageUrlOf(ft, encode) == None <==>
      (forall j :: 0 <= j < |IMAGE_KEYS| ==> !Usable(Get(ft, IMAGE_KEYS[j]))) && !Usable(NameValue(ft))
  {
    DirectImageNoneIff(ft, IMAGE_KEYS);
  }

  // ---- buildAttributesTable ----

  /** The attributes shown first, in this order. */
  const PREFERRED: seq<string> :=
    ["Names", "Name", "Project", "Type", "Program", "District", "Ward", "Source", "Village", "Longitude", "Latitude"]

  type Row = (string, Value)

  /** The rows for those of `keys` whose values are shown, in the order of `keys`. */
  function KeyedRows(ft: Feature, keys: seq<string>): seq<Row>
  {
    if keys == [] then []
    else
      var k := keys[|keys| - 1];
      KeyedRows(ft, keys[..|keys| - 1]) + (if NonBlank(Get(ft, k)) then [(k, Get(ft, k))] else [])
  }

  function RowKeys(rows: seq<Row>): seq<string>
  {
    seq(|rows|, i requires 0 <= i < |rows| => rows[i].0)
  }

  /** The keyed rows are drawn from `keys`, hold the shown values, and miss no key with a shown value. */
  lemma {:induction false} KeyedRowsSpec(ft: Feature, keys: seq<string>)
    ensures forall r :: r in KeyedRows(ft, keys) ==> r.0 in keys && r.1 == Get(ft, r.0) && NonBlank(r.1)
    ensures forall k :: k in keys && NonBlank(Get(ft, k)) ==> k in KeySet(KeyedRows(ft, keys))
    decreases |keys|
  {
    if keys != [] {
      var init, k := keys[..|keys| - 1], keys[|keys| - 1];
      KeyedRowsSpec(ft, init);
      assert keys == init + [k];
      var rows := KeyedRows(ft, keys);
      var initRows := KeyedRows(ft, init);
      assert rows[..|initRows|] == initRows;
      forall k' | k' in keys && NonBlank(Get(ft, k')) ensures k' in KeySet(rows) {
        if k' in init {
          var r :| r in initRows && r.0 == k';
          assert r in rows;
        } else {
          assert rows[|rows| - 1] in rows;
        }
      }
    }
  }

  /** Keys from a duplicate-free list, each once. */
  lemma {:induction false} KeyedRowsDistinct(ft: Feature, keys: seq<string>)
    requires forall i, j :: 0 <= i < j < |keys| ==> keys[i] != keys[j]
    ensures forall i, j :: 0 <= i < j < |KeyedRows(ft, keys)| ==> KeyedRows(ft, keys)[i].0 != KeyedRows(ft, keys)[j].0
    decreases |keys|
  {
    if keys != [] {
      var init, k := keys[..|keys| - 1], keys[|keys| - 1];
      KeyedRowsDistinct(ft, init);
      KeyedRowsSpec(ft, init);
      var initRows := KeyedRows(ft, init);
      forall r | r in initRows ensures r.0 != k {
        var m :| 0 <= m < |init| && init[m] == r.0;
        assert keys[m] == r.0;
      }
    }
  }

  /** The keys of some rows, as `new Set(rows.map(([k]) => k))` collects them. */
  function KeySet(rows: seq<Row>): set<string>
  {
    set r | r in rows :: r.0
  }

  /**
   * The second pass of `buildAttributesTable`: the keys of `keys` (sorted),
   * skipping `geometry` and those in `seen`, whose values are shown.
   */
  method OtherRows(ft: Feature, keys: seq<string>, seen: set<string>) returns (rest: seq<Row>)
    requires StrictlySorted(keys)
    ensures StrictlySorted(RowKeys(rest))
    ensures forall r :: r in rest ==>
      r.0 in keys && r.0 != "geometry" && r.0 !in seen && r.1 == Get(ft, r.0) && NonBlank(r.1)
    ensures forall k :: k in keys && k != "geometry" && k !in seen && NonBlank(Get(ft, k)) ==> k in KeySet(rest)
  {
    rest := [];
    for i := 0 to |keys|
      invariant StrictlySorted(RowKeys(rest))
      invariant forall r :: r in rest ==>
        r.0 in keys[..i] && r.0 != "geometry" && r.0 !in seen && r.1 == Get(ft, r.0) && NonBlank(r.1)
      invariant forall m :: 0 <= m < i && keys[m] != "geometry" && keys[m] !in seen && NonBlank(Get(ft, keys[m])) ==>
        keys[m] in KeySet(rest)
    {
      var k := keys[i];
      if k != "geometry" && k !in seen {
        var v := Get(ft, k);
        if v != Null && Trim(ToStr(v)) != "" {
          AppendSortedRow(rest, keys, i, (k, v));
          assert (k, v) in rest + [(k, v)];
          rest := rest + [(k, v)];
        }
      }
    }
    assert keys[..|keys|] == keys;
  }

  /**
   * The order `buildAttributesTable` lists its rows in: first the preferred
   * keys with shown values, in their listed order; then every other key
   * except `geometry` whose value is shown, in sorted order.
   */
  predicate Arranged(ft: Feature, rows: seq<Row>)
  {
    var pre := KeyedRows(ft, PREFERRED);
    && |pre| <= |rows| && rows[..|pre|] == pre
    && StrictlySorted(RowKeys(rows[|pre|..]))
    && (forall r :: r in rows[|pre|..] ==>
          r.0 in ft.props && r.0 != "geometry" && r.0 !in PREFERRED && r.1 == ft.props[r.0] && NonBlank(r.1))
    && (forall k :: k in ft.props && k != "geometry" && k !in PREFERRED && NonBlank(ft.props[k]) ==>
          k in KeySet(rows[|pre|..]))
  }

  /**
   * The rows show the feature's attributes: each row is an attribute other
   * than `geometry` with a shown value, no such attribute is missing, and no
   * key appears twice.
   */
  predicate Faithful(ft: Feature, rows: seq<Row>)
  {
    && (forall r :: r in rows ==> r.0 in ft.props && r.0 != "geometry" && r.1 == ft.props[r.0] && NonBlank(r.1))
    && (forall k :: k in ft.props && k != "geometry" && NonBlank(ft.props[k]) ==> k in KeySet(rows))
    && (forall i, j :: 0 <= i < j < |rows| ==> rows[i].0 != rows[j].0)
  }

  lemma ArrangedRowsDrawn(ft: Feature, rows: seq<Row>)
    requires Arranged(ft, rows)
    ensures forall r :: r in rows ==> r.0 in ft.props && r.0 != "geometry" && r.1 == ft.props[r.0] && NonBlank(r.1)
  {
    var pre := KeyedRows(ft, PREFERRED);
    KeyedRowsSpec(ft, PREFERRED);
    assert rows == pre + rows[|pre|..];
    assert "geometry" !in PREFERRED;
  }

  lemma ArrangedRowsComplete(ft: Feature, rows: seq<Row>)
    requires Arranged(ft, rows)
    ensures forall k :: k in ft.props && k != "geometry" && NonBlank(ft.props[k]) ==> k in KeySet(rows)
  {
    var pre := KeyedRows(ft, PREFERRED);
    var rest := rows[|pre|..];
    KeyedRowsSpec(ft, PREFERRED);
    assert rows == pre + rest;
    forall k | k in ft.props && k != "geometry" && NonBlank(ft.props[k]) ensures k in KeySet(rows) {
      if k in PREFERRED {
        var r :| r in pre && r.0 == k;
        assert r in rows;
      } else {
        var r :| r in rest && r.0 == k;
        assert r in rows;
      }
    }
  }

  predicate DistinctKeys(rows: seq<Row>)
  {
    forall i, j :: 0 <= i < j < |rows| ==> rows[i].0 != rows[j].0
  }

  lemma DistinctKeysConcat(a: seq<Row>, b: seq<Row>)
    requires DistinctKeys(a) && DistinctKeys(b)
    requires forall r, r' :: r in a && r' in b ==> r.0 != r'.0
    ensures DistinctKeys(a + b)
  {
    forall i, j | 0 <= i < j < |a + b| ensures (a + b)[i].0 != (a + b)[j].0 {
      if i < |a| && j >= |a| {
        assert (a + b)[i] == a[i] && a[i] in a;
        assert (a + b)[j] == b[j - |a|] && b[j - |a|] in b;
      } else if i >= |a| {
        assert (a + b)[i] == b[i - |a|] && (a + b)[j] == b[j - |a|];
      }
    }
  }

  lemma SortedRowsDistinct(rows: seq<Row>)
    requires StrictlySorted(RowKeys(rows))
    ensures DistinctKeys(rows)
  {
    SortedHasNoDuplicates(RowKeys(rows));
    forall i, j | 0 <= i < j < |rows| ensures rows[i].0 != rows[j].0 {
      assert RowKeys(rows)[i] == rows[i].0 && RowKeys(rows)[j] == rows[j].0;
    }
  }

  lemma ArrangedRowsDistinct(ft: Feature, rows: seq<Row>)
    requires Arranged(ft, rows)
    ensures forall i, j :: 0 <= i < j < |rows| ==> rows[i].0 != rows[j].0
  {
    var pre := KeyedRows(ft, PREFERRED);
    var rest := rows[|pre|..];
    KeyedRowsSpec(ft, PREFERRED);
    KeyedRowsDistinct(ft, PREFERRED);
    SortedRowsDistinct(rest);
    DistinctKeysConcat(pre, rest);
    assert rows == pre + rest;
  }

  lemma ArrangedIsFaithful(ft: Feature, rows: seq<Row>)
    requires Arranged(ft, rows)
    ensures Faithful(ft, rows)
  {
    ArrangedRowsDrawn(ft, rows);
    ArrangedRowsComplete(ft, rows);
    ArrangedRowsDistinct(ft, rows);
  }

  /** Faithful rows are missing exactly when no attribute but `geometry` has a shown value. */
  lemma FaithfulEmptyIff(ft: Feature, rows: seq<Row>)
    requires Faithful(ft, rows)
    ensures rows == [] <==> forall k :: k in ft.props && k != "geometry" ==> !NonBlank(ft.props[k])
  {
    if rows != [] {
      assert rows[0] in rows;
    }
  }

  /** The first pass of `buildAttributesTable`: the preferred keys whose values are shown. */
  method PreferredRows(ft: Feature) returns (pre: seq<Row>)
    ensures pre == KeyedRows(ft, PREFERRED)
  {
    pre := [];
    for i := 0 to |PREFERRED|
      invariant pre == KeyedRows(ft, PREFERRED[..i])
    {
      var k := PREFERRED[i];
      var v := Get(ft, k);
      assert PREFERRED[..i + 1][..i] == PREFERRED[..i];
      if v != Null && Trim(ToStr(v)) != "" {
        pre := pre + [(k, v)];
      }
    }
    assert PREFERRED[..|PREFERRED|] == PREFERRED;
  }

  /**
   * The rows of `buildAttributesTable(ft)`: first the preferred keys with
   * shown values, in their listed order; then every other key except
   * `geometry` whose value is shown, in sorted order.
   */
  method AttributeRows(ft: Feature) returns (rows: seq<Row>)
    ensures Arranged(ft, rows)
  {
    var pre := PreferredRows(ft);
    KeyedRowsSpec(ft, PREFERRED);
    var seen := KeySet(pre);
    var keys := SortedElements(ft.props.Keys);
    var rest := OtherRows(ft, keys, seen);
    rows := pre + rest;
    assert rows[..|pre|] == pre && rows[|pre|..] == rest;
  }

  /** Appending the row for `keys[i]` after rows drawn from `keys[..i]` keeps the keys sorted. */
  lemma AppendSortedRow(rest: seq<Row>, keys: seq<string>, i: nat, row: Row)
    requires StrictlySorted(keys) && i < |keys| && row.0 == keys[i]
    requires StrictlySorted(RowKeys(rest))
    requires forall r :: r in rest ==> r.0 in keys[..i]
    ensures StrictlySorted(RowKeys(rest + [row]))
    ensures forall m :: 0 <= m < |rest| ==> RowKeys(rest + [row])[m] == RowKeys(rest)[m]
  {
    var ks := RowKeys(rest + [row]);
    forall a, b | 0 <= a < b < |ks| ensures Less(ks[a], ks[b]) {
      if b == |rest| {
        assert rest[a] in rest;
        var m :| 0 <= m < i && keys[m] == rest[a].0;
      } else {
        assert ks[a] == RowKeys(rest)[a] && ks[b] == RowKeys(rest)[b];
      }
    }
  }

  // ---- The HTML of the table ----

  const NO_ATTRIBUTES := "<em>No attributes</em>"
  const TABLE_OPEN := "<table class=\"fm-table\">"
  const TABLE_CLOSE := "</table>"

  /**
   * The rows' markup: per row, the escaped key and value text in a `<tr>`,
   * joined. It loses nothing: it reads back as the keys and value texts, in order.
   */
  function RowsHtml(rows: seq<Row>): (r: string)
    ensures ParseRows(r) == Some(RowTexts(rows))
  {
    if rows == [] then ""
    else
      var k, v := EscapeHtml(rows[0].0), EscapeHtml(ToStr(rows[0].1));
      var rest := RowsHtml(rows[1..]);
      ParseRowOfCells(k, v, rest);
      UnescapeEscapeHtml(rows[0].0);
      UnescapeEscapeHtml(ToStr(rows[0].1));
      "<tr><th>" + (k + ("</th><td>" + (v + ("</td></tr>" + rest))))
  }

  /** The markup `buildAttributesTable` returns for its rows: only a table without rows is the "No attributes" marker. */
  function TableHtml(rows: seq<Row>): (r: string)
    ensures r == NO_ATTRIBUTES <==> rows == []
  {
    if rows == [] then NO_ATTRIBUTES else TABLE_OPEN + RowsHtml(rows) + TABLE_CLOSE
  }

  /** `buildAttributesTable(ft)`. */
  method BuildAttributesTable(ft: Feature) returns (html: string)
    ensures exists rows :: Arranged(ft, rows) && html == TableHtml(rows)
    ensures html == NO_ATTRIBUTES <==> forall k :: k in ft.props && k != "geometry" ==> !NonBlank(ft.props[k])
  {
    var rows := AttributeRows(ft);
    ArrangedIsFaithful(ft, rows);
    FaithfulEmptyIff(ft, rows);
    if |rows| == 0 {
      html := NO_ATTRIBUTES;
    } else {
      html := TABLE_OPEN + RowsHtml(rows) + TABLE_CLOSE;
    }
  }

  /** The length of the text before the next `<`. */
  function TextLength(s: string): (n: nat)
    ensures n <= |s|
  {
    if s == [] || s[0] == '<' then 0 else 1 + TextLength(s[1..])
  }

  lemma {:induction false} TextLengthOfEscaped(e: string, t: string)
    requires forall i :: 0 <= i < |e| ==> !Markup(e[i])
    requires |t| > 0 && t[0] == '<'
    ensures TextLength(e + t) == |e|
    decreases |e|
  {
    if e != [] {
      assert (e + t)[1..] == e[1..] + t;
      TextLengthOfEscaped(e[1..], t);
    } else {
      assert e + t == t;
    }
  }

  /** The texts a reader of the table sees: each key and the text of its value. */
  function RowTexts(rows: seq<Row>): seq<(string, string)>
  {
    if rows == [] then [] else [(rows[0].0, ToStr(rows[0].1))] + RowTexts(rows[1..])
  }

  /** The rest of `s` after `lit`, when `s` starts with it. */
  function Expect(s: string, lit: string): (r: Option<string>)
    ensures r.Some? ==> |r.value| == |s| - |lit|
  {
    if StartsWith(s, lit) then Some(s[|lit|..]) else None
  }

  /** A cell's text, up to the next `<`, and what follows it. */
  function Cell(s: string): (r: (string, string))
    ensures |r.1| <= |s|
  {
    (s[..TextLength(s)], s[TextLength(s)..])
  }

  /** Reads one row back: its unescaped key and value, and the markup after it. */
  function ParseRow(s: string): (r: Option<((string, string), string)>)
    ensures r.Some? ==> |r.value.1| < |s|
  {
    match Expect(s, "<tr><th>")
    case None => None
    case Some(a) =>
      var (k, b) := Cell(a);
      match Expect(b, "</th><td>")
      case None => None
      case Some(c) =>
        var (v, d) := Cell(c);
        match Expect(d, "</td></tr>")
        case None => None
        case Some(t) => Some(((Unescape(k), Unescape(v)), t))
  }

  /** Reads the rows of a table body back, unescaping their cells. */
  function ParseRows(s: string): Option<seq<(string, string)>>
    decreases |s|
  {
    if s == [] then Some([])
    else
      match ParseRow(s)
      case None => None
      case Some((cells, t)) =>
        match ParseRows(t)
        case None => None
        case Some(rest) => Some([cells] + rest)
  }

  lemma ExpectLiteral(lit: string, t: string)
    ensures Expect(lit + t, lit) == Some(t)
  {
    assert (lit + t)[..|lit|] == lit;
  }

  lemma CellOfEscaped(e: string, t: string)
    requires forall i :: 0 <= i < |e| ==> !Markup(e[i])
    requires |t| > 0 && t[0] == '<'
    ensures Cell(e + t) == (e, t)
  {
    TextLengthOfEscaped(e, t);
    assert (e + t)[..|e|] == e;
  }

  /** A row of markup-free cells reads back as the unescaped cells, followed by what comes after it. */
  lemma ParseRowOfCells(k: string, v: string, t: string)
    requires forall i :: 0 <= i < |k| ==> !Markup(k[i])
    requires forall i :: 0 <= i < |v| ==> !Markup(v[i])
    ensures ParseRow("<tr><th>" + (k + ("</th><td>" + (v + ("</td></tr>" + t))))) == Some(((Unescape(k), Unescape(v)), t))
  {
    var d := "</td></tr>" + t;
    var c := v + d;
    var b := "</th><td>" + c;
    var a := k + b;
    ExpectLiteral("<tr><th>", a);
    CellOfEscaped(k, b);
    ExpectLiteral("</th><td>", c);
    CellOfEscaped(v, d);
    ExpectLiteral("</td></tr>", t);
  }
}
