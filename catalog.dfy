/**
 * The catalogue logic of the browser script: the normalisers that turn an item of
 * `GET /api/stock` into what the cards show (`normalizeSizes`, `normalizeImages`,
 * `toUploadUrl`, `parseItem`), the page's filter and pagination state (`applyFilters`,
 * `changePage`, the slice in `renderPage`) and the badge picker of the admin panel.
 *
 * `JSON.parse` is the parameter `parse`, None where it throws. Titles and genders arrive
 * as JSON strings or null, as the back end sends them.
 */
module Catalog {
  import opened Wrappers
  import opened Text
  import opened Json
  import StockTable

  // ---------------------------------------------------------------------------
  // Normalisers
  // ---------------------------------------------------------------------------

  /** JavaScript `items.map(s => String(s))`. */
  function JsStrings(items: seq<Json>): (r: seq<string>)
    ensures |r| == |items|
    ensures forall i :: 0 <= i < |items| ==> r[i] == JsString(items[i])
  {
    seq(|items|, i requires 0 <= i < |items| => JsString(items[i]))
  }

  /** A list of strings as a JSON array of strings. */
  function JStrs(xs: seq<string>): (r: seq<Json>)
    ensures |r| == |xs|
    ensures forall i :: 0 <= i < |xs| ==> r[i] == JStr(xs[i])
  {
    seq(|xs|, i requires 0 <= i < |xs| => JStr(xs[i]))
  }

  /**
   * `normalizeSizes(raw)`: an array gives its elements as strings, a string its
   * comma-separated entries; either way trimmed, blanks dropped, order kept. A falsy input
   * and any other value give no sizes.
   */
  function NormalizeSizes(raw: Json): (sizes: seq<string>)
    ensures forall x :: x in sizes ==> x != [] && JsTrim(x) == x
    ensures !(raw.JArr? || raw.JStr?) ==> sizes == []
  {
    if !Truthy(raw) then []
    else
      match raw
      case JArr(items) => StripEach(JsStrings(items), IsJsSpace)
      case JStr(s) => StripEach(Split(s, ','), IsJsSpace)
      case _ => []
  }

  /** Clean sizes written comma-separated read back as the same list. */
  lemma NormalizeSizesRoundTrip(xs: seq<string>)
    requires |xs| >= 1
    requires forall x :: x in xs ==> x != [] && JsTrim(x) == x && ',' !in x
    ensures NormalizeSizes(JStr(Join(xs, ','))) == xs
  {
    SplitJoin(xs, ',');
    StripEachKeeps(xs, IsJsSpace);
    assert |Join(xs, ',')| >= |xs[0]| > 0;
  }

  /** Clean sizes sent as an array of strings come back unchanged. */
  lemma NormalizeSizesOfClean(xs: seq<string>)
    requires forall x :: x in xs ==> x != [] && JsTrim(x) == x
    ensures NormalizeSizes(JArr(JStrs(xs))) == xs
  {
    assert JsStrings(JStrs(xs)) == xs;
    StripEachKeeps(xs, IsJsSpace);
  }

  /** Normalising the normalised sizes, sent back as an array, changes nothing. */
  lemma NormalizeSizesIdempotent(raw: Json)
    ensures NormalizeSizes(JArr(JStrs(NormalizeSizes(raw)))) == NormalizeSizes(raw)
  {
    NormalizeSizesOfClean(NormalizeSizes(raw));
  }

  /** The condition under which `normalizeImages` tries `JSON.parse` on the trimmed text. */
  predicate Bracketed(t: string) {
    (StartsWith(t, "[") && EndsWith(t, "]")) || (StartsWith(t, "{") && EndsWith(t, "}"))
  }

  /**
   * `normalizeImages(raw)`. A trimmed string in brackets that parses to an array or an
   * object gives its truthy elements or values; one that fails to parse, parses to anything
   * else (`Object.values(null)` throws into the same `catch`) or is not bracketed gives
   * itself, trimmed.
   */
  function NormalizeImages(raw: Json, parse: string -> Option<Json>): (imgs: seq<Json>)
    ensures forall x :: x in imgs ==> Truthy(x)
  {
    if !Truthy(raw) then []
    else
      match raw
      case JArr(items) => FilterTruthy(items)
      case JObj(fields) => FilterTruthy(Values(fields))
      case JStr(s) =>
        var t := JsTrim(s);
        if t == [] then []
        else if Bracketed(t) then
          match parse(t)
          case Some(JArr(items)) => FilterTruthy(items)
          case Some(JObj(fields)) => FilterTruthy(Values(fields))
          case _ => [JStr(t)]
        else [JStr(t)]
      case _ => []
  }

  /**
   * The cases of `normalizeImages` for a string: blank gives nothing, plain text and text
   * that does not parse give the trimmed text, a parsed array gives its truthy elements.
   */
  lemma NormalizeImagesOfString(s: string, parse: string -> Option<Json>)
    ensures JsTrim(s) == [] ==> NormalizeImages(JStr(s), parse) == []
    ensures JsTrim(s) != [] && (!Bracketed(JsTrim(s)) || parse(JsTrim(s)).None?) ==>
              NormalizeImages(JStr(s), parse) == [JStr(JsTrim(s))]
    ensures JsTrim(s) != [] && Bracketed(JsTrim(s)) && parse(JsTrim(s)).Some? && parse(JsTrim(s)).value.JArr? ==>
              NormalizeImages(JStr(s), parse) == FilterTruthy(parse(JsTrim(s)).value.items)
  {
  }

  /** Truthy images pass a second round unchanged. */
  lemma {:induction false} FilterTruthyKeeps(xs: seq<Json>)
    requires forall x :: x in xs ==> Truthy(x)
    ensures FilterTruthy(xs) == xs
  {
    if xs != [] {
      assert forall x :: x in xs[1..] ==> x in xs;
      FilterTruthyKeeps(xs[1..]);
      assert [xs[0]] + xs[1..] == xs;
    }
  }

  /** `normalizeImages` of a normalised list, sent back as an array, is that list. */
  lemma NormalizeImagesIdempotent(raw: Json, parse: string -> Option<Json>)
    ensures NormalizeImages(JArr(NormalizeImages(raw, parse)), parse) == NormalizeImages(raw, parse)
  {
    FilterTruthyKeeps(NormalizeImages(raw, parse));
  }

  const StaticPath := "/static/"
  const DefaultImage := StaticPath + "assets/backgrounds/fondomarket.jpg"
  const UploadsPath := StaticPath + "uploads/"

  /** The prefixes `toUploadUrl` passes through: absolute URLs and paths under `/static/`. */
  predicate Served(url: string) {
    StartsWith(url, "http://") || StartsWith(url, "https://") || StartsWith(url, StaticPath)
  }

  /**
   * `toUploadUrl(img)`: the placeholder for a falsy image, a served URL unchanged, any
   * other name under `/static/uploads/`.
   */
  function ToUploadUrl(img: Json): (url: string)
    ensures Served(url)
    ensures Truthy(img) && Served(JsString(img)) ==> url == JsString(img)
    ensures Truthy(img) && !Served(JsString(img)) ==> url == UploadsPath + JsString(img)
  {
    if !Truthy(img) then
      StartsWithShorter(DefaultImage, StaticPath, "assets/backgrounds/fondomarket.jpg");
      DefaultImage
    else
      var s := JsString(img);
      if Served(s) then s
      else
        StartsWithShorter(UploadsPath + s, StaticPath, "uploads/" + s);
        UploadsPath + s
  }

  /** Applying `toUploadUrl` to its own result changes nothing. */
  lemma ToUploadUrlIdempotent(img: Json)
    ensures ToUploadUrl(JStr(ToUploadUrl(img))) == ToUploadUrl(img)
  {
  }

  /** The paths `add_stock` stores for uploads are shown as they are. */
  lemma StoredPathShownAsIs(p: string)
    requires StartsWith(p, StockTable.UploadPrefix)
    ensures ToUploadUrl(JStr(p)) == p
  {
    assert StockTable.UploadPrefix == StaticPath + "uploads/";
    StartsWithShorter(p, StaticPath, "uploads/");
  }

  /** `images.map(toUploadUrl)`. */
  function UploadUrls(imgs: seq<Json>): (urls: seq<string>)
    ensures |urls| == |imgs|
    ensures forall i :: 0 <= i < |imgs| ==> urls[i] == ToUploadUrl(imgs[i])
  {
    seq(|imgs|, i requires 0 <= i < |imgs| => ToUploadUrl(imgs[i]))
  }

  /** An item of `GET /api/stock` as the script reads it. */
  datatype RawItem = RawItem(id: int, title: Option<string>, gender: Option<string>, sizes: Json, images: Json)

  /** An item after `parseItem`: the other fields are kept by the spread. */
  datatype Item = Item(id: int, title: Option<string>, gender: Option<string>, sizes: seq<string>, images: seq<string>)

  /** `parseItem(item)`. */
  function ParseItem(raw: RawItem, parse: string -> Option<Json>): Item {
    Item(raw.id, raw.title, raw.gender, NormalizeSizes(raw.sizes), UploadUrls(NormalizeImages(raw.images, parse)))
  }

  /**
   * A parsed item keeps its id, title and gender; its sizes are trimmed and non-blank; it
   * has one image URL per truthy image, each served, and a stored upload path as it is.
   */
  lemma ParseItemShape(raw: RawItem, parse: string -> Option<Json>)
    ensures var item := ParseItem(raw, parse);
            && item.id == raw.id && item.title == raw.title && item.gender == raw.gender
            && (forall x :: x in item.sizes ==> x != [] && JsTrim(x) == x)
            && |item.images| == |NormalizeImages(raw.images, parse)|
            && (forall u :: u in item.images ==> Served(u))
  {
  }

  /** `(data.items || []).map(parseItem)`. */
  function ParseItems(raws: seq<RawItem>, parse: string -> Option<Json>): (items: seq<Item>)
    ensures |items| == |raws|
    ensures forall i :: 0 <= i < |raws| ==> items[i] == ParseItem(raws[i], parse)
  {
    seq(|raws|, i requires 0 <= i < |raws| => ParseItem(raws[i], parse))
  }

  // ---------------------------------------------------------------------------
  // Filters
  // ---------------------------------------------------------------------------

  /** `a` is `b` with some elements left out, in the same order. */
  predicate IsSubsequence<T(==)>(a: seq<T>, b: seq<T>)
    decreases |b|
  {
    if b == [] then a == []
    else (a != [] && a[0] == b[0] && IsSubsequence(a[1..], b[1..])) || IsSubsequence(a, b[1..])
  }

  lemma {:induction false} SubsequenceTransitive<T>(a: seq<T>, b: seq<T>, c: seq<T>)
    requires IsSubsequence(a, b) && IsSubsequence(b, c)
    ensures IsSubsequence(a, c)
    decreases |c|
  {
    if c == [] {
    } else if IsSubsequence(b, c[1..]) {
      SubsequenceTransitive(a, b, c[1..]);
    } else {
      if a != [] && a[0] == b[0] && IsSubsequence(a[1..], b[1..]) {
        SubsequenceTransitive(a[1..], b[1..], c[1..]);
      } else {
        SubsequenceTransitive(a, b[1..], c[1..]);
      }
    }
  }

  lemma {:induction false} SubsequenceReflexive<T>(a: seq<T>)
    ensures IsSubsequence(a, a)
  {
    if a != [] {
      SubsequenceReflexive(a[1..]);
    }
  }

  /** JavaScript `xs.filter(p)`. */
  function KeepIf(xs: seq<Item>, p: Item -> bool): (r: seq<Item>)
    ensures forall x :: x in r <==> x in xs && p(x)
    ensures IsSubsequence(r, xs)
  {
    if xs == [] then []
    else if p(xs[0]) then [xs[0]] + KeepIf(xs[1..], p)
    else KeepIf(xs[1..], p)
  }

  /** The gender filter: `(item.gender || "").toLowerCase() === genderFilter`, on when the filter is not empty. */
  predicate GenderMatches(item: Item, gender: string) {
    gender == "" || Lower(item.gender.GetOr("")) == gender
  }

  /** The search filter: `(item.title || "").toLowerCase().includes(searchQuery)`, on when the query is not empty. */
  predicate TitleMatches(item: Item, query: string) {
    query == "" || Contains(Lower(item.title.GetOr("")), query)
  }

  function GenderFilter(gender: string): Item -> bool {
    (x: Item) => GenderMatches(x, gender)
  }

  function TitleFilter(query: string): Item -> bool {
    (x: Item) => TitleMatches(x, query)
  }

  /** The list `applyFilters` computes: the gender pass, then the search pass. */
  function Filtered(stock: seq<Item>, gender: string, query: string): seq<Item> {
    var byGender := if gender != "" then KeepIf(stock, GenderFilter(gender)) else stock;
    if query != "" then KeepIf(byGender, TitleFilter(query)) else byGender
  }

  /**
   * The filtered list holds exactly the items of the stock that pass both filters, in
   * stock order.
   */
  lemma FilteredSpec(stock: seq<Item>, gender: string, query: string)
    ensures var r := Filtered(stock, gender, query);
            && (forall x :: x in r <==> x in stock && GenderMatches(x, gender) && TitleMatches(x, query))
            && IsSubsequence(r, stock)
  {
    var byGender := if gender != "" then KeepIf(stock, GenderFilter(gender)) else stock;
    SubsequenceReflexive(stock);
    SubsequenceReflexive(byGender);
    SubsequenceTransitive(Filtered(stock, gender, query), byGender, stock);
  }

  /** With both filters off, everything is listed. */
  lemma NoFilterListsAll(stock: seq<Item>)
    ensures Filtered(stock, "", "") == stock
  {
  }

  // ---------------------------------------------------------------------------
  // Pagination
  // ---------------------------------------------------------------------------

  const ItemsPerPage := 16

  /** `Math.max(1, Math.ceil(n / ITEMS_PER_PAGE))`: the fewest pages, at least one, that hold `n` items. */
  function PageCount(n: nat): (p: nat)
    ensures p >= 1
    ensures n <= p * ItemsPerPage
    ensures n == 0 || (p - 1) * ItemsPerPage < n
  {
    if n == 0 then 1 else (n + ItemsPerPage - 1) / ItemsPerPage
  }

  /** JavaScript `xs.slice(start, end)` for non-negative bounds. */
  function Slice<T>(xs: seq<T>, start: nat, end: nat): (r: seq<T>)
    ensures |r| <= |xs| && (start <= end ==> |r| <= end - start)
    ensures forall j :: 0 <= j < |r| ==> start + j < |xs| && r[j] == xs[start + j]
  {
    var s := if start < |xs| then start else |xs|;
    var e := if end < |xs| then end else |xs|;
    if s <= e then xs[s..e] else []
  }

  /** The slice `renderPage` shows for page `page`. */
  function PageItems(xs: seq<Item>, page: int): (r: seq<Item>)
    requires page >= 1
    ensures |r| <= ItemsPerPage
    ensures forall j :: 0 <= j < |r| ==>
              (page - 1) * ItemsPerPage + j < |xs| && r[j] == xs[(page - 1) * ItemsPerPage + j]
  {
    var start := (page - 1) * ItemsPerPage;
    Slice(xs, start, start + ItemsPerPage)
  }

  /** Every filtered item is shown on a reachable page, at its position within that page. */
  lemma EveryItemOnAPage(xs: seq<Item>, k: nat)
    requires k < |xs|
    ensures var page := k / ItemsPerPage + 1;
            && 1 <= page <= PageCount(|xs|)
            && k % ItemsPerPage < |PageItems(xs, page)|
            && PageItems(xs, page)[k % ItemsPerPage] == xs[k]
  {
    var page := k / ItemsPerPage + 1;
    var start := (page - 1) * ItemsPerPage;
    assert start + k % ItemsPerPage == k;
  }

  /** `changePage`'s bounds: the page moved by `delta`, then pulled into 1 .. `max`. */
  function Clamp(page: int, max: int): (r: int)
    requires max >= 1
    ensures 1 <= r <= max
    ensures 1 <= page <= max ==> r == page
    ensures page < 1 ==> r == 1
    ensures page > max ==> r == max
  {
    if page < 1 then 1 else if page > max then max else page
  }

  // ---------------------------------------------------------------------------
  // The catalogue page
  // ---------------------------------------------------------------------------

  /** The globals of the catalogue page. */
  class CatalogPage {
    var stockData: seq<Item>
    var filteredData: seq<Item>
    var genderFilter: string
    var searchQuery: string
    var currentPage: int

    /** The filtered list follows the filters and the page is one that exists. */
    ghost predicate Valid()
      reads this
    {
      && filteredData == Filtered(stockData, genderFilter, searchQuery)
      && 1 <= currentPage <= PageCount(|filteredData|)
    }

    constructor()
      ensures Valid()
      ensures stockData == [] && filteredData == [] && genderFilter == "" && searchQuery == ""
      ensures currentPage == 1
    {
      stockData := [];
      filteredData := [];
      genderFilter := "";
      searchQuery := "";
      currentPage := 1;
    }

    /** `applyFilters()`: recomputes the list and goes back to the first page. */
    method ApplyFilters()
      modifies this
      ensures Valid()
      ensures filteredData == Filtered(stockData, genderFilter, searchQuery) && currentPage == 1
      ensures stockData == old(stockData) && genderFilter == old(genderFilter) && searchQuery == old(searchQuery)
    {
      var data := stockData;
      if genderFilter != "" {
        data := KeepIf(data, GenderFilter(genderFilter));
      }
      if searchQuery != "" {
        data := KeepIf(data, TitleFilter(searchQuery));
      }
      filteredData := data;
      currentPage := 1;
    }

    /**
     * `loadStock()`: `fetched` is the `items` list of the response (`[]` when it has none),
     * None when the request or its decoding fails, which leaves the page as it was.
     */
    method LoadStock(fetched: Option<seq<RawItem>>, parse: string -> Option<Json>)
      requires Valid()
      modifies this
      ensures Valid()
      ensures fetched.None? ==> stockData == old(stockData) && filteredData == old(filteredData) && currentPage == old(currentPage)
      ensures fetched.Some? ==> stockData == ParseItems(fetched.value, parse) && currentPage == 1
      ensures genderFilter == old(genderFilter) && searchQuery == old(searchQuery)
    {
      if fetched.None? {
        return;
      }
      stockData := ParseItems(fetched.value, parse);
      currentPage := 1;
      ApplyFilters();
    }

    /** A click on a gender button: `genderFilter = btn.dataset.gender || ""`, then the filters. */
    method SelectGender(gender: string)
      modifies this
      ensures Valid()
      ensures genderFilter == gender && currentPage == 1
      ensures filteredData == Filtered(stockData, gender, searchQuery)
      ensures stockData == old(stockData) && searchQuery == old(searchQuery)
    {
      genderFilter := gender;
      currentPage := 1;
      ApplyFilters();
    }

    /** Typing in the search box or picking a suggestion: `value.toLowerCase().trim()`, then the filters. */
    method Search(text: string)
      modifies this
      ensures Valid()
      ensures searchQuery == JsTrim(Lower(text)) && currentPage == 1
      ensures filteredData == Filtered(stockData, genderFilter, searchQuery)
      ensures stockData == old(stockData) && genderFilter == old(genderFilter)
    {
      searchQuery := JsTrim(Lower(text));
      currentPage := 1;
      ApplyFilters();
    }

    /** `changePage(delta)`: moves by `delta` and keeps the page between 1 and the page count. */
    method ChangePage(delta: int)
      modifies this
      ensures currentPage == Clamp(old(currentPage) + delta, PageCount(|filteredData|))
      ensures 1 <= currentPage <= PageCount(|filteredData|)
      ensures stockData == old(stockData) && filteredData == old(filteredData)
      ensures genderFilter == old(genderFilter) && searchQuery == old(searchQuery)
      ensures old(Valid()) ==> Valid()
    {
      var max := PageCount(|filteredData|);
      currentPage := currentPage + delta;
      if currentPage < 1 {
        currentPage := 1;
      }
      if currentPage > max {
        currentPage := max;
      }
    }

    /** The cards `renderPage` draws: at most 16 filtered items, from `(currentPage - 1) * 16` on. */
    function VisibleItems(): (r: seq<Item>)
      requires Valid()
      reads this
      ensures |r| <= ItemsPerPage
      ensures forall j :: 0 <= j < |r| ==>
                (currentPage - 1) * ItemsPerPage + j < |filteredData|
                && r[j] == filteredData[(currentPage - 1) * ItemsPerPage + j]
      ensures forall x :: x in r ==> x in stockData && GenderMatches(x, genderFilter) && TitleMatches(x, searchQuery)
    {
      FilteredSpec(stockData, genderFilter, searchQuery);
      PageItems(filteredData, currentPage)
    }
  }

  // ---------------------------------------------------------------------------
  // Badge picker of the admin panel
  // ---------------------------------------------------------------------------

  /** `ids.filter(x => x !== id)`. */
  function Drop(ids: seq<int>, id: int): (r: seq<int>)
    ensures forall x :: x in r <==> x in ids && x != id
  {
    if ids == [] then []
    else if ids[0] == id then Drop(ids[1..], id)
    else [ids[0]] + Drop(ids[1..], id)
  }

  /** A click on a badge pill: dropped when selected, appended otherwise. */
  function Toggled(ids: seq<int>, id: int): seq<int> {
    if id in ids then Drop(ids, id) else ids + [id]
  }

  predicate Distinct(ids: seq<int>) {
    forall i, j :: 0 <= i < j < |ids| ==> ids[i] != ids[j]
  }

  /** A click flips the clicked badge and leaves every other badge as it was. */
  lemma ToggleFlips(ids: seq<int>, id: int)
    ensures id in Toggled(ids, id) <==> id !in ids
    ensures forall x :: x != id ==> (x in Toggled(ids, id) <==> x in ids)
  {
  }

  lemma {:induction false} DropDistinct(ids: seq<int>, id: int)
    requires Distinct(ids)
    ensures Distinct(Drop(ids, id))
  {
    if ids != [] {
      assert Distinct(ids[1..]);
      DropDistinct(ids[1..], id);
      assert ids[0] !in ids[1..];
    }
  }

  /** The selection never holds a badge twice. */
  lemma ToggleKeepsDistinct(ids: seq<int>, id: int)
    requires Distinct(ids)
    ensures Distinct(Toggled(ids, id))
  {
    if id in ids {
      DropDistinct(ids, id);
    }
  }

  lemma {:induction false} DropAbsent(ids: seq<int>, id: int)
    requires id !in ids
    ensures Drop(ids, id) == ids
  {
    if ids != [] {
      DropAbsent(ids[1..], id);
      assert [ids[0]] + ids[1..] == ids;
    }
  }

  lemma {:induction false} DropAppended(ids: seq<int>, id: int)
    requires id !in ids
    ensures Drop(ids + [id], id) == ids
  {
    if ids == [] {
      assert [id][1..] == [];
    } else {
      assert (ids + [id])[1..] == ids[1..] + [id];
      DropAppended(ids[1..], id);
      assert [ids[0]] + ids[1..] == ids;
    }
  }

  /** Selecting a badge and clicking it again gives the selection back. */
  lemma ToggleTwice(ids: seq<int>, id: int)
    requires id !in ids
    ensures Toggled(Toggled(ids, id), id) == ids
  {
    DropAppended(ids, id);
  }

  /** The `badges` field `addStock` sends: `JSON.stringify(selectedBadges)`, decoded. */
  function BadgesPayload(ids: seq<int>): (j: Json)
    ensures j.JArr? && |j.items| == |ids|
  {
    JArr(seq(|ids|, k requires 0 <= k < |ids| => JNum(ids[k])))
  }

  /** The back end reads the sent selection as exactly the selected badge ids. */
  lemma BadgesPayloadAccepted(ids: seq<int>)
    ensures StockTable.BadgeIds(BadgesPayload(ids)) == Some(ids)
  {
    var j := BadgesPayload(ids);
    assert forall k :: 0 <= k < |j.items| ==> j.items[k] == JNum(ids[k]);
    var r := StockTable.BadgeIds(j);
    assert r.value == ids;
  }

  /** The selection of `selectedBadges`. */
  class BadgePicker {
    var selected: seq<int>

    constructor()
      ensures selected == []
    {
      selected := [];
    }

    /** The `onclick` of a badge pill: `filter` out when selected, `push` otherwise. */
    method Toggle(id: int)
      modifies this
      ensures selected == Toggled(old(selected), id)
      ensures Distinct(old(selected)) ==> Distinct(selected)
    {
      ghost var before := selected;
      if Distinct(before) {
        ToggleKeepsDistinct(before, id);
      }
      if id in selected {
        selected := Drop(selected, id);
      } else {
        selected := selected + [id];
      }
    }
  }
}
