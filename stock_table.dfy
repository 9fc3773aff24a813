/**
 * The `stock` table of the Flask back end and the routes that change or read it: the sweep
 * that ends expired featured windows, `feature` and `unfeature`, the creation of an item
 * (`POST /api/stock`), the unguarded edit and delete of `/api/stock/<id>`, and the item
 * page with its sizes and related items.
 *
 * Timestamps are whole seconds. The rows are kept in insertion order; the orderings the SQL
 * asks for (`created_at DESC`, `RANDOM()`) are not modelled.
 */
module StockTable {
  import opened Wrappers
  import opened Text
  import opened Json
  import opened Helpers
  import opened AdminAuth

  /** `INTERVAL '24 HOURS'` in seconds. */
  const FeatureWindow: int := 24 * 60 * 60

  /** A row of `stock`. Nullable columns are options. */
  datatype StockRow = StockRow(
    id: int,
    sellerId: int,
    title: string,
    price: int,
    gender: Option<string>,
    categoryId: Option<int>,
    category: Option<string>,
    stock: int,
    sizes: Option<string>,
    color: Option<string>,
    description: Option<string>,
    images: Json,
    isSold: bool,
    isFeatured: bool,
    featuredUntil: Option<int>)

  /** `id SERIAL PRIMARY KEY`. */
  predicate UniqueIds(rows: seq<StockRow>) {
    forall i, j :: 0 <= i < j < |rows| ==> rows[i].id != rows[j].id
  }

  /** The JSON bodies the API routes answer, by kind. */
  datatype Response =
    | Created(newId: int)
    | Done
    | Unauthorized
    | Invalid(message: string)
    | ServerError

  function HttpStatus(r: Response): int {
    match r
    case Created(_) => 200
    case Done => 200
    case Unauthorized => 401
    case Invalid(_) => 400
    case ServerError => 500
  }

  // ---------------------------------------------------------------------------
  // Featured windows
  // ---------------------------------------------------------------------------

  /** The WHERE clause of `remove_expired_featured`. */
  predicate Expired(r: StockRow, now: int) {
    r.featuredUntil.Some? && r.featuredUntil.value < now
  }

  /** `SET is_featured = FALSE, featured_until = NULL`. */
  function ClearFeature(r: StockRow): StockRow {
    r.(isFeatured := false, featuredUntil := None)
  }

  /** The table after the sweep at instant `now`. */
  function Swept(rows: seq<StockRow>, now: int): (r: seq<StockRow>)
    ensures |r| == |rows|
  {
    seq(|rows|, k requires 0 <= k < |rows| => if Expired(rows[k], now) then ClearFeature(rows[k]) else rows[k])
  }

  /** `UPDATE stock SET ... WHERE id = %s`: `f` applied to the rows with that id. */
  function UpdatedById(rows: seq<StockRow>, id: int, f: StockRow -> StockRow): (r: seq<StockRow>)
    ensures |r| == |rows|
  {
    seq(|rows|, k requires 0 <= k < |rows| => if rows[k].id == id then f(rows[k]) else rows[k])
  }

  function SetFeatured(until: int): StockRow -> StockRow {
    (r: StockRow) => r.(isFeatured := true, featuredUntil := Some(until))
  }

  /** The table after `feature(id)` at instant `now`. */
  function Featured(rows: seq<StockRow>, id: int, now: int): seq<StockRow> {
    UpdatedById(rows, id, SetFeatured(now + FeatureWindow))
  }

  function Unfeaturing(): StockRow -> StockRow {
    (r: StockRow) => ClearFeature(r)
  }

  /** The table after `unfeature(id)`. */
  function Unfeatured(rows: seq<StockRow>, id: int): seq<StockRow> {
    UpdatedById(rows, id, Unfeaturing())
  }

  /** The rows that the `DELETE ... WHERE id = %s` keeps, in order. */
  function WithoutId(rows: seq<StockRow>, id: int): (r: seq<StockRow>)
    ensures |r| <= |rows|
    ensures forall x :: x in r <==> x in rows && x.id != id
  {
    if rows == [] then []
    else
      var last := rows[|rows| - 1];
      WithoutId(rows[..|rows| - 1], id) + (if last.id == id then [] else [last])
  }

  /** The row `SELECT ... WHERE id = %s` fetches first. */
  function FindRow(rows: seq<StockRow>, id: int): (r: Option<StockRow>)
    ensures r.Some? ==> r.value in rows && r.value.id == id
    ensures r.None? ==> forall x :: x in rows ==> x.id != id
  {
    if rows == [] then None
    else if rows[0].id == id then Some(rows[0])
    else FindRow(rows[1..], id)
  }

  /**
   * The sweep clears the featured flag and the expiry of exactly the rows whose expiry is
   * set and strictly earlier than `now`; every other row, and every other column, is left
   * as it was; afterwards no row is expired.
   */
  lemma SweepEffect(rows: seq<StockRow>, now: int)
    ensures forall k :: 0 <= k < |rows| && Expired(rows[k], now) ==>
              !Swept(rows, now)[k].isFeatured && Swept(rows, now)[k].featuredUntil.None?
    ensures forall k :: 0 <= k < |rows| && !Expired(rows[k], now) ==> Swept(rows, now)[k] == rows[k]
    ensures forall k :: 0 <= k < |rows| ==>
              Swept(rows, now)[k] == rows[k].(isFeatured := Swept(rows, now)[k].isFeatured,
                                              featuredUntil := Swept(rows, now)[k].featuredUntil)
    ensures forall k :: 0 <= k < |rows| ==> !Expired(Swept(rows, now)[k], now)
  {
  }

  /** A row featured with no expiry stays featured through any sweep. */
  lemma SweepKeepsOpenEnded(rows: seq<StockRow>, now: int, k: int)
    requires 0 <= k < |rows| && rows[k].featuredUntil.None?
    ensures Swept(rows, now)[k] == rows[k]
  {
  }

  /** A second sweep at the same instant, or at an earlier one, changes nothing. */
  lemma SweepIdempotent(rows: seq<StockRow>, now: int, earlier: int)
    requires earlier <= now
    ensures Swept(Swept(rows, now), now) == Swept(rows, now)
    ensures Swept(Swept(rows, now), earlier) == Swept(rows, now)
  {
    var once := Swept(rows, now);
    assert Swept(once, now) == once by {
      forall k | 0 <= k < |once| ensures Swept(once, now)[k] == once[k] {
      }
    }
    assert Swept(once, earlier) == once by {
      forall k | 0 <= k < |once| ensures Swept(once, earlier)[k] == once[k] {
      }
    }
  }

  /** A sweep at a later instant subsumes an earlier one. */
  lemma SweepLater(rows: seq<StockRow>, earlier: int, later: int)
    requires earlier <= later
    ensures Swept(Swept(rows, earlier), later) == Swept(rows, later)
  {
    var a := Swept(Swept(rows, earlier), later);
    var b := Swept(rows, later);
    forall k | 0 <= k < |rows| ensures a[k] == b[k] {
    }
  }

  /**
   * `feature` marks the rows with the target id featured until 24 hours after `now`, whatever
   * they held; `unfeature` clears them; no other row changes, nor any other column.
   */
  lemma FeatureEffect(rows: seq<StockRow>, id: int, now: int)
    ensures forall k :: 0 <= k < |rows| && rows[k].id == id ==>
              Featured(rows, id, now)[k].isFeatured && Featured(rows, id, now)[k].featuredUntil == Some(now + FeatureWindow)
              && Featured(rows, id, now)[k] == rows[k].(isFeatured := true, featuredUntil := Some(now + FeatureWindow))
    ensures forall k :: 0 <= k < |rows| && rows[k].id != id ==> Featured(rows, id, now)[k] == rows[k]
    ensures forall k :: 0 <= k < |rows| && rows[k].id == id ==>
              !Unfeatured(rows, id)[k].isFeatured && Unfeatured(rows, id)[k].featuredUntil.None?
              && Unfeatured(rows, id)[k] == rows[k].(isFeatured := false, featuredUntil := None)
    ensures forall k :: 0 <= k < |rows| && rows[k].id != id ==> Unfeatured(rows, id)[k] == rows[k]
  {
  }

  /** Unfeaturing after featuring leaves the row as if it had only been unfeatured. */
  lemma UnfeatureAfterFeature(rows: seq<StockRow>, id: int, now: int)
    ensures Unfeatured(Featured(rows, id, now), id) == Unfeatured(rows, id)
  {
    var a := Unfeatured(Featured(rows, id, now), id);
    var b := Unfeatured(rows, id);
    forall k | 0 <= k < |rows| ensures a[k] == b[k] {
    }
  }

  /**
   * A row featured at `t` survives every sweep up to and including `t + 24h` and is cleared
   * by any later sweep: featured at `t + 23h`, no longer at `t + 25h`.
   */
  lemma FeatureWindowLasts(rows: seq<StockRow>, id: int, t: int, later: int, k: int)
    requires 0 <= k < |rows| && rows[k].id == id
    ensures Swept(Featured(rows, id, t), later)[k].isFeatured <==> later <= t + FeatureWindow
    ensures Swept(Featured(rows, id, t), t + 23 * 3600)[k].isFeatured
    ensures !Swept(Featured(rows, id, t), t + 25 * 3600)[k].isFeatured
  {
  }

  /**
   * `get_stock` does not sweep: after the window of a featured row has passed, the stored row
   * it lists is still marked featured until some other route sweeps.
   */
  lemma ListingShowsStaleFeature(rows: seq<StockRow>, id: int, t: int, later: int, k: int)
    requires 0 <= k < |rows| && rows[k].id == id && later > t + FeatureWindow
    ensures Expired(Featured(rows, id, t)[k], later) && Featured(rows, id, t)[k].isFeatured
    ensures !Swept(Featured(rows, id, t), later)[k].isFeatured
  {
  }

  lemma {:induction false} WithoutIdUnique(rows: seq<StockRow>, id: int)
    requires UniqueIds(rows)
    ensures UniqueIds(WithoutId(rows, id))
  {
    if rows != [] {
      var init, last := rows[..|rows| - 1], rows[|rows| - 1];
      assert UniqueIds(init);
      WithoutIdUnique(init, id);
      var rest := WithoutId(init, id);
      if last.id != id {
        forall x | x in rest ensures x.id != last.id {
          var j :| 0 <= j < |init| && init[j] == x;
          assert rows[j] == x;
        }
      }
    }
  }

  // ---------------------------------------------------------------------------
  // Item page: sizes and related items
  // ---------------------------------------------------------------------------

  /** The sizes of the item page: the comma-separated entries of the `sizes` column, stripped, blanks dropped. */
  function SizeList(sizes: Option<string>): seq<string> {
    StripEach(Split(sizes.GetOr(""), ','), IsPySpace)
  }

  /** Every listed size is non-blank, has no surrounding whitespace and no comma. */
  lemma SizeListShape(sizes: Option<string>)
    ensures forall x :: x in SizeList(sizes) ==> x != [] && PyStrip(x) == x && ',' !in x
    ensures sizes.None? ==> SizeList(sizes) == []
  {
    var parts := Split(sizes.GetOr(""), ',');
    StripEachAvoids(parts, IsPySpace, ',');
    if sizes.None? {
      assert parts == [""];
      assert PyStrip("") == "";
    }
  }

  /** A list of clean sizes written comma-separated reads back as the same list. */
  lemma SizeListRoundTrip(xs: seq<string>)
    requires |xs| >= 1
    requires forall x :: x in xs ==> x != [] && PyStrip(x) == x && ',' !in x
    ensures SizeList(Some(Join(xs, ','))) == xs
  {
    SplitJoin(xs, ',');
    StripEachKeeps(xs, IsPySpace);
  }

  /**
   * The WHERE clause of the related-items query: another row, with the same category, or
   * either category NULL. (`category = NULL` is not true in SQL, hence the two IS NULL tests.)
   */
  predicate IsRelated(c: StockRow, item: StockRow) {
    c.id != item.id && (c.category == item.category || item.category.None? || c.category.None?)
  }

  /** The rows the related-items query may return, in table order. */
  function RelatedCandidates(rows: seq<StockRow>, item: StockRow): (r: seq<StockRow>)
    ensures |r| <= |rows|
    ensures forall x :: x in r <==> x in rows && IsRelated(x, item)
  {
    if rows == [] then []
    else (if IsRelated(rows[0], item) then [rows[0]] else []) + RelatedCandidates(rows[1..], item)
  }

  /** `LIMIT 4` over the candidates. */
  function Related(rows: seq<StockRow>, item: StockRow): (r: seq<StockRow>)
    ensures |r| == if |RelatedCandidates(rows, item)| < 4 then |RelatedCandidates(rows, item)| else 4
    ensures forall x :: x in r ==> x in rows && IsRelated(x, item)
  {
    var c := RelatedCandidates(rows, item);
    if |c| <= 4 then c else c[..4]
  }

  /** What the item page shows of the item itself. */
  datatype ItemView = ItemView(
    id: int, sellerId: int, title: string, price: int, category: Option<string>, stock: int,
    sizes: seq<string>, color: string, description: string, images: seq<Json>,
    isSold: bool, isFeatured: bool, featuredUntil: Option<int>)

  /** What the item page shows of a related item. */
  datatype RelatedView = RelatedView(id: int, title: string, price: int, images: seq<Json>)

  datatype DetailPage = DetailPage(item: ItemView, related: seq<RelatedView>) | NotFoundPage(itemId: int)

  function ViewOf(r: StockRow, parse: string -> Option<Json>): ItemView {
    ItemView(r.id, r.sellerId, r.title, r.price, r.category, r.stock, SizeList(r.sizes),
             r.color.GetOr(""), r.description.GetOr(""), NormalizeImagesDb(r.images, parse),
             r.isSold, r.isFeatured, r.featuredUntil)
  }

  function RelatedViews(rs: seq<StockRow>, parse: string -> Option<Json>): (vs: seq<RelatedView>)
    ensures |vs| == |rs|
    ensures forall k :: 0 <= k < |rs| ==> vs[k].id == rs[k].id
  {
    seq(|rs|, k requires 0 <= k < |rs| => RelatedView(rs[k].id, rs[k].title, rs[k].price, NormalizeImagesDb(rs[k].images, parse)))
  }

  /** The item page for `id` over the (already swept) table; a failure shows the not-found page. */
  function Detail(rows: seq<StockRow>, id: int, parse: string -> Option<Json>, fault: bool): DetailPage {
    if fault then NotFoundPage(id)
    else
      match FindRow(rows, id)
      case None => NotFoundPage(id)
      case Some(r) => DetailPage(ViewOf(r, parse), RelatedViews(Related(rows, r), parse))
  }

  /**
   * The item page shows the requested row, and at most four related rows, none of them the
   * item itself, each sharing its category or with a category missing on either side.
   */
  lemma DetailShape(rows: seq<StockRow>, id: int, parse: string -> Option<Json>, fault: bool)
    ensures var p := Detail(rows, id, parse, fault);
            p.DetailPage? ==>
              && p.item.id == id
              && |p.related| <= 4
              && forall k :: 0 <= k < |p.related| ==> p.related[k].id != id
    ensures (forall x :: x in rows ==> x.id != id) ==> Detail(rows, id, parse, fault) == NotFoundPage(id)
  {
    var p := Detail(rows, id, parse, fault);
    if p.DetailPage? {
      var r := FindRow(rows, id).value;
      var rel := Related(rows, r);
      forall k | 0 <= k < |p.related| ensures p.related[k].id != id {
        assert rel[k] in rel;
      }
    }
  }

  // ---------------------------------------------------------------------------
  // Creating an item
  // ---------------------------------------------------------------------------

  /** An uploaded file part; an empty file name means no file was chosen. */
  datatype Upload = Upload(filename: string)

  /** `request.form.get(key)` then `or ""`. */
  function FormText(form: map<string, string>, key: string): string {
    if key in form then form[key] else ""
  }

  /** `request.form.get(key)` as a value for `clean_int`. */
  function FormValue(form: map<string, string>, key: string): Json {
    if key in form then JStr(form[key]) else JNull
  }

  /** `clean_int(request.form.get(key), 0)`: a form field is a string or missing. */
  function FormInt(form: map<string, string>, key: string): (n: int)
    ensures n == CleanInt(FormValue(form, key), 0)
  {
    if key in form then CleanStr(form[key], 0) else 0
  }

  /** The fields `add_stock` reads from the form, after stripping and `clean_int`. */
  datatype NewItem = NewItem(
    title: string, price: int, gender: string, categoryId: int,
    stock: int, sizes: string, color: string, description: string)

  function ReadNewItem(form: map<string, string>): NewItem {
    NewItem(
      PyStrip(FormText(form, "title")),
      FormInt(form, "price"),
      PyStrip(FormText(form, "gender")),
      FormInt(form, "category_id"),
      FormInt(form, "stock"),
      PyStrip(FormText(form, "sizes")),
      PyStrip(FormText(form, "color")),
      PyStrip(FormText(form, "description")))
  }

  const InvalidData := "Datos inválidos"
  const MissingGenderOrCategory := "Género y categoría son obligatorios"

  /** The validation of `add_stock`: None when the item may be stored, else the error it answers with 400. */
  function ValidateNewItem(item: NewItem): (err: Option<string>)
    ensures err.None? <==> item.title != [] && item.price > 0 && item.gender != [] && item.categoryId > 0
    ensures err == Some(InvalidData) <==> item.title == [] || item.price <= 0
    ensures err.Some? ==> err.value == InvalidData || err.value == MissingGenderOrCategory
  {
    if item.title == [] || item.price <= 0 then Some(InvalidData)
    else if item.gender == [] || item.categoryId <= 0 then Some(MissingGenderOrCategory)
    else None
  }

  /** A form with a title and a price is accepted only with a gender and a positive category too. */
  lemma ValidationOfForm(form: map<string, string>)
    ensures ValidateNewItem(ReadNewItem(form)).None? ==>
              "title" in form && "price" in form && "gender" in form && "category_id" in form
    ensures "price" !in form ==> ValidateNewItem(ReadNewItem(form)) == Some(InvalidData)
  {
    var item := ReadNewItem(form);
    if "title" !in form {
      assert PyStrip("") == "";
    }
    if "gender" !in form {
      assert PyStrip("") == "";
    }
  }

  /** The form field name of upload slot `i`. */
  function SlotName(i: nat): string {
    "image" + DecimalString(i)
  }

  const UploadPrefix := "/static/uploads/"

  /** The stored path of upload slot `i`, None when the slot holds no file. */
  function SlotPath(files: map<string, Upload>, secure: string -> string, i: nat): Option<string> {
    var key := SlotName(i);
    if key in files && files[key].filename != [] then Some(UploadPrefix + secure(files[key].filename))
    else None
  }

  /** The stored paths of slots 1 .. n-1, in slot order. */
  function ImagePaths(files: map<string, Upload>, secure: string -> string, n: nat): (ps: seq<string>)
    ensures |ps| <= if n == 0 then 0 else n - 1
    ensures forall p :: p in ps ==> StartsWith(p, UploadPrefix)
  {
    if n <= 1 then []
    else
      var before := ImagePaths(files, secure, n - 1);
      match SlotPath(files, secure, n - 1)
      case None => before
      case Some(p) => before + [p]
  }

  /** The loop of `add_stock` over the upload slots `image1` .. `image4`. */
  method CollectImagePaths(files: map<string, Upload>, secure: string -> string) returns (paths: seq<string>)
    ensures paths == ImagePaths(files, secure, 5)
    ensures |paths| <= 4
    ensures forall p :: p in paths ==> StartsWith(p, UploadPrefix)
  {
    paths := [];
    for i := 1 to 5
      invariant paths == ImagePaths(files, secure, i)
    {
      var key := SlotName(i);
      if key in files && files[key].filename != [] {
        var filename := secure(files[key].filename);
        paths := paths + [UploadPrefix + filename];
      }
    }
  }

  /** The badge ids of the `badges` field, when it decodes to a list of integers. */
  function BadgeIds(badges: Json): (r: Option<seq<int>>)
    ensures r.Some? ==> badges.JArr? && |r.value| == |badges.items|
    ensures r.Some? ==> forall k :: 0 <= k < |r.value| ==> badges.items[k].JNum? && r.value[k] == badges.items[k].n
    ensures badges.JArr? && (forall k :: 0 <= k < |badges.items| ==> badges.items[k].JNum?) ==> r.Some?
  {
    if badges.JArr? && forall k :: 0 <= k < |badges.items| ==> badges.items[k].JNum? then
      Some(seq(|badges.items|, k requires 0 <= k < |badges.items| && badges.items[k].JNum? => badges.items[k].n))
    else None
  }

  /** The row `add_stock` inserts. */
  function NewRow(id: int, item: NewItem, paths: seq<string>): StockRow {
    StockRow(id, 1, item.title, item.price, Some(item.gender), Some(item.categoryId), None,
             item.stock, Some(item.sizes), Some(item.color), Some(item.description),
             JArr(seq(|paths|, k requires 0 <= k < |paths| => JStr(paths[k]))),
             false, false, None)
  }

  /** The `stock_badges` rows inserted for a new item. */
  function BadgeLinks(id: int, badges: seq<int>): (links: seq<(int, int)>)
    ensures |links| == |badges|
    ensures forall k :: 0 <= k < |links| ==> links[k] == (id, badges[k])
  {
    seq(|badges|, k requires 0 <= k < |badges| => (id, badges[k]))
  }

  /** The field `badges`, "[]" when the form has none. */
  function BadgesText(form: map<string, string>): string {
    if "badges" in form then form["badges"] else "[]"
  }

  /**
   * Where a database failure inside `add_stock` strikes: before the INSERT has drawn the
   * next SERIAL value (the connection), or once it has (the INSERT's own constraints,
   * a badge link, the commit).
   */
  datatype AddFailure = NoFailure | FailsBeforeInsert | FailsAfterInsert

  /** The answer of `add_stock()`, `id` being the next SERIAL value. */
  function AddStockResponse(s: Session, badges: Option<Json>, item: NewItem, fault: AddFailure, id: int): Response {
    if !Protected(s) then Unauthorized
    else if badges.None? then ServerError
    else
      match ValidateNewItem(item)
      case Some(err) => Invalid(err)
      case None => if fault != NoFailure || BadgeIds(badges.value).None? then ServerError else Created(id)
  }

  /** The INSERT ... RETURNING id is executed, and so draws the next SERIAL value. */
  predicate InsertRuns(s: Session, badges: Option<Json>, item: NewItem, fault: AddFailure) {
    Protected(s) && badges.Some? && ValidateNewItem(item).None? && fault != FailsBeforeInsert
  }

  /**
   * `add_stock` answers 401 without the gate; it creates the item exactly when the badge list
   * decodes to integers, the fields validate and the insert does not fail; it answers 400
   * with the validation message exactly when the badge list decodes and the fields do not
   * validate.
   */
  lemma AddStockCases(s: Session, badges: Option<Json>, item: NewItem, fault: AddFailure, id: int)
    ensures var r := AddStockResponse(s, badges, item, fault, id);
            !Protected(s) ==> r == Unauthorized
    ensures var r := AddStockResponse(s, badges, item, fault, id);
            r.Created? <==>
              && Protected(s) && badges.Some? && ValidateNewItem(item).None? && fault == NoFailure
              && BadgeIds(badges.value).Some?
    ensures var r := AddStockResponse(s, badges, item, fault, id);
            r.Created? ==> InsertRuns(s, badges, item, fault)
    ensures var r := AddStockResponse(s, badges, item, fault, id);
            InsertRuns(s, badges, item, fault) && !r.Created? ==> r == ServerError && HttpStatus(r) == 500
    ensures var r := AddStockResponse(s, badges, item, fault, id);
            r.Created? ==> r.newId == id
    ensures var r := AddStockResponse(s, badges, item, fault, id);
            r.Invalid? <==> Protected(s) && badges.Some? && ValidateNewItem(item).Some?
    ensures var r := AddStockResponse(s, badges, item, fault, id);
            r.Invalid? ==> HttpStatus(r) == 400 && r.message == ValidateNewItem(item).value
  {
  }

  /** A new row gets a fresh id, so the ids stay unique. */
  lemma NewRowFresh(rows: seq<StockRow>, nextId: int, item: NewItem, paths: seq<string>)
    requires UniqueIds(rows) && forall k :: 0 <= k < |rows| ==> rows[k].id < nextId
    ensures UniqueIds(rows + [NewRow(nextId, item, paths)])
    ensures forall k :: 0 <= k <= |rows| ==> (rows + [NewRow(nextId, item, paths)])[k].id < nextId + 1
  {
  }

  // ---------------------------------------------------------------------------
  // Editing and deleting an item
  // ---------------------------------------------------------------------------

  /** `(data.get(key) or "").strip()`; None where `.strip()` raises on a non-string. */
  function TextField(v: Json): Option<string> {
    if !PyTruthy(v) then Some("")
    else if v.JStr? then Some(PyStrip(v.s))
    else None
  }

  /** The columns a PUT rewrites. */
  datatype Edit = Edit(title: string, price: int, stock: int, sizes: string, color: string, description: string)

  /**
   * The values a PUT writes, from the decoded body (None when it is not JSON), or None when
   * reading them raises: the body is truthy but not an object, or a text field holds a
   * truthy non-string.
   */
  function ReadEdit(body: Option<Json>): Option<Edit> {
    var data := if body.None? || !PyTruthy(body.value) then JObj([]) else body.value;
    if !data.JObj? then None
    else
      var f := data.fields;
      match (TextField(GetField(f, "title")), TextField(GetField(f, "sizes")),
             TextField(GetField(f, "color")), TextField(GetField(f, "description")))
      case (Some(title), Some(sizes), Some(color), Some(description)) =>
        Some(Edit(title, CleanInt(GetField(f, "price"), 0), CleanInt(GetField(f, "stock"), 0), sizes, color, description))
      case _ => None
  }

  function ApplyEdit(e: Edit): StockRow -> StockRow {
    (r: StockRow) => r.(title := e.title, price := e.price, stock := e.stock, sizes := Some(e.sizes),
             color := Some(e.color), description := Some(e.description))
  }

  /** A PUT with no usable body blanks every editable column of its target: fields it omits are not kept. */
  lemma EmptyEditBlanks(body: Option<Json>)
    requires body.None? || !PyTruthy(body.value)
    ensures ReadEdit(body) == Some(Edit("", 0, 0, "", "", ""))
  {
    assert CleanInt(JNull, 0) == 0;
  }

  /** The outcome of `PUT /api/stock/<id>` as written: no administrator check. */
  function EditAsWritten(rows: seq<StockRow>, id: int, body: Option<Json>, fault: bool): (Response, seq<StockRow>) {
    match ReadEdit(body)
    case None => (ServerError, rows)
    case Some(e) => if fault then (ServerError, rows) else (Done, UpdatedById(rows, id, ApplyEdit(e)))
  }

  /** The outcome of `DELETE /api/stock/<id>` as written: no administrator check. */
  function DeleteAsWritten(rows: seq<StockRow>, id: int, fault: bool): (Response, seq<StockRow>) {
    if fault then (ServerError, rows) else (Done, WithoutId(rows, id))
  }

  /** The routes as their "solo admin" heading intends: refused with 401 unless the session passes the gate. */
  function EditGuarded(s: Session, rows: seq<StockRow>, id: int, body: Option<Json>, fault: bool): (Response, seq<StockRow>) {
    if !Protected(s) then (Unauthorized, rows) else EditAsWritten(rows, id, body, fault)
  }

  function DeleteGuarded(s: Session, rows: seq<StockRow>, id: int, fault: bool): (Response, seq<StockRow>) {
    if !Protected(s) then (Unauthorized, rows) else DeleteAsWritten(rows, id, fault)
  }

  /** The object `GET /api/stock/<id>` answers: the stored columns, the images as a list. */
  datatype ItemJson = ItemJson(id: int, title: string, price: int, stock: int, sizes: Option<string>,
                               color: Option<string>, description: Option<string>, images: seq<Json>)

  /** The answer of `GET /api/stock/<id>`: the item, 404 "Producto no encontrado", or 500. */
  datatype ItemReply = ItemFound(item: ItemJson) | ItemMissing | ItemFailed

  /** `GET /api/stock/<id>`: any client may read any item. */
  function GetItem(rows: seq<StockRow>, id: int, parse: string -> Option<Json>, fault: bool): ItemReply {
    if fault then ItemFailed
    else
      match FindRow(rows, id)
      case None => ItemMissing
      case Some(r) =>
        ItemFound(ItemJson(r.id, r.title, r.price, r.stock, r.sizes, r.color, r.description,
                           NormalizeImagesDb(r.images, parse)))
  }

  /**
   * A read answers 404 exactly when no row has the id; otherwise it shows a row with that id,
   * its columns as stored and its images through `normalize_images_db`.
   */
  lemma GetItemCases(rows: seq<StockRow>, id: int, parse: string -> Option<Json>)
    ensures GetItem(rows, id, parse, false).ItemMissing? <==> forall x :: x in rows ==> x.id != id
    ensures var g := GetItem(rows, id, parse, false);
            g.ItemFound? ==>
              exists x :: x in rows && x.id == id && g.item.id == id
                          && g.item.title == x.title && g.item.price == x.price && g.item.stock == x.stock
                          && g.item.sizes == x.sizes && g.item.color == x.color
                          && g.item.description == x.description
                          && g.item.images == NormalizeImagesDb(x.images, parse)
  {
  }

  /** The first row with the id, after an update of the rows with that id, is the updated first row. */
  lemma {:induction false} FindRowUpdated(rows: seq<StockRow>, id: int, f: StockRow -> StockRow)
    requires forall r :: f(r).id == r.id
    requires FindRow(rows, id).Some?
    ensures FindRow(UpdatedById(rows, id, f), id) == Some(f(FindRow(rows, id).value))
  {
    var u := UpdatedById(rows, id, f);
    assert u[0] == if rows[0].id == id then f(rows[0]) else rows[0];
    if rows[0].id != id {
      assert u[1..] == UpdatedById(rows[1..], id, f);
      FindRowUpdated(rows[1..], id, f);
    }
  }

  /** After a PUT that succeeds on an existing item, reading it back shows the values written. */
  lemma GetAfterEdit(rows: seq<StockRow>, id: int, body: Option<Json>, parse: string -> Option<Json>)
    requires ReadEdit(body).Some?
    requires exists x :: x in rows && x.id == id
    ensures EditAsWritten(rows, id, body, false).0 == Done
    ensures var g := GetItem(EditAsWritten(rows, id, body, false).1, id, parse, false);
            var e := ReadEdit(body).value;
            && g.ItemFound? && g.item.id == id
            && g.item.title == e.title && g.item.price == e.price && g.item.stock == e.stock
            && g.item.sizes == Some(e.sizes) && g.item.color == Some(e.color)
            && g.item.description == Some(e.description)
  {
    var e := ReadEdit(body).value;
    FindRowUpdated(rows, id, ApplyEdit(e));
  }

  /** After a DELETE that succeeds, reading the item answers 404. */
  lemma GetAfterDelete(rows: seq<StockRow>, id: int, parse: string -> Option<Json>)
    ensures DeleteAsWritten(rows, id, false).0 == Done
    ensures GetItem(DeleteAsWritten(rows, id, false).1, id, parse, false) == ItemMissing
  {
  }

  /** As written, a client that never logged in deletes any existing item. */
  lemma AnonymousDeleteSucceeds(rows: seq<StockRow>, k: int)
    requires 0 <= k < |rows|
    ensures !Protected(Anonymous)
    ensures DeleteAsWritten(rows, rows[k].id, false).0 == Done
    ensures rows[k] !in DeleteAsWritten(rows, rows[k].id, false).1
  {
  }

  /** As written, a client that never logged in rewrites any existing item. */
  lemma AnonymousEditSucceeds(rows: seq<StockRow>, k: int)
    requires 0 <= k < |rows|
    ensures EditAsWritten(rows, rows[k].id, None, false).0 == Done
    ensures EditAsWritten(rows, rows[k].id, None, false).1[k].title == ""
  {
    EmptyEditBlanks(None);
  }

  /** The guarded routes change nothing for a session that has not passed both login steps. */
  lemma GuardedRefusesAnonymous(s: Session, rows: seq<StockRow>, id: int, body: Option<Json>, fault: bool)
    requires !Protected(s)
    ensures EditGuarded(s, rows, id, body, fault) == (Unauthorized, rows)
    ensures DeleteGuarded(s, rows, id, fault) == (Unauthorized, rows)
    ensures HttpStatus(EditGuarded(s, rows, id, body, fault).0) == 401
  {
  }

  /** For an authenticated session the guarded routes do what the written ones do. */
  lemma GuardedAgreesWhenAuthenticated(s: Session, rows: seq<StockRow>, id: int, body: Option<Json>, fault: bool)
    requires Protected(s)
    ensures EditGuarded(s, rows, id, body, fault) == EditAsWritten(rows, id, body, fault)
    ensures DeleteGuarded(s, rows, id, fault) == DeleteAsWritten(rows, id, fault)
  {
  }

  // ---------------------------------------------------------------------------
  // The table, changed in place by the routes
  // ---------------------------------------------------------------------------

  /** The panel, the redirect to the login page, or the 500 page of an uncaught failure. */
  datatype PanelPage = PanelToLogin | Panel | PanelFailed

  class Table {
    var rows: seq<StockRow>
    /** `stock_badges` as (stock_id, badge_id) pairs. */
    var badgeLinks: seq<(int, int)>
    /** The next value of the SERIAL id sequence. */
    var nextId: int

    predicate Valid()
      reads this
    {
      UniqueIds(rows) && (forall k :: 0 <= k < |rows| ==> rows[k].id < nextId)
    }

    constructor ()
      ensures Valid() && rows == [] && badgeLinks == [] && nextId == 1
    {
      rows, badgeLinks, nextId := [], [], 1;
    }

    /** `remove_expired_featured()`; a failure is caught and leaves the table as it was. */
    method RemoveExpiredFeatured(now: int, fault: bool)
      requires Valid()
      modifies this
      ensures Valid()
      ensures rows == (if fault then old(rows) else Swept(old(rows), now))
      ensures badgeLinks == old(badgeLinks) && nextId == old(nextId)
    {
      if fault {
        return;
      }
      ghost var before := rows;
      var i := 0;
      while i < |rows|
        invariant 0 <= i <= |rows| == |before|
        invariant forall k :: 0 <= k < i ==> rows[k] == Swept(before, now)[k]
        invariant forall k :: i <= k < |rows| ==> rows[k] == before[k]
        invariant badgeLinks == old(badgeLinks) && nextId == old(nextId)
      {
        if Expired(rows[i], now) {
          rows := rows[i := ClearFeature(rows[i])];
        }
        i := i + 1;
      }
      assert rows == Swept(before, now);
      SweepIds(before, now);
    }

    /** The UPDATE ... WHERE id = %s shared by `feature`, `unfeature` and the PUT route. */
    method UpdateById(id: int, f: StockRow -> StockRow)
      requires Valid()
      requires forall r :: f(r).id == r.id
      modifies this
      ensures Valid()
      ensures rows == UpdatedById(old(rows), id, f)
      ensures badgeLinks == old(badgeLinks) && nextId == old(nextId)
    {
      ghost var before := rows;
      var i := 0;
      while i < |rows|
        invariant 0 <= i <= |rows| == |before|
        invariant forall k :: 0 <= k < i ==> rows[k] == UpdatedById(before, id, f)[k]
        invariant forall k :: i <= k < |rows| ==> rows[k] == before[k]
        invariant badgeLinks == old(badgeLinks) && nextId == old(nextId)
      {
        if rows[i].id == id {
          rows := rows[i := f(rows[i])];
        }
        i := i + 1;
      }
      assert rows == UpdatedById(before, id, f);
    }

    /** `index()`: the home page sweeps before rendering. */
    method Index(now: int, sweepFault: bool)
      requires Valid()
      modifies this
      ensures Valid()
      ensures rows == (if sweepFault then old(rows) else Swept(old(rows), now))
      ensures badgeLinks == old(badgeLinks) && nextId == old(nextId)
    {
      RemoveExpiredFeatured(now, sweepFault);
    }

    /**
     * `admin_panel()`: only a session past the gate gets the panel, and only then is the
     * table swept. `queryFault` is a failure of the categories query that follows the sweep;
     * nothing catches it, so the answer is a 500 page while the committed sweep stays.
     */
    method AdminPanel(s: Session, now: int, sweepFault: bool, queryFault: bool) returns (page: PanelPage)
      requires Valid()
      modifies this
      ensures Valid()
      ensures page == (if !Protected(s) then PanelToLogin else if queryFault then PanelFailed else Panel)
      ensures rows == (if !Protected(s) || sweepFault then old(rows) else Swept(old(rows), now))
      ensures badgeLinks == old(badgeLinks) && nextId == old(nextId)
    {
      if !Protected(s) {
        return PanelToLogin;
      }
      RemoveExpiredFeatured(now, sweepFault);
      if queryFault {
        return PanelFailed;
      }
      return Panel;
    }

    /**
     * `feature(item_id)` at instant `now`. `fault` is a database failure before the commit;
     * nothing catches it, so the answer is a 500 and the update is not committed.
     */
    method Feature(s: Session, id: int, now: int, fault: bool) returns (resp: Response)
      requires Valid()
      modifies this
      ensures Valid()
      ensures resp == (if !Protected(s) then Unauthorized else if fault then ServerError else Done)
      ensures rows == (if Protected(s) && !fault then Featured(old(rows), id, now) else old(rows))
      ensures badgeLinks == old(badgeLinks) && nextId == old(nextId)
    {
      if !Protected(s) {
        return Unauthorized;
      }
      if fault {
        return ServerError;
      }
      UpdateById(id, SetFeatured(now + FeatureWindow));
      return Done;
    }

    /** `unfeature(item_id)`; `fault` as for `feature`. */
    method Unfeature(s: Session, id: int, fault: bool) returns (resp: Response)
      requires Valid()
      modifies this
      ensures Valid()
      ensures resp == (if !Protected(s) then Unauthorized else if fault then ServerError else Done)
      ensures rows == (if Protected(s) && !fault then Unfeatured(old(rows), id) else old(rows))
      ensures badgeLinks == old(badgeLinks) && nextId == old(nextId)
    {
      if !Protected(s) {
        return Unauthorized;
      }
      if fault {
        return ServerError;
      }
      UpdateById(id, Unfeaturing());
      return Done;
    }

    /** `item_detail(item_id)`: sweep, then read the item and its related rows. */
    method ItemDetail(id: int, now: int, sweepFault: bool, parse: string -> Option<Json>, fault: bool)
      returns (page: DetailPage)
      requires Valid()
      modifies this
      ensures Valid()
      ensures rows == (if sweepFault then old(rows) else Swept(old(rows), now))
      ensures page == Detail(rows, id, parse, fault)
      ensures badgeLinks == old(badgeLinks) && nextId == old(nextId)
    {
      RemoveExpiredFeatured(now, sweepFault);
      page := Detail(rows, id, parse, fault);
    }

    /**
     * `add_stock()`, given the decoded badge field `parse(BadgesText(form))` and the fields
     * `ReadNewItem(form)`. `secure` is `secure_filename`; `fault` says whether and where a
     * database failure strikes. The gate is checked first, then the badge list, then the
     * upload paths are collected and the fields validated. Once the INSERT has run, its
     * SERIAL value is spent even when a later step fails and the transaction is dropped.
     */
    method AddStock(s: Session, badges: Option<Json>, item: NewItem, files: map<string, Upload>,
                    secure: string -> string, fault: AddFailure)
      returns (resp: Response)
      requires Valid()
      modifies this
      ensures Valid()
      ensures resp == AddStockResponse(s, badges, item, fault, old(nextId))
      ensures nextId == (if InsertRuns(s, badges, item, fault) then old(nextId) + 1 else old(nextId))
      ensures resp.Created? ==>
                && rows == old(rows) + [NewRow(old(nextId), item, ImagePaths(files, secure, 5))]
                && badgeLinks == old(badgeLinks) + BadgeLinks(old(nextId), BadgeIds(badges.value).value)
      ensures !resp.Created? ==> rows == old(rows) && badgeLinks == old(badgeLinks)
    {
      if !Protected(s) {
        return Unauthorized;
      }
      if badges.None? {
        return ServerError;
      }
      var paths := CollectImagePaths(files, secure);
      var err := ValidateNewItem(item);
      if err.Some? {
        return Invalid(err.value);
      }
      if fault == FailsBeforeInsert {
        return ServerError;
      }
      var id := nextId;
      nextId := nextId + 1;
      var ids := BadgeIds(badges.value);
      if fault == FailsAfterInsert || ids.None? {
        return ServerError;
      }
      NewRowFresh(rows, id, item, paths);
      rows := rows + [NewRow(id, item, paths)];
      badgeLinks := badgeLinks + BadgeLinks(id, ids.value);
      return Created(id);
    }

    /** `PUT /api/stock/<id>` as written: any client may call it. */
    method EditItem(id: int, body: Option<Json>, fault: bool) returns (resp: Response)
      requires Valid()
      modifies this
      ensures Valid()
      ensures (resp, rows) == EditAsWritten(old(rows), id, body, fault)
      ensures badgeLinks == old(badgeLinks) && nextId == old(nextId)
    {
      var e := ReadEdit(body);
      if e.None? || fault {
        return ServerError;
      }
      UpdateById(id, ApplyEdit(e.value));
      return Done;
    }

    /** `DELETE /api/stock/<id>` as written: any client may call it. */
    method DeleteItem(id: int, fault: bool) returns (resp: Response)
      requires Valid()
      modifies this
      ensures Valid()
      ensures (resp, rows) == DeleteAsWritten(old(rows), id, fault)
      ensures badgeLinks == old(badgeLinks) && nextId == old(nextId)
    {
      if fault {
        return ServerError;
      }
      var kept := WithoutId(rows, id);
      WithoutIdUnique(rows, id);
      assert forall k :: 0 <= k < |kept| ==> kept[k] in rows;
      rows := kept;
      return Done;
    }

    /** `PUT /api/stock/<id>` behind the administrator gate its heading calls for. */
    method AdminEditItem(s: Session, id: int, body: Option<Json>, fault: bool) returns (resp: Response)
      requires Valid()
      modifies this
      ensures Valid()
      ensures (resp, rows) == EditGuarded(s, old(rows), id, body, fault)
      ensures badgeLinks == old(badgeLinks) && nextId == old(nextId)
    {
      if !Protected(s) {
        return Unauthorized;
      }
      resp := EditItem(id, body, fault);
    }

    /** `DELETE /api/stock/<id>` behind the administrator gate its heading calls for. */
    method AdminDeleteItem(s: Session, id: int, fault: bool) returns (resp: Response)
      requires Valid()
      modifies this
      ensures Valid()
      ensures (resp, rows) == DeleteGuarded(s, old(rows), id, fault)
      ensures badgeLinks == old(badgeLinks) && nextId == old(nextId)
    {
      if !Protected(s) {
        return Unauthorized;
      }
      resp := DeleteItem(id, fault);
    }
  }

  lemma SweepIds(rows: seq<StockRow>, now: int)
    ensures forall k :: 0 <= k < |rows| ==> Swept(rows, now)[k].id == rows[k].id
  {
  }
}
