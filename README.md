# hogar-y-mas catalogue core in Dafny

This project models the core of the "hogar-y-mas" catalogue shop in Dafny. The shop has a Flask back end (`app.py`, `core/helpers.py`) and a browser script (`static/scripts.js`). The model covers:

- **Value normalisers** (module `Helpers`, over `Text` and `Json`):
  - `clean_int`, the lenient string-to-integer reader for prices and quantities. It deletes `.` and `,`, drops `ARS`/`ars`, turns `k`/`K` into `000`, then calls Python `int()`. The model writes out what `int()` accepts: a sign, ASCII digits, single underscores between digits, and surrounding whitespace.
  - `normalize_images_db`, which turns the images column into a list.
  - The `price_ars` template filter.
- **Administrator login** (module `AdminAuth`):
  - The Flask session is a class `SessionCookie` whose methods change its three keys.
  - The methods are `admin_login` (username and password), `admin_2fa` (TOTP code), `admin_logout` and the gate `admin_protected`.
  - Each method is proved against a pure step function. Password hashing and TOTP verification are parameters the model knows nothing about.
  - A trace lemma shows that, starting from an empty session, the gate passes only after a password check and a later TOTP check for the same principal.
- **Stock table** (module `StockTable`): a class `Table` holding the rows of `stock`, the `stock_badges` links and the next SERIAL id. Its routes are:
  - the sweep that ends expired 24-hour featured windows, plus the routes that run it;
  - `feature` and `unfeature`;
  - `POST /api/stock`, with its upload-slot loop, validation and badge links;
  - `GET`, `PUT` and `DELETE` on `/api/stock/<id>`;
  - the item page, with its sizes and at most four related items.
- **Catalogue page** (module `Catalog`):
  - The normalisers `normalizeSizes`, `normalizeImages`, `toUploadUrl` and `parseItem`.
  - The page state (a class `CatalogPage`): filters, pagination with 16 items per page, and the page clamp of `changePage`.
  - The badge picker of the admin panel.
- **Mini cart** (module `MiniCart`): a class `Cart` with `addToCart`, `removeItem` (JavaScript `splice`) and the total loop of `renderCart`.
- **Swipe gallery** (module `Gallery`): the swipe state of the item page and its 40-pixel threshold.

External effects are parameters:
- `json.loads` and `JSON.parse` are a function `parse` that gives None where the real call raises.
- `secure_filename` is a function `secure`.
- The clock is an integer `now`, in seconds.
- A database failure is a `fault` parameter. Inside a route's `try` block it gives that route's error answer. In `feature`, `unfeature` and the categories query of `admin_panel` nothing catches it, so Flask answers 500.
- `add_stock` distinguishes a failure before its INSERT from one after it (`StockTable.AddFailure`). Once the INSERT has run, the SERIAL value is spent even though the transaction is dropped.

Where the code and its written design disagree, the model follows the code:
- A wrong TOTP code keeps the pending login. The session is emptied only when the principal is gone or deactivated, or on an exception.
- `if not user_id` treats a pending id of 0 as absent.
- `GET /api/stock` does not run the featured sweep, so it can list a row whose window has ended (`StockTable.ListingShowsStaleFeature`).
- `PUT` and `DELETE` on `/api/stock/<id>` have no administrator check (see Findings).
- The heading of that route (app.py:679-680) says "SOFT DELETE", but the code runs a hard `DELETE FROM stock`. The model deletes the row (`StockTable.WithoutId`).
- The same heading marks `GET` on `/api/stock/<id>` "solo admin" as well. The code serves it to anyone, and so does the model (`StockTable.GetItem`).

## Model

| member | source | states |
|---|---|---|
| Helpers.PyIntChars | app.py:238-241 | a string `int()` accepts holds only digits, `_`, signs and whitespace |
| Helpers.PyIntOfDigits | app.py:238-241 | an optional minus sign followed by decimal digits reads as that signed number |
| Helpers.PyIntUnstripped | core/helpers.py:24-27 | a string with no whitespace at either end is read without stripping |
| Helpers.CleanStrScrubbed | core/helpers.py:11-27 | a non-blank, already stripped string gives `int()` of its scrubbed form, or the default where `int()` raises |
| Helpers.CleanIntBlank | core/helpers.py:8-13 | None and whitespace-only strings give the default |
| Helpers.CleanIntSeparated | core/helpers.py:15-17 | a numeral written with `.`/`,` thousands separators and an optional minus sign reads as its digits |
| Helpers.CleanIntGrouped | app.py:235 | "1.500" and "1,500" read as 1500: digits, a separator, digits read as the digits joined |
| Helpers.CleanIntDigits | core/helpers.py:24-25 | a string of ASCII digits reads as its decimal value |
| Helpers.CleanIntOfNumber | core/helpers.py:11 | a number passed through `str()` comes back unchanged |
| Helpers.CleanIntThousandsSuffix | core/helpers.py:20-21 | digits followed by `k` or `K` read as the value times 1000 |
| Helpers.ScrubCurrencySuffix | core/helpers.py:15-22 | the replacements delete a trailing "ARS" or "ars" after digits |
| Helpers.CleanIntCurrencySuffix | core/helpers.py:18-19 | digits followed by "ARS" or "ars" read as their value |
| Helpers.CleanIntSuffixExample | app.py:237 | "15k" reads as 15000 |
| Helpers.CleanIntRejects | core/helpers.py:24-27 | a scrubbed residue holding a character `int()` never accepts gives the default |
| Helpers.CleanIntLeadingSymbol | core/helpers.py:15-27 | a leading symbol that neither the replacements nor `int()` accept gives the default ("$100") |
| Helpers.CleanIntInnerSpace | core/helpers.py:24-27 | a space between digit groups gives the default ("1 000") |
| Helpers.ScrubUntouched | core/helpers.py:15-22 | a string without `.`, `,`, `a`, `A`, `k`, `K` passes the replacements unchanged |
| Helpers.ScrubThousandsSuffix | core/helpers.py:15-22 | the replacements turn digits plus `k`/`K` into the digits plus "000" |
| Helpers.NormalizeImagesDb | core/helpers.py:37-38 | a list comes back as it is |
| Helpers.NormalizeImagesDbCases | core/helpers.py:34-57 | None and scalars give [], a list is returned as is, a dict gives its values |
| Helpers.NormalizeImagesDbBlank | core/helpers.py:40-43 | a blank string gives [] |
| Helpers.NormalizeImagesDbText | core/helpers.py:40-52 | other text is parsed after stripping: list as is, dict to values, other JSON to [], unparsable text to a list of the original value |
| Helpers.Pad3 | app.py:49 | a group of three zero-padded digits whose value is the given number below 1000 |
| Helpers.PriceArs | app.py:46-51 | the filter's output always starts with "$" and has at least one more character |
| Helpers.GroupThousandsNumeral | app.py:49 | the grouped form holds only digits and `.` |
| Helpers.GroupThousandsDigits | app.py:49 | deleting the dots of the grouped form leaves exactly `str(n)`, with no leading zero |
| Helpers.GroupThousandsShape | app.py:49 | the first group has one to three digits, every later group exactly three |
| Helpers.PriceArsRoundTrip | app.py:46-51 | `clean_int` of a formatted price without its "$" is the original integer |
| Text.StripEmptyIff | core/helpers.py:11-13 | a stripped string is empty exactly when every character is whitespace |
| Text.StripIdempotent | core/helpers.py:11 | stripping twice is stripping once |
| Text.SplitJoin | app.py:865 | splitting a comma-joined list of comma-free strings gives the list back |
| AdminAuth.FindActive | app.py:322-331 | the id found has that username and is active; None means no active principal has it |
| AdminAuth.SessionCookie.constructor | app.py:304-352 | a new client starts with an empty session |
| AdminAuth.SessionCookie.Clear | app.py:343 | `session.clear()` leaves no key |
| AdminAuth.SessionCookie.AdminProtected | app.py:244-245 | the gate passes exactly when the authenticated key holds True |
| AdminAuth.SessionCookie.AdminLogin | app.py:304-352 | the page and the new session are those of the login step function |
| AdminAuth.SessionCookie.AdminTwoFactor | app.py:355-407 | the page and the new session are those of the second-factor step function |
| AdminAuth.SessionCookie.AdminLogout | app.py:410-413 | the session becomes empty, the gate fails and the client is sent to the login page |
| AdminAuth.LogoutRevokes | app.py:410-413 | after logout the session is empty and the gate fails, whatever it held |
| AdminAuth.LoginMissingFields | app.py:312-316 | a blank username or an empty password is refused without reading the store and leaves the session unchanged |
| AdminAuth.LoginUnknownOrWrongPassword | app.py:335-341 | unknown or inactive usernames and wrong passwords get the same error and leave the session unchanged |
| AdminAuth.LoginSucceeds | app.py:335-348 | the first step succeeds exactly for an active principal whose password checks; the session then holds only that principal's pending id |
| AdminAuth.TwoFactorWithoutPending | app.py:358-360 | without a pending id (missing or 0) the client is redirected to login and nothing changes |
| AdminAuth.TwoFactorBadCodeKeepsPending | app.py:365-394 | an empty or wrong code shows the form with an error and keeps the session, pending id included |
| AdminAuth.TwoFactorClears | app.py:386-407 | a principal that is missing or inactive, or an exception, empties the session |
| AdminAuth.TwoFactorSucceeds | app.py:355-402 | authentication happens exactly when a non-blank code verifies for the pending, active principal; the session then holds that principal's id and no pending id |
| AdminAuth.RunEarned | app.py:304-413 | along any request sequence from an empty session, a pending id comes from an accepted password and authentication from a later accepted code |
| AdminAuth.AuthenticatedOnlyAfterBothFactors | app.py:244-245 | from an empty session the gate passes only after a password accepted for its principal and a later code verified for the same principal |
| StockTable.Swept | app.py:212-216 | the sweep keeps the number of rows |
| StockTable.SweepEffect | app.py:212-216 | exactly the rows whose expiry is set and strictly earlier than `now` lose their flag and expiry; other rows and columns are unchanged; no row is left expired |
| StockTable.SweepKeepsOpenEnded | app.py:215 | a featured row without an expiry survives every sweep |
| StockTable.SweepIdempotent | app.py:212-216 | a second sweep at the same or an earlier instant changes nothing |
| StockTable.SweepLater | app.py:212-216 | a sweep at a later instant subsumes an earlier one |
| StockTable.SweepIds | app.py:212-216 | the sweep keeps every row's id |
| StockTable.UpdatedById | app.py:770-778 | an UPDATE by id keeps the number of rows |
| StockTable.FeatureEffect | app.py:770-802 | `feature` sets the flag and an expiry 24 hours after `now` on the rows with that id; `unfeature` clears both; nothing else changes |
| StockTable.UnfeatureAfterFeature | app.py:762-808 | unfeaturing after featuring is the same as only unfeaturing |
| StockTable.FeatureWindowLasts | app.py:774 | a row featured at `t` stays featured through every sweep up to `t` + 24 h and is cleared by any later one |
| StockTable.ListingShowsStaleFeature | app.py:613-676 | the listing, which does not sweep, still shows a featured row after its window ended |
| StockTable.WithoutId | app.py:744-747 | a DELETE keeps exactly the rows with another id |
| StockTable.WithoutIdUnique | app.py:744-747 | deleting keeps the ids unique |
| StockTable.FindRow | app.py:815-860 | the row found has the id; None means no row has it |
| StockTable.SizeListShape | app.py:865 | every listed size is non-blank, stripped and comma-free; a NULL column gives no sizes |
| StockTable.SizeListRoundTrip | app.py:865 | clean sizes stored comma-joined are listed back as the same list |
| StockTable.RelatedCandidates | app.py:879-894 | the candidates are exactly the other rows sharing the category or with a NULL category on either side |
| StockTable.Related | app.py:879-894 | `LIMIT 4`: at most four candidates, each a related row of the table |
| StockTable.DetailShape | app.py:813-920 | the item page shows the requested row and at most four related rows, none of them the item; a missing id gives the not-found page |
| StockTable.FormInt | app.py:474-481 | a form number is `clean_int` of the field, 0 by default |
| StockTable.ValidateNewItem | app.py:486-493 | the item is accepted exactly with a title, a positive price, a gender and a positive category; the two error messages and which one applies |
| StockTable.ValidationOfForm | app.py:473-493 | an accepted form has the title, price, gender and category fields; a form without a price gets "Datos inválidos" |
| StockTable.ImagePaths | app.py:463-470 | at most one path per slot, each under `/static/uploads/` |
| StockTable.CollectImagePaths | app.py:463-470 | the loop over `image1` .. `image4` collects the stored paths of the filled slots, in slot order, at most four |
| StockTable.BadgeIds | app.py:460 | a decoded badge list gives its elements' integers, in order; every list of integers decodes |
| StockTable.BadgeLinks | app.py:532-536 | one `stock_badges` row (new id, badge) per selected badge, in order |
| StockTable.AddStockCases | app.py:451-546 | 401 without the gate; created exactly when the badges decode, the fields validate and nothing fails; 400 with the validation message exactly when the fields do not validate; once the INSERT has run, any answer other than success is a 500 |
| StockTable.NewRowFresh | app.py:501-529 | the inserted row takes a fresh id, so ids stay unique |
| StockTable.GetItemCases | app.py:691-711 | a read answers 404 exactly when no row has the id; otherwise it shows a row with that id, its columns as stored and its images normalised |
| StockTable.FindRowUpdated | app.py:720-736 | after an update by id, the first row with that id is the updated first row |
| StockTable.GetAfterEdit | app.py:716-739 | after a successful PUT on an existing item, reading it back shows exactly the values written |
| StockTable.GetAfterDelete | app.py:744-747 | after a successful DELETE, reading the item answers 404 |
| StockTable.EmptyEditBlanks | app.py:716-739 | a PUT without a usable body blanks every editable column |
| StockTable.AnonymousDeleteSucceeds | app.py:744-747 | as written, a client that never logged in deletes any existing item |
| StockTable.AnonymousEditSucceeds | app.py:716-739 | as written, a client that never logged in rewrites any existing item |
| StockTable.GuardedRefusesAnonymous | app.py:680 | the guarded routes answer 401 and change nothing for a session that has not passed the gate |
| StockTable.GuardedAgreesWhenAuthenticated | app.py:680-756 | for a session past the gate the guarded routes do what the written ones do |
| StockTable.Table.constructor | app.py:116-150 | an empty table whose first SERIAL id is 1 |
| StockTable.Table.RemoveExpiredFeatured | app.py:206-223 | the row-by-row loop leaves the swept table, or the old table on an exception; links and next id are unchanged |
| StockTable.Table.UpdateById | app.py:770-778 | the loop applies the update to exactly the rows with the id |
| StockTable.Table.Index | app.py:277-280 | the home page sweeps before rendering |
| StockTable.Table.AdminPanel | app.py:415-445 | only a session past the gate gets the panel, and only then is the table swept; a failing categories query gives a 500 page and keeps the sweep |
| StockTable.Table.Feature | app.py:762-784 | 401 and no change without the gate; 500 and no change on a database failure; otherwise the featured table |
| StockTable.Table.Unfeature | app.py:787-808 | 401 and no change without the gate; 500 and no change on a database failure; otherwise the unfeatured table |
| StockTable.Table.ItemDetail | app.py:813-920 | sweep, then the item page over the swept table |
| StockTable.Table.AddStock | app.py:451-546 | the answer of the route; the next id advances exactly when the INSERT runs; on success one new row with that id, the collected paths and one link per badge; otherwise rows and links unchanged |
| StockTable.Table.EditItem | app.py:716-739 | the answer and table of the unguarded PUT |
| StockTable.Table.DeleteItem | app.py:744-747 | the answer and table of the unguarded DELETE |
| StockTable.Table.AdminEditItem | app.py:680-739 | the PUT behind the administrator gate |
| StockTable.Table.AdminDeleteItem | app.py:680-747 | the DELETE behind the administrator gate |
| Catalog.NormalizeSizes | static/scripts.js:22-37 | every size is non-blank and trimmed; values other than arrays and strings give no sizes |
| Catalog.NormalizeSizesRoundTrip | static/scripts.js:29-33 | clean sizes sent comma-joined read back as the same list |
| Catalog.NormalizeSizesOfClean | static/scripts.js:24-27 | clean sizes sent as an array come back unchanged |
| Catalog.NormalizeSizesIdempotent | static/scripts.js:22-37 | normalising normalised sizes changes nothing |
| Catalog.NormalizeImages | static/scripts.js:40-71 | every image is truthy |
| Catalog.NormalizeImagesOfString | static/scripts.js:45-64 | a blank string gives nothing; unbracketed or unparsable text gives the trimmed text; a parsed array gives its truthy elements |
| Catalog.FilterTruthyKeeps | static/scripts.js:43 | filtering truthy values keeps a list of truthy values as it is |
| Catalog.NormalizeImagesIdempotent | static/scripts.js:40-71 | normalising normalised images changes nothing |
| Catalog.ToUploadUrl | static/scripts.js:74-88 | the URL is always served; a served name is kept; any other name goes under `/static/uploads/` |
| Catalog.ToUploadUrlIdempotent | static/scripts.js:74-88 | applying it to its own result changes nothing |
| Catalog.StoredPathShownAsIs | static/scripts.js:74-88 | paths stored by the upload route are shown as they are |
| Catalog.UploadUrls | static/scripts.js:109 | one URL per image, in order |
| Catalog.ParseItemShape | static/scripts.js:105-111 | a parsed item keeps id, title and gender; its sizes are clean; one served URL per image |
| Catalog.ParseItems | static/scripts.js:116-128 | one parsed item per fetched item, in order |
| Catalog.KeepIf | static/scripts.js:134-154 | `filter` keeps exactly the elements that pass, in order |
| Catalog.FilteredSpec | static/scripts.js:134-154 | the filtered list holds exactly the items passing both filters, in stock order |
| Catalog.NoFilterListsAll | static/scripts.js:134-154 | with both filters off everything is listed |
| Catalog.PageCount | static/scripts.js:308 | the fewest pages, at least one, that hold the items |
| Catalog.Slice | static/scripts.js:185-189 | `slice` gives the elements from `start`, at most `end - start` of them |
| Catalog.PageItems | static/scripts.js:185-189 | a page holds at most 16 items, those from `(page - 1) * 16` on |
| Catalog.EveryItemOnAPage | static/scripts.js:185-189 | every filtered item is shown on a reachable page at its position |
| Catalog.Clamp | static/scripts.js:307-313 | the page is pulled into 1 .. max and kept when already inside |
| Catalog.CatalogPage.constructor | static/scripts.js:10-15 | empty lists, no filters, page 1 |
| Catalog.CatalogPage.ApplyFilters | static/scripts.js:134-154 | the filtered list follows the filters and the page goes back to 1 |
| Catalog.CatalogPage.LoadStock | static/scripts.js:116-128 | a fetched list replaces the stock, parsed item by item; a failed fetch leaves the page as it was |
| Catalog.CatalogPage.SelectGender | static/scripts.js:509-523 | the gender filter is set and the list refiltered from page 1 |
| Catalog.CatalogPage.Search | static/scripts.js:649-652 | the query is the lower-cased, trimmed text and the list is refiltered from page 1 |
| Catalog.CatalogPage.ChangePage | static/scripts.js:307-313 | the page moves by `delta`, clamped between 1 and the page count |
| Catalog.CatalogPage.VisibleItems | static/scripts.js:185-189 | at most 16 cards, each a stock item passing both filters, in filtered order |
| Catalog.Drop | static/scripts.js:458 | `filter` drops exactly that id |
| Catalog.ToggleFlips | static/scripts.js:454-462 | a click flips the clicked badge and leaves every other badge as it was |
| Catalog.ToggleKeepsDistinct | static/scripts.js:454-462 | the selection never holds a badge twice |
| Catalog.ToggleTwice | static/scripts.js:454-462 | selecting a badge and clicking it again restores the selection |
| Catalog.BadgesPayloadAccepted | static/scripts.js:340 | the back end reads the sent selection as exactly the selected badge ids |
| Catalog.BadgePicker.constructor | static/scripts.js:423 | no badge selected |
| Catalog.BadgePicker.Toggle | static/scripts.js:454-462 | the selection is toggled and stays duplicate-free |
| MiniCart.FindEntry | static/scripts.js:901-903 | `find` gives the first entry with the product's id and size, or none when no entry has them |
| MiniCart.Spliced | static/scripts.js:917 | `splice(index, 1)` removes the entry at the start position, negative counting from the end, and shifts the rest |
| MiniCart.AddedToEffect | static/scripts.js:900-914 | the entry with the product's key gains one and nothing else changes, or one new entry of quantity 1 is appended |
| MiniCart.AddedToKeepsKeysUnique | static/scripts.js:900-914 | adding never creates a second entry for a key |
| MiniCart.AddedToTotal | static/scripts.js:900-914 | adding raises the total by the price of the entry that gained one |
| MiniCart.CartTotalUpdate | static/scripts.js:906 | changing one entry changes the total by the difference of the subtotals |
| MiniCart.SplicedTotal | static/scripts.js:916-920 | removing drops exactly the removed entry's subtotal |
| MiniCart.SplicedKeepsKeysUnique | static/scripts.js:916-920 | removing keeps the keys unique |
| MiniCart.Cart.constructor | static/scripts.js:830 | the saved cart, or an empty one |
| MiniCart.Cart.AddToCart | static/scripts.js:900-914 | the cart after the addition, keys kept unique |
| MiniCart.Cart.RemoveItem | static/scripts.js:916-920 | the spliced cart, keys kept unique |
| MiniCart.Cart.Total | static/scripts.js:858-861 | the loop sums price times quantity over the cart |
| Gallery.SwipeStep | static/scripts.js:747-757 | a swipe shorter than 40 pixels does nothing; a longer one moves at most one step in its direction and stays within the images |
| Gallery.SwipeBackUndoes | static/scripts.js:747-757 | a swipe back undoes a forward swipe that moved |
| Gallery.SwipesForward | static/scripts.js:747-757 | `k` long left swipes move `k` images on, stopping at the last |
| Gallery.IndexOf | static/scripts.js:728 | `indexOf` gives the first position of the value, or -1 when absent |
| Gallery.SwipeGallery.constructor | static/scripts.js:724-729 | starts on the thumbnail showing the main image, or on the first one |
| Gallery.SwipeGallery.TouchStart | static/scripts.js:743-745 | remembers where the finger went down |
| Gallery.SwipeGallery.TouchEnd | static/scripts.js:747-757 | the index moves by the swipe step from the remembered position |
| Gallery.SwipeGallery.Shown | static/scripts.js:733-740 | the image shown is one of the thumbnails |

## Left out

- Rate limiting of the login routes, cookie flags and session lifetime are not modelled.
- The database driver, connection handling and table creation are not modelled. A failure is the `fault` parameter.
- JSON numbers are integers only. A float such as a price of 1500.5 (which `clean_int` would read through `str()`) and JavaScript floating-point arithmetic are not modelled.
- `ensure_default_admin` and the demo context are not modelled.
- Writing uploaded files to disk is not modelled. `secure_filename` is a parameter.
- The source saves the uploaded files before validating the fields, so files stay on disk even when the answer is 400. This effect is not modelled.
- Template rendering, the static pages and the categories and badges listing routes are not modelled.
- `ORDER BY created_at DESC` and `ORDER BY RANDOM()` are not modelled. Rows stay in table order, and the related items are the first four candidates in that order.
- The row mapping of `GET /api/stock` is not modelled. Only its lack of a sweep is stated (`StockTable.ListingShowsStaleFeature`).
- StockTable.BadgeIds: a `badges` field that decodes to JSON other than a list of integers gives a 500 answer. In the source, a string or an object would be iterated character by character or key by key and might insert links.
- StockTable.Table.RemoveExpiredFeatured models the single SQL UPDATE of the sweep as a loop over the rows. The statement's atomicity is not modelled.
- StockTable.Table.UpdateById models the single SQL UPDATE by id as a loop over the rows. The statement's atomicity is not modelled.
- Timestamps are whole seconds, not timestamp values with time zones.
- Helpers.PyIntChars: Python `int()` also accepts non-ASCII Unicode decimal digits. The model accepts ASCII digits only.
- Text.Lower lowers ASCII letters only. JavaScript `toLowerCase` also lowers accented letters.
- AdminAuth.SessionCookie.AdminLogin: password hashing (`check_password_hash`) is an opaque parameter.
- AdminAuth.SessionCookie.AdminTwoFactor: TOTP verification (RFC 6238, one adjacent time step accepted) is an opaque parameter.
- The browser side leaves out the DOM, `fetch`, `localStorage` writes, the CSS transitions and timers of `updateImage`, `toLocaleString` price formatting and the accent-stripping slugs of the category links.
- Touch positions are whole pixels, not fractional `clientX` values.
- Catalog.NormalizeImages: `Object.values` takes object values in field order. The integer-key-first ordering of JavaScript objects is not modelled.
- MiniCart.Cart.AddToCart: cart entries are values, so the in-place `existing.qty += 1` on a shared object is modelled as a sequence update. Aliasing is not captured.
- The service worker (`service-worker.js`) is not part of this model.

## Findings

| source | as written | input that shows it | evidently intended | confidence | as-written member | corrected member |
|---|---|---|---|---|---|---|
| app.py:680-756 | `PUT` and `DELETE` on `/api/stock/<id>` never call `admin_protected()`, although the section heading marks them "solo admin" | a client with an empty session sends `DELETE /api/stock/<id>` for an existing id: the row is deleted and the answer is success | `PUT` and `DELETE` answer 401 and change nothing unless the session passes the gate, as `add_stock`, `feature` and `unfeature` do; this row does not cover `GET` | not executed | StockTable.AnonymousDeleteSucceeds | StockTable.GuardedRefusesAnonymous |
