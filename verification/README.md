# Inventory app: verified model of its rules

The app is a small inventory web application. It has products with a `P…` code, a name, a quantity, an optional description and a category. Categories have a serial id and a name. This project models the sequential rules behind it as pure Dafny functions over immutable values. The PostgreSQL tables become a `Store` value, holding a sequence of categories, the next category serial and a sequence of product rows.

The modelled rules are:

- **Product creation** (`POST /api/productos`). The handler validates the body in a fixed order. It then asks for `MAX(SUBSTRING(id, 2)::integer)` over the `P%` ids, treating no rows as 0, and formats `P` + the next number padded to three digits. It checks that the id is free. If it is taken, it falls back, without a further check, to the number after it. Finally it inserts the row, and the table's primary and foreign keys can make that insert fail.
- **Product listing query** (`GET /api/productos`). This is the SQL text and the placeholder numbering built from three optional filters.
- **Category creation** (`POST /api/categorias`). Blank names are rejected with 400 and exact duplicates with 409. Anything else is inserted with the next serial id. The same file's `GET` orders the categories by name.
- **The client-side category checks** of the add-product form and the product detail panel. Both reject blank names and names that match an existing one ignoring case. A rename exempts the category being renamed.
- **The stock adjustment dialog**: a digits-only input filter, then the empty, non-positive and over-decrement checks, producing a signed change.
- **The page's list logic**: the low-stock tab and its search, the sort toggle and the comparator sort, replacing a product after a quantity change, and the lookup before renaming a category.
- **The product table**: sort indicators, row numbering, the stock badge, and the fixed changes the row buttons send.
- **The add-product form and the product detail panel**: field edits, error clearing, validation, category selection, adding and renaming categories, cancel and save.
- **Small helpers**: the category selector's label, and the Excel export's date stamp, file name and empty-data guard.

JavaScript's string operations are modelled in `JsText`:

- `trim` with the ECMAScript white-space set, and `toLowerCase` on ASCII and Latin-1.
- `includes`, `String(n)`, `padStart` and `Number.parseInt`. `parseInt` is modelled as an optional sign followed by decimal digits, and NaN is `None`.
- The default string order, taken as code-point order. JavaScript compares UTF-16 code units; the difference is listed under "Left out".

PostgreSQL's text-to-`integer` cast is modelled in `PgCast`: optional spaces, a sign, decimal digits, optional trailing spaces, and the 32-bit range.

Two behaviours of the code matter here:

- A product id that is already taken is not reported as a conflict (409). The handler silently takes the next number instead, and only the database's primary key can then refuse the insert. That refusal gives a 500.
- Ids are not unbounded. The id column is `VARCHAR(10)` (scripts/init-db.ts:24), so once P999999999 exists every later POST builds the 11-character id P1000000000 and the insert refuses it (500). Because no stored id can carry a suffix above 999 999 999, the `MAX` query's cast never fails on range in the program. The model does not check column widths, so it accepts such ids; see "Left out".

## Model

| member | source | states |
|---|---|---|
| ProductosRoute.Validate | app/api/productos/route.ts:57-76 | name, then quantity, then category: each message is returned exactly when its check fails and the earlier ones pass (a 0 category id counts as missing); no message iff all pass |
| ProductosRoute.Insert | app/api/productos/route.ts:129-153 | the insert succeeds iff the id is new, the quantity fits INT4 and the category exists; then exactly that row is appended and returned with its category's name; otherwise 500 and the store is unchanged |
| ProductosRoute.CreateProduct | app/api/productos/route.ts:52-160 | an invalid body gives its 400 and leaves the store alone; any failure leaves the store unchanged; success keeps every earlier row and appends exactly the request's nombre, cantidad, descripcion and categoria_id |
| ProductosRoute.CreateSucceedsIff | app/api/productos/route.ts:80-96 | a valid request over one snapshot succeeds iff every P-id suffix casts, the quantity fits INT4 and the category exists; the new id is P + (maximum + 1), never the fallback |
| ProductosRoute.CreateKeepsKeys | app/api/productos/route.ts:80-153 | a POST keeps product ids pairwise distinct and every row's category existing |
| ProductosRoute.CreatedIdAboveExisting | app/api/productos/route.ts:80-89 | the created id's suffix is strictly greater than every existing P-id suffix |
| ProductosRoute.CreateAll | app/api/productos/route.ts:52-153 | serial POSTs give one response each, never touch the categories, and only append to the product table |
| ProductosRoute.CreateAllKeepsKeys | app/api/productos/route.ts:80-153 | after any sequence of POSTs, ids are still pairwise distinct and every category reference resolves |
| ProductosRoute.Bind | app/api/productos/route.ts:22-32 | appending a filter binds one more value, at the index its placeholder names, and keeps the numbering consistent |
| ProductosRoute.Build | app/api/productos/route.ts:19-36 | the builder's placeholders always number the bound values consecutively |
| ProductosRoute.BuildShape | app/api/productos/route.ts:19-38 | one bound value per given filter; the category uses $1; the search uses $2 after a category and $1 otherwise, bound to "%"+term+"%"; the low-stock clause appears iff stockBajo is exactly "true"; the text ends with ORDER BY p.id |
| ProductosRoute.Sql | app/api/productos/route.ts:12-38 | the query text starts with the fixed SELECT and ends with ORDER BY p.id; BuildShape and PlaceholdersBind state the conditions between |
| ProductosRoute.PlaceholdersBind | app/api/productos/route.ts:19-38 | every placeholder in the built query has a bound value of its own |
| ProductIds.FormatIdShape | app/api/productos/route.ts:89 | the id is "P" then digits, of length 1+max(3, digits of n), ending in the decimal of n with only zeros before it: never truncated |
| ProductIds.SuffixRoundTrip | app/api/productos/route.ts:81-89 | for 0 ≤ n ≤ 2^31-1, casting the formatted id's text from index 2 gives back n |
| ProductIds.FormatIdInjective | app/api/productos/route.ts:89 | different numbers give different ids |
| ProductIds.FormatIdSuffixCast | app/api/productos/route.ts:81-89 | for any integer, the formatted id's suffix casts back to that integer or not at all |
| ProductIds.SuffixOfFormatId | app/api/productos/route.ts:81-89 | the suffix cast of a formatted id is the cast of String(n) padded to three |
| ProductIds.NegativeIdCast | app/api/productos/route.ts:81-89 | a negative number's padded text casts back to it or fails |
| ProductIds.NegativeTextCast | app/api/productos/route.ts:81-89 | as above, for the text "-" + digits of a negative number |
| ProductIds.PaddedNegative | app/api/productos/route.ts:81-89 | "-" and digits padded to three casts to minus their value or fails |
| ProductIds.MaxCast | app/api/productos/route.ts:80-84 | the MAX over the `LIKE 'P%'` rows: fails iff some suffix does not cast; is NULL iff there is no P id; otherwise bounds every cast suffix and is one of them |
| ProductIds.MaxSuffixAppend | app/api/productos/route.ts:80-89 | appending an id above the current maximum makes it the new maximum |
| ProductIds.MaxCastAppend | app/api/productos/route.ts:80-84 | the same for any cast: a P id whose value exceeds the maximum becomes it |
| ProductIds.Allocate | app/api/productos/route.ts:80-98 | allocation fails iff the MAX query fails; the fallback is taken iff P + (max+1) is in the checked snapshot; the id is P + (max+1), or P + (max+2) on the fallback, and only the first is known to be absent from the checked snapshot |
| ProductIds.FormatId | app/api/productos/route.ts:89 | an id is "P" followed by at least three characters; FormatIdShape, FormatIdInjective and SuffixRoundTrip state that they are the padded decimal, that distinct numbers give distinct ids, and that the cast reads the number back |
| ProductIds.Suffix | app/api/productos/route.ts:81 | a suffix that casts lies in the 32-bit range; SuffixRoundTrip and FormatIdSuffixCast state that it inverts FormatId |
| ProductIds.MaxSuffix | app/api/productos/route.ts:80-87 | the MAX query fails iff some P-id's suffix does not cast, and returns NULL iff no id starts with P; MaxSuffixAppend states how appending an id moves the maximum |
| ProductIds.AllocateSingleSnapshot | app/api/productos/route.ts:80-96 | when both queries read the same table the candidate is free, so the fallback branch is never taken |
| ProductIds.AllocatedAboveExisting | app/api/productos/route.ts:80-89 | the new id's suffix reads back as the next number, which lies above every existing P-id suffix |
| ProductIds.FormatIdOneDigit | app/api/productos/route.ts:89 | a one-digit number n gives P00n |
| ProductIds.FirstIdIsP001 | app/api/productos/route.ts:87-89 | with no P ids (MAX is NULL, read as 0) the first id is P001 |
| ProductIds.Run | scripts/init-db.ts:47-56 | the ids P001 … Pk in order |
| ProductIds.MaxSuffixRun | app/api/productos/route.ts:80-87 | over P001 … Pk the maximum is k |
| ProductIds.SeedIdsAreRun | scripts/init-db.ts:47-56 | the seeded ids are exactly P001 … P008 |
| ProductIds.RunNext | app/api/productos/route.ts:80-96 | after P001 … Pk the next id is P(k+1), without the fallback |
| ProductIds.SeededStoreNextIsP009 | app/api/productos/route.ts:80-96 | on the seeded table the next product is P009 |
| ProductIds.FallbackIsUnchecked | app/api/productos/route.ts:96-112 | when the checked table has moved on, the fallback id max+2 is used even though it is already taken |
| PgCast.PgInt4 | app/api/productos/route.ts:81 | a value the cast returns lies in the 32-bit range; PgInt4OfDigits, NoCastAboveRange and NegativeCast state which texts cast to what |
| PgCast.CastMagnitudeOfDigits | app/api/productos/route.ts:81 | a digit string's magnitude is its decimal value |
| PgCast.PgInt4OfDigits | app/api/productos/route.ts:81 | a digit string within INT4 casts to its value |
| PgCast.NoCastAboveRange | app/api/productos/route.ts:81 | a digit string beyond INT4 does not cast |
| PgCast.MinusKept | app/api/productos/route.ts:81 | a leading minus is not skipped as space |
| PgCast.NegativeCastOf | app/api/productos/route.ts:81 | "-" + digits casts to minus their magnitude or fails |
| PgCast.NegativeCast | app/api/productos/route.ts:81 | the same for a digit string of known value |
| PgCast.PaddedNegativeCast | app/api/productos/route.ts:81-89 | padding "-d" gives "0-d", which does not cast |
| CategoriasRoute.RowsNamed | app/api/categorias/route.ts:47-50 | the exact-name query returns exactly the categories with that name |
| CategoriasRoute.CreateCategory | app/api/categorias/route.ts:36-75 | 400 iff the name is missing or blank; 409 iff not blank and some category has exactly that name; 201 otherwise, appending Category(next serial, name as given) and nothing else; the store is unchanged on failure |
| CategoriasRoute.CreateKeepsUnique | app/api/categorias/route.ts:47-68 | unique names and serial ids stay so after any POST |
| CategoriasRoute.CaseVariantIsNew | app/api/categorias/route.ts:47-50 | with "Oficina" present, "oficina" is created |
| CategoriasRoute.SpacedNameIsNew | app/api/categorias/route.ts:63-68 | the name is stored untrimmed: " Oficina " is a new category |
| CategoriasRoute.CompareNombreAntisymmetric | app/api/categorias/route.ts:19 | the name comparison is a total preorder: swapping the arguments turns a positive answer negative and a negative one positive, and "not after" is transitive |
| CategoriasRoute.NotAfterTransitive | app/api/categorias/route.ts:19 | if a is not after b and b is not after c in name order, then a is not after c |
| CategoriasRoute.NotAfterEverywhere | app/api/categorias/route.ts:19 | a sequence whose neighbours are in name order is in name order between any two positions |
| CategoriasRoute.ListCategories | app/api/categorias/route.ts:19 | the listing is a permutation of the table, and no category is listed after one whose name is greater, at any distance |
| CategoriasRoute.ListStrictlyIncreasing | app/api/categorias/route.ts:19 | with unique names the listing is strictly increasing by name |
| CategoriasRoute.PermutationDistinct | app/api/categorias/route.ts:19 | a permutation of distinct categories holds no element twice |
| CategoriasRoute.RepeatedCount | app/api/categorias/route.ts:19 | an element at two positions occurs at least twice |
| CategoriasRoute.UniqueCount | app/api/categorias/route.ts:19 | with unique names every category occurs at most once |
| CategoryRules.Find | components/add-product-form.tsx:93-95 | find returns a member satisfying the test, and None iff none does |
| CategoryRules.CheckNew | components/add-product-form.tsx:87-100 | the blank message iff blank; the duplicate message iff not blank and some name equals it ignoring case; accepted otherwise |
| CategoryRules.CheckRename | components/product-detail.tsx:95-108 | the blank message iff blank; the duplicate message iff some other-named category equals it ignoring case; accepted otherwise |
| CategoryRules.ClientCheckImpliesServerAccepts | app/api/categorias/route.ts:39-68 | a name the client accepts is always created by the server |
| CategoryRules.CaseVariantRefusedByClient | components/add-product-form.tsx:93-100 | "oficina" next to "Oficina": the client refuses it, the server would create it |
| CategoryRules.ClientAddKeepsUniqueIgnoringCase | components/add-product-form.tsx:87-111 | adding through the client keeps names unique ignoring case |
| CategoryRules.RenameToCaseVariantAllowed | components/product-detail.tsx:101-103 | renaming a category to a non-blank case variant of its own name (itself included) is allowed when no other category's name equals the original ignoring case |
| CategoryRules.RenameIsCheckNewWithoutOriginal | components/product-detail.tsx:95-108 | the rename check is the add check over the categories not named like the original |
| CategoryRules.Without | components/product-detail.tsx:101-103 | the categories kept are exactly those not named the original |
| StockModal.OnOpenChange | components/stock-adjustment-modal.tsx:34-39 | opening resets the text to "1" and clears the error |
| StockModal.HandleChange | components/stock-adjustment-modal.tsx:41-49 | an edit is taken (error cleared) iff it is empty or digits only; otherwise nothing changes; the field only ever holds such text |
| StockModal.HandleConfirm | components/stock-adjustment-modal.tsx:51-78 | a rejection keeps the text and shows an error; blank text gives the required message; a confirmed change is positive for an increase and negative, never below zero stock, for a decrease |
| StockModal.CheckAmount | components/stock-adjustment-modal.tsx:58-74 | after parsing: rejections keep the text; the signed change never overdraws the stock |
| StockModal.ConfirmOfDigits | components/stock-adjustment-modal.tsx:51-78 | for digit text: confirmed iff the value is positive and, for a decrease, at most the stock; the change is ± that value; 0 gives the positive-number error and too many the over-decrement message |
| StockModal.DigitsParse | components/stock-adjustment-modal.tsx:53-58 | digit text is not blank and parses to its value |
| StockModal.ConfirmOfNumber | components/stock-adjustment-modal.tsx:58-74 | for any parsed value v: confirmed iff v > 0 and a decrease does not exceed the stock; the change is ±v |
| StockModal.EmptyIsRequired | components/stock-adjustment-modal.tsx:53-56 | an emptied field asks for a quantity |
| StockModal.ZerosAreNotPositive | components/stock-adjustment-modal.tsx:41-64 | "000" passes the filter and is refused as not positive |
| StockModal.DecreaseNeverOverdraws | components/stock-adjustment-modal.tsx:66-74 | a confirmed decrease of a non-negative stock leaves it non-negative and smaller |
| InventoryPage.Filter | app/page.tsx:142-144 | filter keeps exactly the elements that pass, and never lengthens the list |
| InventoryPage.FilterConcat | app/page.tsx:142-144 | filtering a concatenation filters each part in order, so the relative order is kept |
| InventoryPage.FilterAll | app/page.tsx:142-144 | a list all of whose elements pass is returned whole |
| InventoryPage.LowStockProducts | app/page.tsx:21-144 | the low-stock tab holds exactly the products with at most 10 units |
| InventoryPage.LowStockSearch | app/page.tsx:452-457 | a product is shown iff it is low on stock and the lower-cased term occurs in its lower-cased name, id or category |
| InventoryPage.EmptySearchKeepsAll | app/page.tsx:452-457 | an empty search keeps the whole low-stock list |
| InventoryPage.RequestSort | app/page.tsx:319-325 | the clicked key becomes the key; descending iff it already was the key, ascending |
| InventoryPage.RequestSortAlternates | app/page.tsx:319-325 | further clicks on one key alternate the direction with period two |
| InventoryPage.ThreeClicks | app/page.tsx:319-325 | three clicks on a new key give ascending, descending, ascending |
| InventoryPage.KeyLessAsymmetric | app/page.tsx:150-158 | the per-key order is asymmetric |
| InventoryPage.CompareAntisymmetric | app/page.tsx:150-158 | for either sort direction, swapping the rows turns a positive answer negative and a negative answer positive |
| InventoryPage.Compare | app/page.tsx:150-158 | the comparator returns -1, 0 or 1, and 0 exactly for rows whose keys tie; CompareAntisymmetric states that swapping the rows turns -1 into 1 and 1 into -1 |
| InventoryPage.SortedProducts | app/page.tsx:147-161 | the sorted list is a permutation; no key keeps the order; ascending is non-decreasing and descending non-increasing on the key |
| InventoryPage.ReplaceById | app/page.tsx:210 | the list keeps its length; products with the id become the response and all others are untouched |
| InventoryPage.ReplaceKeepsIds | app/page.tsx:210 | when the response carries the same id, the list of ids is unchanged |
| InventoryPage.ReplaceChangesOne | app/page.tsx:210 | with unique ids, exactly one position changes |
| InventoryPage.EditCategory | app/page.tsx:288-316 | no request iff no category has exactly the old name; otherwise a PUT to the first such category's id with the new name |
| ProductList.SortIndicator | components/product-list.tsx:20-32 | " ↑" iff the column is the key and ascending, " ↓" iff it is the key and descending, none otherwise |
| ProductList.IndicatorFollowsRequestSort | components/product-list.tsx:20-32 | after a click only the clicked column shows an arrow, in the new direction |
| ProductList.NoIndicatorInitially | components/product-list.tsx:20-32 | before any click no column shows an arrow |
| ProductList.Rows | components/product-list.tsx:66-84 | an empty list renders the single "No se encontraron productos" row; otherwise row i shows product i numbered i+1 |
| ProductList.SortDirection | components/product-list.tsx:20-25 | a column has a direction iff it is the configured key, and then it is the configured direction |
| ProductList.BadgeOf | components/product-list.tsx:95-97 | the badge is red iff the product is low on stock, green iff it has more than 10 |
| ProductList.LowStockRowsAreRed | components/product-list.tsx:95-97 | every product of the low-stock tab wears the red badge |
| ProductList.Delta | components/product-list.tsx:109-126 | plus adds one; minus takes one and, when enabled, never goes below zero; the bin brings the stock to zero |
| ProductList.Disabled | components/product-list.tsx:117-118 | only the minus button is ever disabled, and it is enabled iff the stock is positive |
| AddProductForm.Initial | components/add-product-form.tsx:35-40 | the category starts as the first category's id, and is absent iff there are none |
| AddProductForm.QuantityOfNumber | components/add-product-form.tsx:51-56 | typing a number's text stores that number |
| AddProductForm.QuantityOfWords | components/add-product-form.tsx:51-56 | "abc" stores 0 and "12abc" stores 12 |
| AddProductForm.QuantityOfLetters | components/add-product-form.tsx:51-56 | text that does not start with a sign or digit stores 0 |
| AddProductForm.QuantityOfDigitsThen | components/add-product-form.tsx:55 | for any digits followed by a non-digit or by nothing, the quantity stored is the value of the digits: parsing stops at the first non-digit |
| AddProductForm.QuantityOf | components/add-product-form.tsx:55 | `parseInt(value) \|\| 0`: text that does not parse gives 0, and a non-zero quantity is exactly what parseInt read |
| AddProductForm.Payload | app/page.tsx:164-171 | the form's fields arrive under the API's names, so the name and description are never missing from the body; ClientMatchesServer states that the API's validation agrees with the form's |
| AddProductForm.HandleChange | components/add-product-form.tsx:51-65 | the edited field takes the value (quantity parsed, 0 on NaN); that field's error is cleared and the others are untouched |
| AddProductForm.HandleCategoryChange | components/add-product-form.tsx:68-84 | "nueva" opens the add dialog and changes nothing else; any other value selects that id, clears only the category error, and leaves the add dialog, its text and its message unchanged |
| AddProductForm.HandleAddCategory | components/add-product-form.tsx:87-112 | the request is made iff the add check passes; a refusal only sets the message; a created category becomes the form's and the dialog closes |
| AddProductForm.AddCategoryAdoptsCreated | components/add-product-form.tsx:102-111 | against the server, an accepted name yields the category with the next serial id, which the form then holds |
| AddProductForm.ValidateForm | components/add-product-form.tsx:115-132 | a name error iff blank, a quantity error iff negative, a category error iff missing or 0, independently |
| AddProductForm.HandleSubmit | components/add-product-form.tsx:135-141 | the errors are refreshed, and the form is handed on iff there are none, unchanged |
| AddProductForm.ClientMatchesServer | app/page.tsx:164-171 | the form submits iff the server's validation passes, and the server's message is the form's first error |
| AddProductForm.InitialNeedsOnlyName | components/add-product-form.tsx:35-40 | a fresh form over a non-empty category list lacks only the name |
| ProductDetail.Projection | components/product-detail.tsx:25-32 | the editable copy holds the product's fields, with a missing description as "" |
| ProductDetail.HandleChange | components/product-detail.tsx:43-49 | only the edited field changes; the quantity is parsed with 0 for NaN |
| ProductDetail.HandleCancel | components/product-detail.tsx:120-130 | cancelling ends editing and restores the product's projection; nothing else in the panel changes |
| ProductDetail.CancelRestores | components/product-detail.tsx:25-129 | whatever was typed, cancelling gives back exactly the copy the panel opened with |
| ProductDetail.TypeAll | components/product-detail.tsx:43-49 | edits to the text fields never change the product's id |
| ProductDetail.NameOfIdText | components/product-detail.tsx:58 | the first category whose id reads as the value gives its name; no match gives "" |
| ProductDetail.HandleCategoryChange | components/product-detail.tsx:51-65 | "nueva" opens the add dialog; "editar" opens the rename dialog with original = new = the product's category; any other value sets the id and the looked-up name |
| ProductDetail.SelectListedCategory | components/product-detail.tsx:51-65 | with unique ids, selecting a listed category by its id text picks exactly its id and name |
| ProductDetail.HandleAddCategory | components/product-detail.tsx:68-92 | the same add check as the form; a refusal only sets the message; a failed request changes nothing; a created category's id and name become the product's, the add dialog closes and is cleared, and nothing else changes |
| ProductDetail.HandleEditCategory | components/product-detail.tsx:95-113 | the rename is sent iff the rename check passes, carrying the dialog's original and new names; then only the rename dialog closes and the message clears; otherwise only the message is set |
| ProductDetail.UnchangedRenameIsSent | components/product-detail.tsx:55-113 | opening the rename dialog and confirming it unchanged sends the rename, when no other name differs only in case |
| ProductDetail.HandleSave | components/product-detail.tsx:115-118 | saving hands the edited copy on and ends editing, changing nothing else |
| ProductDetail.StatusLabel | components/product-detail.tsx:248-251 | "Stock Bajo" iff low on stock, "En Stock" iff not |
| ProductDetail.StatusMatchesBadge | components/product-detail.tsx:248-251 | the status line agrees with the table's badge |
| CategorySelector.SelectedCategoryName | components/category-selector.tsx:24-30 | "todas" shows "Todas las categorías"; otherwise the first category whose id reads as the selection gives its name; no match gives "Filtrar por categoría" |
| CategorySelector.FirstWithIdText | components/category-selector.tsx:26-28 | none iff no id reads as the text; otherwise the first that does |
| CategorySelector.SelectingShowsName | components/category-selector.tsx:24-30 | with unique ids, selecting a category shows its name |
| CategorySelector.IntToStringInjective | components/category-selector.tsx:26-28 | different ids have different texts |
| ExcelExport.Pad2 | lib/excel-export.ts:47-50 | the padded field is at least two digits and reads back as the number |
| ExcelExport.Pad2Digits | lib/excel-export.ts:47-50 | below 100 it is exactly two digits |
| ExcelExport.YearDigits | lib/excel-export.ts:46-52 | a four-digit year is four digits reading back as the year |
| ExcelExport.FormatDate | lib/excel-export.ts:45-53 | the stamp starts with the year's decimal and has at least nine more characters; FormatDateLayout states where each field sits |
| ExcelExport.FormatDateLayout | lib/excel-export.ts:45-53 | for a four-digit year the stamp is 13 characters with '-' at index 8, and year, month+1, day, hours and minutes read back from their places |
| ExcelExport.ExportFileName | lib/excel-export.ts:6-37 | the name always ends in ".xlsx" and, without a base, starts with "export-"; FileNameLayout states that each part reads back |
| ExcelExport.FileNameLayout | lib/excel-export.ts:6-37 | the base, the dash, the stamp and the extension can each be read back from the name |
| ExcelExport.ExportToExcel | lib/excel-export.ts:6-37 | nothing is exported iff the data is missing or empty; otherwise one "Productos" sheet of the rows, with the six column widths, under the dated name |
| JsText.Trim | app/api/productos/route.ts:57 | the trimmed text is no longer than the input and does not end in white space; TrimEmptyIffBlank states when it is empty |
| JsText.TrimEmptyIffBlank | app/api/productos/route.ts:57 | trim gives "" iff every character is white space |
| JsText.ToLower | app/page.tsx:454-456 | lower-casing keeps the length |
| JsText.ToLowerIdempotent | app/page.tsx:454-456 | lower-casing twice is lower-casing once |
| JsText.Includes | app/page.tsx:454-456 | a match needs the term to fit, and the empty term always matches; IncludesIffOccurs states that it holds iff the term occurs |
| JsText.IncludesIffOccurs | app/page.tsx:454-456 | includes holds iff the term occurs at some position |
| JsText.IncludesEmpty | app/page.tsx:452-457 | every text includes "" |
| JsText.DecimalDigits | app/api/productos/route.ts:89 | String(n) of a natural is digits, without a leading zero unless n is 0, reading back as n |
| JsText.IntToString | app/api/productos/route.ts:89 | `String(n)` is never empty and starts with "-" iff n is negative; ParseIntOfString states that parseInt reads it back |
| JsText.PadStart | app/api/productos/route.ts:89 | `padStart`: the length is the larger of the width and the text's length |
| JsText.PadStartParts | app/api/productos/route.ts:89 | padStart ends with the original text and puts only the pad before it |
| JsText.PaddedDecimalValue | app/api/productos/route.ts:89 | zero-padding a decimal keeps it digits with the same value |
| JsText.ParseIntDigits | components/stock-adjustment-modal.tsx:58 | parseInt of digits is their value |
| JsText.ParseInt | components/add-product-form.tsx:55 | text starting with a digit always parses, to a non-negative number; ParseIntDigits, ParseIntOfPrefix and ParseIntOfString state the value |
| JsText.ParseIntOfPrefix | components/add-product-form.tsx:55 | text starting with a digit parses to the value of its leading digits |
| JsText.DigitPrefixThen | components/add-product-form.tsx:55 | the leading digits of digits followed by a non-digit are exactly those digits |
| JsText.ParseIntOfString | components/add-product-form.tsx:55 | parseInt(String(n)) is n for every integer |
| JsText.StrLessAsymmetric | app/api/categorias/route.ts:19 | the string order is asymmetric |
| JsText.StrLessTotal | app/api/categorias/route.ts:19 | any two different strings are ordered one way |
| JsText.StrLessTransitive | app/api/categorias/route.ts:19 | the string order is transitive |
| Sorting.Insert | app/page.tsx:147-161 | inserting into a sorted list keeps it sorted and adds exactly that element |
| Sorting.Sort | app/page.tsx:147-161 | the result is sorted by the comparator and a permutation of the input |
| Types.CategoryById | scripts/init-db.ts:28 | the category a foreign key points to, none iff no category has that id |

## Left out

- The quantity adjustment route (`/api/productos/[id]/cantidad`) is not part of this model. Only the client-side guards in front of it are modelled, so its clamp to zero is not.
- Concurrency: each request reads one snapshot. Races between two requests are shown only by `ProductIds.FallbackIsUnchecked`, which gives the two queries of one request different snapshots.
- Executing the GET query (ILIKE matching, the join, the result rows) is left to the database. Only the SQL text and the bound values are modelled.
- `VARCHAR` widths are not modelled: the product id is `VARCHAR(10)`, the product name `VARCHAR(200)` and the category name `VARCHAR(100)` (scripts/init-db.ts:16-25). A longer value makes the insert fail with a 500. So these success claims hold only in the model:
  - `ProductosRoute.Insert` and `ProductosRoute.CreateSucceedsIff` also succeed for ids over 10 characters and names over 200. In the program creation stops for good after P999999999.
  - `CategoriasRoute.CreateCategory`'s 201, `CategoryRules.ClientCheckImpliesServerAccepts` and `AddProductForm.AddCategoryAdoptsCreated` also hold for category names over 100 characters, which the program's insert refuses with a 500 (app/api/categorias/route.ts:63-78).
- `ORDER BY nombre` follows the database's collation. The model orders by code point instead.
- JsText.StrLess: compares by code point, while JavaScript's `<` compares UTF-16 code units. The two orders differ only between characters above U+FFFF and characters in U+E000–U+FFFF. For example, the page sorts "😀" before "Ａ" and the model sorts them the other way round. This affects `InventoryPage.SortedProducts` and `CategoriasRoute.ListCategories`.
- `toLowerCase` is modelled for ASCII and Latin-1 letters only. Other scripts are compared unchanged.
- `Number.parseInt` is modelled as an optional sign and decimal digits after white space. Precision loss beyond 2^53, hexadecimal and fractional JSON numbers are not modelled. Request bodies are typed: JavaScript's loose comparisons of strings with numbers are not modelled.
- PostgreSQL's cast accepts forms that never arise from these ids (`0x…`, `_` separators). They are not modelled.
- `Date`, the XLSX library, `fetch`, toasts, animation and rendering are left out. The date fields are parameters of `ExcelExport.FormatDate`.
- The statistics, diagnostics and test-database routes, database pooling and the DDL are left out. The seed ids and the key constraints enter only as `ProductIds.SeedIds` and as the checks in `ProductosRoute.Insert`.
- ProductosRoute.CreatedIdAboveExisting: stated only when the next number lies between 0 and 2^31-1 (`requires 0 <= NextNumber(…) <= Int4Max`). The INT4 bound is a limit of the model, whose ids have no width. In the program the 10-character id column stops creation at P999999999, well inside that range. A negative next number cannot arise from ids the handler writes, but the model's arbitrary stores allow it, and the lemma excludes it.
- ProductIds.SuffixRoundTrip: stated for 0 ≤ n ≤ 2^31-1 only. `ProductIds.FormatIdSuffixCast` covers every other integer with the weaker "casts back to n or fails".
- ExcelExport.FormatDateLayout: the 13-character layout is stated for four-digit years only. Other years change its length.
- Sorting.Sort: `Array.prototype.sort` keeps elements that compare equal in their input order. Insertion places each element before the equal ones after it, but no contract states that order.
- InventoryPage.Filter: its contract states membership and length, not the order. The order is stated by `InventoryPage.FilterConcat`.
