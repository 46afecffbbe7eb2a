# Invoice tracker: a verified model of its computations

The invoice tracker is a Next.js application. It extracts vendor, total and line items from uploaded invoice images, stores them in Firestore, and shows spend analytics. Most of it is React and Firebase glue. This project models, in Dafny, the parts that compute something, and proves what they compute:

- **Analytics** (`ExpenseAnalytics`):
  - `calculateStats` reduces the date-ascending invoices to a global total and a per-vendor record. Each entry of the record holds totalSpent, invoiceCount, averageInvoice and the top-3 mostPurchasedItems.
  - `getChartData` buckets the amounts by month label.
  - The doughnut data and the "Vendor Analysis" table are read from the record.
- **Explorer** (`InvoiceExplorer`): the duplicate-free vendor list and the `filteredInvoices` predicate. The predicate combines a vendor selection with a case-insensitive substring search.
- **Uploader** (`InvoiceUploader`): the editable draft as a state machine. Its state is the file, the processing flag, the draft, the uploader's visibility, the `addDoc` calls not yet settled and the records written. A click on confirm starts a write, which settles in a later event. The draft total is recomputed from the items.
- **UploadRoute** (`/api/upload-invoice`):
  - the file guards and the image-only OCR branch;
  - the stored file name;
  - `parseInvoiceText`.
- **ParseRoute** (`/api/parse-invoice`): the method and file guards, and the "Company Name" / "Total Amount" extraction.
- **Insights** (`ExpenseInsights`): the "Latest Purchase" and "Monthly Change" cards.

Supporting modules model the JavaScript the code relies on:

- **Collections**:
  - an insertion-ordered `Map` as a list of buckets;
  - `new Set` as first-appearance deduplication;
  - a stable descending sort;
  - `Array.prototype.filter`.
- **Text**: `\s`, `\d`, ASCII `toLowerCase`, `includes`, `split`, `${n}` and `parseFloat`.
- **Patterns**: the three regular-expression shapes the extractors use. Each is given as a declarative set of parses. A deterministic matcher is proved to return the parse a backtracking engine reports: the leftmost start, then greedy preference.

Amounts are exact reals. A JavaScript number that may be NaN or infinite is a `JsNumber`. I/O outcomes (form parsing, storage, OCR, the vision model, the Firestore write, the clock) are parameters. `date-fns` month labels are a function parameter `monthOf`.

## Model

| member | source | states |
|---|---|---|
| `Analytics.CalculateStats` | src/components/ExpenseAnalytics.tsx:83-86 | The global total is the left-to-right sum of every invoice's total_amount. |
| `Analytics.CalculateStatsVendor` | src/components/ExpenseAnalytics.tsx:85-118 | The record has an entry for v exactly when some invoice has vendor v, by exact string equality. That entry: counts v's invoices (at least one); sums their amounts; has average totalSpent / invoiceCount; ranks the items of v's last invoice. |
| `Analytics.WithAveragesAt` | src/components/ExpenseAnalytics.tsx:116-118 | The averaging pass keeps every key and every other field. The average times the count gives back totalSpent. |
| `Analytics.StatsPartition` | src/components/ExpenseAnalytics.tsx:81-122 | The distinct vendors list each key once. Over them the invoice counts add up to the number of invoices, and the amounts spent add up to the global total. |
| `Analytics.UniqueVendorCount` | src/components/ExpenseAnalytics.tsx:192 | The "Unique Vendors" card is the number of distinct vendor strings. |
| `Analytics.TopItemsSpec` | src/components/ExpenseAnalytics.tsx:102-112 | The ranking has min(3, number of distinct descriptions) entries, by non-increasing summed quantity. Its descriptions are distinct, and each carries its summed quantity. Any description left out sums to no more than the third entry. |
| `Analytics.TopItemsTies` | src/components/ExpenseAnalytics.tsx:109-112 | Entries with equal quantities keep the order in which their descriptions first occur in the invoice. |
| `Analytics.MostPurchasedFromLastInvoice` | src/components/ExpenseAnalytics.tsx:108-112 | A vendor's mostPurchasedItems is the ranking of its last invoice alone. Earlier invoices of that vendor do not matter. |
| `Analytics.LastInvoiceOverrides` | src/components/ExpenseAnalytics.tsx:109 | Take two invoices of one vendor, the later one without items. The record shows an empty ranking although the earlier invoice had items. |
| `Analytics.AverageInvoice` | src/components/ExpenseAnalytics.tsx:183 | The "Average Invoice" card is NaN exactly for no invoices. Otherwise it times the count gives back the total. |
| `Analytics.ChartData` | src/components/ExpenseAnalytics.tsx:124-142 | Labels are the distinct month labels. Each datum is the sum of the amounts with that label. |
| `Analytics.ChartDataSpec` | src/components/ExpenseAnalytics.tsx:125-137 | Labels are distinct, are exactly the months that occur, and come in first-appearance order. The data add up to the global total. |
| `Analytics.VendorChartSpec` | src/components/ExpenseAnalytics.tsx:144-157 | The doughnut has one label per key of the record, and each datum is that vendor's totalSpent. The slices add up to the global total. |
| `Analytics.VendorTableSpec` | src/components/ExpenseAnalytics.tsx:245-252 | The table lists every vendor of the record exactly once, by non-increasing totalSpent. Each row carries the totalSpent of its vendor. |
| `Analytics.VendorTableTies` | src/components/ExpenseAnalytics.tsx:245-246 | Vendors with equal amounts spent keep the order in which they first occur among the invoices. |
| `Analytics.AsWrittenAgrees` | src/components/ExpenseAnalytics.tsx:88-99 | The as-written update creates an entry only when `!stats[vendor]`. When no vendor is named like an `Object.prototype` property, it gives the same record as the model. |
| `Analytics.FoldPolluted` | src/components/ExpenseAnalytics.tsx:98-112 | As written, `Object.prototype` gains the `mostPurchasedItems` array exactly when some invoice is from vendor "__proto__". |
| `Analytics.PollutionDropsName` | src/components/ExpenseAnalytics.tsx:88-112 | After a "__proto__" invoice, an invoice from a vendor "mostPurchasedItems" without an entry leaves the record as it was. |
| `Analytics.ProtoVendorPollutes` | src/components/ExpenseAnalytics.tsx:88-112 | Take invoices from "__proto__" and then "mostPurchasedItems". As written, the record lists neither vendor. The model lists both. |
| `Analytics.InheritedVendorDropped` | src/components/ExpenseAnalytics.tsx:88 | Take one invoice from vendor "constructor". As written, the record is empty while the total counts the invoice. The model lists the vendor with its amount. |
| `Collections.Tally` | src/components/ExpenseAnalytics.tsx:102-106 | The loop of `Map.get(k)` (0 when absent) then `set` gives one bucket per distinct key, in first-appearance order. Each bucket holds its key's sum, and the overall total is kept. |
| `Collections.SortDescending` | src/components/ExpenseAnalytics.tsx:111 | `sort((a, b) => b.quantity - a.quantity)` yields a non-increasing permutation. It keeps the relative order of each group of equal amounts, since the sort is stable. |
| `Collections.SortDescendingStable` | src/components/ExpenseAnalytics.tsx:109-111 | Two sorted entries with equal amounts appear in their input order. |
| `Collections.RankingPrefix` | src/components/ExpenseAnalytics.tsx:112 | The first m entries of a sorted per-key tally have distinct keys, each with its sum. Every key left out sums to no more than the last kept entry. |
| `Collections.DistinctFirstAppearance` | src/components/InvoiceExplorer.tsx:42 | `Array.from(new Set(xs))` lists distinct elements in order of first appearance. |
| `Collections.SelectIndices` | src/components/InvoiceExplorer.tsx:53 | `filter` keeps an increasing subsequence: a position is kept exactly when its element passes the test. |
| `Explorer.UniqueVendorsSpec` | src/components/InvoiceExplorer.tsx:42 | The vendor list has no duplicates and names exactly the vendors of the invoices, in first-appearance order. |
| `Explorer.FilterIndices` | src/components/InvoiceExplorer.tsx:53-58 | The filtered list is an order-preserving subsequence of the invoices. A position is kept exactly when its invoice passes both the vendor and the search test. |
| `Explorer.FilterKeptIff` | src/components/InvoiceExplorer.tsx:53-57 | An invoice is listed iff it is fetched, its vendor is selected ("all" or equal), and the lower-cased term occurs in the lower-cased vendor or in some lower-cased item description. |
| `Explorer.FilterKeepsAll` | src/components/InvoiceExplorer.tsx:54-56 | With every vendor selected and an empty search term, every invoice is listed. |
| `Explorer.FilterVendorOnly` | src/components/InvoiceExplorer.tsx:54 | With one vendor selected, every listed invoice carries exactly that vendor string. |
| `Explorer.FilterIgnoresCase` | src/components/InvoiceExplorer.tsx:55-56 | Search terms differing only in ASCII letter case list the same invoices. |
| `Explorer.ChoiceOf` | src/components/InvoiceExplorer.tsx:54 | The selection string "all" means every vendor. Any other string means the vendor of that name. |
| `Explorer.VendorNamedAllNotSelectable` | src/components/InvoiceExplorer.tsx:89-91 | A vendor literally named "all" gets an option value equal to "All Vendors". Choosing it lists other vendors' invoices. |
| `Explorer.ChoicesSelectVendor` | src/components/InvoiceExplorer.tsx:84-93 | With tagged options, every option is distinct. Each vendor's option, "all" included, lists exactly that vendor's matching invoices. |
| `Insights.Divide` | src/components/ExpenseInsights.tsx:44 | JavaScript division: a non-zero numerator over zero is an infinity of its sign, and 0 / 0 is NaN. |
| `Insights.BuildInsights` | src/components/ExpenseInsights.tsx:28-52 | No invoices give no cards, one gives one, and two or more give two. The first card is "Latest Purchase" (neutral) for invoices[0]. The second is "Monthly Change" (up or down), comparing invoices[0] with invoices[1]. |
| `Insights.MonthlyChangeTwoNewest` | src/components/ExpenseInsights.tsx:40-52 | "Monthly Change" compares the two newest invoices, not calendar months. Older invoices do not affect the cards, and neither do the two dates. |
| `Insights.LatestPurchaseReportsNewest` | src/components/ExpenseInsights.tsx:31-37 | The first card carries the newest invoice's amount and "From " followed by its vendor. |
| `Insights.TrendDirection` | src/components/ExpenseInsights.tsx:42-50 | The trend is up iff ((a - b) / b) * 100 >= 0. For b > 0 that means a >= b; for b < 0, a <= b; for b = 0, a > 0 (0 / 0 is NaN, which is not >= 0). |
| `Insights.DescriptionFollowsTrend` | src/components/ExpenseInsights.tsx:49-50 | The card says "Increase" exactly when its trend is up, and "Decrease" otherwise. |
| `Insights.PercentageMagnitude` | src/components/ExpenseInsights.tsx:44-48 | The shown value is abs(a - b) / abs(b) * 100 for b != 0. It is an unsigned infinity for b = 0 and a != 0, and NaN for two zeros. It is never negative. |
| `Uploader.Recompute` | src/components/InvoiceUploader.tsx:27-32 | A draft with items gets their summed `total` as total_amount. Vendor and items are untouched. |
| `Uploader.RunKeepsTotal` | src/components/InvoiceUploader.tsx:27-32 | In every state reachable from the initial one, a draft with items has total_amount equal to their sum. |
| `Uploader.DropStartsExtraction` | src/components/InvoiceUploader.tsx:39-46 | A drop makes the first accepted file current and turns processing on. Draft, visibility and records are unchanged. |
| `Uploader.ExtractionEnds` | src/components/InvoiceUploader.tsx:50-69 | Processing is off after success and after failure. A failure changes nothing else. A success makes the response the draft. |
| `Uploader.ConfirmStartsWrite` | src/components/InvoiceUploader.tsx:72-81 | A click without a draft does nothing. A click with a draft starts one write of the draft as it is then, with the click's time. Nothing else changes, and the editor and its button stay as they are. |
| `Uploader.WriteAccepted` | src/components/InvoiceUploader.tsx:76-96 | A stored write whose draft has items and total_amount appends exactly one record. The record holds that draft's vendor, items and total_amount and the click's time. The file and draft are then cleared and the uploader is hidden. |
| `Uploader.WriteRejected` | src/components/InvoiceUploader.tsx:76-108 | A failed write, or one whose draft lacks items or total_amount, changes only the list of pending writes. Firestore rejects an undefined field. |
| `Uploader.DiscardClears` | src/components/InvoiceUploader.tsx:163-167 | Discard clears file and draft, hides the uploader, and writes nothing. |
| `Uploader.EditVendorOnly` | src/components/InvoiceUploader.tsx:151 | Editing the vendor changes only the draft's vendor. |
| `Uploader.RunOnlyAppends` | src/components/InvoiceUploader.tsx:72-109 | Any run of events keeps the records already written as a prefix. Records plus pending writes grow by at most the number of clicks. |
| `Uploader.RunSavesAtMostClicks` | src/components/InvoiceUploader.tsx:72-109 | From the initial state, no more records are written than there were clicks on confirm. |
| `Uploader.DoubleClickSavesTwice` | src/components/InvoiceUploader.tsx:72-96 | The confirm button (line 156) stays enabled during the write. Two clicks before the first write settles store the draft twice. |
| `Uploader.ViewOf` | src/components/InvoiceUploader.tsx:111-155 | The "+" button shows exactly when the uploader is hidden and there is no draft. The editor shows exactly when the draft has a total_amount, and shows that vendor and amount. The render throws exactly when the draft lacks one. |
| `Uploader.BackToLanding` | src/components/InvoiceUploader.tsx:94-96 | After a discard (lines 163-167), or once a write is stored, the "+" button is shown again. |
| `Uploader.EditorRenderFails` | src/components/InvoiceUploader.tsx:155 | A successful extraction stores the body `{ vendor, total }` as the draft (line 54). Rendering the editor's badge then throws, since total_amount is undefined. Even a confirm would store nothing. |
| `Uploader.EditorShowsExtractedTotal` | src/components/InvoiceUploader.tsx:155 | With `total` carried into total_amount, the editor shows the extracted vendor and total. |
| `ParseRoute.UploadedOf` | src/app/api/parse-invoice/route.ts:25 | There is no uploaded file exactly when the part is absent or an empty array. |
| `ParseRoute.Handle` | src/app/api/parse-invoice/route.ts:11-63 | The status is 200 exactly when the body carries extracted data. |
| `ParseRoute.NonPostRefused` | src/app/api/parse-invoice/route.ts:12 | Any method other than POST gives 405, whatever the form and the model would have produced. |
| `ParseRoute.NoFileRejected` | src/app/api/parse-invoice/route.ts:25-26 | Without a file the answer is 400, independent of the model. |
| `ParseRoute.SuccessExactly` | src/app/api/parse-invoice/route.ts:19-61 | The answer is 200 iff: the method is POST; the form parsed; a file is present; the model replied with text. The body is then what that text yields. |
| `ParseRoute.VendorSpec` | src/app/api/parse-invoice/route.ts:49-53 | The vendor is the leftmost `Company Name:\s*(.+)` capture (any case), or "Unknown". It is never empty and never spans lines. |
| `ParseRoute.TotalSpec` | src/app/api/parse-invoice/route.ts:50-54 | The total is 0 without a match. Otherwise it is the decimal value of the captured digits, which have exactly two fraction digits. It is never NaN. |
| `ParseRoute.EmptyReply` | src/app/api/parse-invoice/route.ts:47-55 | A reply naming neither field gives vendor "Unknown" and total 0. |
| `Patterns.FindAmountSpec` | src/app/api/upload-invoice/route.ts:93 | `LIT\s*\$?(\d+\.\d{2})` matches iff some parse exists. The capture is the decimal of the parse at the leftmost start. |
| `Patterns.LabelledAmountValue` | src/app/api/upload-invoice/route.ts:98 | `m ? parseFloat(m[1]) : 0` is 0 without a match. Otherwise it is the exact value `digits.dd` denotes. |
| `Patterns.FindLineSpec` | src/app/api/upload-invoice/route.ts:97 | `LIT\s*(.*)` matches iff some parse exists. The capture comes from the parse a backtracking engine tries first at the leftmost start. |
| `Patterns.FindLineCapture` | src/app/api/parse-invoice/route.ts:49 | A line capture holds no line terminator. With `(.+)` it is never empty. |
| `Patterns.HasPriceTagSpec` | src/app/api/upload-invoice/route.ts:94 | The price-tag test succeeds iff `$`, digits, `.` and two digits occur somewhere in the line. |
| `Text.SplitOnJoin` | src/app/api/upload-invoice/route.ts:94 | Splitting on "\n" loses nothing: joining the parts restores the text. |
| `Text.SplitWhitespaceConcat` | src/app/api/upload-invoice/route.ts:100 | `split(/\s+/)` drops exactly the whitespace of the line. |
| `Text.SplitWhitespaceLast` | src/app/api/upload-invoice/route.ts:101 | The last part of the split is the line's trailing non-whitespace run ("" after trailing whitespace). |
| `Text.ParseFloatDecimal` | src/app/api/upload-invoice/route.ts:98 | `parseFloat` of `digits.dd` is exactly the decimal value written. |
| `Text.ParseFloatNaN` | src/app/api/upload-invoice/route.ts:101 | `parseFloat` is NaN for "" and for text whose first character cannot begin a number, such as "$". |
| `Text.NatToStringInjective` | src/app/api/upload-invoice/route.ts:21-22 | Different timestamps render to different digit strings. |
| `UploadRoute.VendorSpec` | src/app/api/upload-invoice/route.ts:97 | The vendor is the rest of the line after the leftmost case-sensitive "Vendor:", whitespace and newlines skipped. It is "Unknown" without a match or for an empty capture, and is never empty. |
| `UploadRoute.TotalSpec` | src/app/api/upload-invoice/route.ts:93-98 | The total is 0 without a case-insensitive "Total:" amount. Otherwise it is the value of the leftmost one, which may sit inside "Subtotal:". |
| `UploadRoute.ItemLines` | src/app/api/upload-invoice/route.ts:94-99 | The items correspond one-to-one and in order to the "\n"-separated lines that hold a price tag. |
| `UploadRoute.ItemName` | src/app/api/upload-invoice/route.ts:100-101 | The item name is the line's leading non-whitespace run, "" for a line starting with whitespace. |
| `UploadRoute.PriceAsWritten` | src/app/api/upload-invoice/route.ts:100-101 | As written, the price is `parseFloat` of the trailing non-whitespace run. It is NaN when that run is empty or starts with "$". |
| `UploadRoute.TagPriceLost` | src/app/api/upload-invoice/route.ts:94-101 | A line ending in a price tag, such as "Widget $12.50", is an item line. As written, its price is NaN. |
| `UploadRoute.TagPriceRead` | src/app/api/upload-invoice/route.ts:101 | With the "$" dropped, such a line's price is the amount on its tag. |
| `UploadRoute.PriceCorrectionOnlyForDollar` | src/app/api/upload-invoice/route.ts:101 | The corrected item differs from the one as written only when the last part starts with "$". In that case the one as written is NaN. |
| `UploadRoute.Handle` | src/app/api/upload-invoice/route.ts:8-90 | A record is written only with status 200 and after an upload. The handler parses with `parseInvoiceText` as written. |
| `UploadRoute.NoFileNoEffects` | src/app/api/upload-invoice/route.ts:13-15 | A missing file (null or "") gives 400, with no upload and no record. |
| `UploadRoute.OnlyImagesRecorded` | src/app/api/upload-invoice/route.ts:43-58 | A record is written iff the entry is a stored "image/" file that OCR read and Firestore accepted. It holds what `parseInvoiceText` as written makes of the OCR text, so a "$12.50" price is NaN. It also holds the URL and the stored name. |
| `UploadRoute.UploadPath` | src/app/api/upload-invoice/route.ts:21-31 | Uploads go to "invoices/" followed by the timestamped name of a file entry. |
| `UploadRoute.UniqueFileNameDigits` | src/app/api/upload-invoice/route.ts:22 | The stored name is the timestamp's digits, "-", then the original name. |
| `UploadRoute.UniqueFileNameInjective` | src/app/api/upload-invoice/route.ts:21-22 | The stored name determines timestamp and original name. |

## Left out

- Firestore and Storage I/O (`getDocs`, `orderBy`, `addDoc`, `uploadBytes`, `getDownloadURL`) and the Firebase configuration. Query results are input sequences. A write or upload is an outcome parameter or an appended record. The date ordering a query returns is assumed, not checked.
- The OpenAI call, Tesseract OCR, `formidable`, `request.formData()`, `fs.readFileSync` and base64 encoding. These are foreign calls; each is a parameter giving its outcome or its text.
- `Date.now()` and `new Date().toISOString()`. Both are parameters.
- React rendering, DOM toasts, chart.js options, `toFixed` and `toLocaleDateString`. These are display only. The one render that throws, the uploader badge's `total_amount.toFixed(2)` without a total, is the view `RenderFails`. What React shows after that throw, and any event after it, is not modelled.
- The JSON encoding of response bodies. `NextResponse.json` writes a NaN price as null; the model keeps the `JsNumber`.
- Prototype pollution across calls. A "__proto__" invoice changes `Object.prototype` for the rest of the page's life. The as-written fold starts each `calculateStats` call from a clean prototype.
- `date-fns` `format(parseISO(date), 'MMM yyyy')`. It is the parameter `monthOf`.
- IEEE floating point: amounts are exact reals, so rounding in the running sums is not modelled.
- Unicode `toLowerCase`: the model folds ASCII letters only. The search on non-ASCII letters therefore differs from the browser's.
- Analytics.VendorTableTies: object property order for vendor names that are array indices is not modelled. The lemma assumes `Object.keys` lists keys in insertion order. JavaScript lists vendor strings such as "42" first, in ascending numeric order, which the model does not reproduce.
- The render between a state update and React's effect. The uploader applies the total recompute at once.
- The vendor-edit transition when there is no draft. The input exists only in the editor, and the model gives it the shape `{ ...null, vendor }`.
- A vendor's mostPurchasedItems aggregating all of its invoices. A natural reading of the dashboard suggests it; the code replaces the ranking on every invoice, and the model follows the code.
- The parse route's `openai.images.create` call with chat messages. Whether it returns a reply is part of the vision-outcome parameter.

## Findings

| source | as written | input that shows it | evidently intended | confidence | as-written member | corrected member |
|---|---|---|---|---|---|---|
| src/components/ExpenseAnalytics.tsx:88 | `!stats[vendor]` reads inherited `Object.prototype` properties, so no entry is created for such a vendor | one invoice from vendor "constructor" | every vendor gets an entry | medium, not executed | `Analytics.InheritedVendorDropped` | `Analytics.CalculateStatsVendor` |
| src/components/ExpenseAnalytics.tsx:98-112 | for vendor "__proto__" the updates assign `mostPurchasedItems` on `Object.prototype`, so a later vendor "mostPurchasedItems" is dropped too | invoices from "__proto__" then "mostPurchasedItems" | every vendor gets an entry | medium, not executed | `Analytics.ProtoVendorPollutes` | `Analytics.CalculateStatsVendor` |
| src/components/InvoiceExplorer.tsx:89-91 | option values are plain vendor strings beside the sentinel "all" | vendors "all" and "Acme" | the "all" vendor's option selects that vendor | medium, not executed | `Explorer.VendorNamedAllNotSelectable` | `Explorer.ChoicesSelectVendor` |
| src/app/api/upload-invoice/route.ts:101 | `parseFloat` of the last part, which for a price line usually starts with "$" | the line "Widget $12.50" | price 12.5 | high, not executed | `UploadRoute.TagPriceLost` | `UploadRoute.TagPriceRead` |
| src/components/InvoiceUploader.tsx:54 | the parse response `{ vendor, total }` is stored as `InvoiceData`, which reads `total_amount`. The badge's `toFixed` then throws, and `addDoc` rejects the undefined fields | any successful extraction | the editor shows the extracted total | high, not executed | `Uploader.EditorRenderFails` | `Uploader.EditorShowsExtractedTotal` |
