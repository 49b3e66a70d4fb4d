# OceanBookStore client logic, modelled in Dafny

This project models the two client scripts of the OceanBookStore marketplace
that hold logic that can be stated precisely.

- **The reader page** (`js/reader-script.js`) keeps its state in a few
  variables: the catalogue, the filtered view, the selected category, the
  search term and the shopping cart. This state is modelled as the class
  `ReaderSession.Session`. Its methods are the handlers that reassign or
  mutate that state:
  - loading the catalogue and the cart;
  - choosing a category, searching and clearing the search;
  - adding to the cart and buying now;
  - the cart icon's checkout gate.

  The pure parts are separate modules. `Catalog` holds the filter predicate
  and the filtered view. `Cart` holds the cart update and the cart total.
  `Rating` holds the star bar (five symbols for a rating from 0 to 5),
  whose two counting loops and half-symbol test are the method
  `GenerateStarRating`. `Download` holds the download file name and the
  Cloudinary attachment URL.
- **The author page** (`js/author-script.js`) is a two-step publish wizard.
  The class `Wizard.PublishWizard` holds the current step, the state of the
  next and previous buttons, the form fields, the two selected files and
  what the file previews show. Its methods are `showStep` and the handlers
  of the next and previous buttons and the two file inputs. `EditFields`
  has no counterpart in the script: it stands for the author typing into
  the form. They also
  include `uploadBook`: upload the cover, then upload the manuscript, then
  save the record.
  - The network is a parameter `net` that answers each awaited request,
    given the step that sends it. The two uploads are separate fetches, so
    they can get different replies even for the same file.
  - `Wizard.PublishRun` is the specification of one `uploadBook` run. It
    gives the outcome and the requests sent, in order.

`Text` models the JavaScript string built-ins the scripts use. `trim` is
modelled with the exact ECMAScript whitespace set.

The model follows the code in the following cases:
- The step-1 gate requires only a non-empty price text. It does not check
  that the price is a positive number.
- A manuscript is accepted as a PDF by media type or as an `.epub` by name.
  No other format is accepted.
- The cover file is never rejected. The `image/` test only decides whether
  a preview is shown.
- After a successful publish, `showStep(1)` sets the label
  "Next: Upload File". The `finally` block then sets the label back to
  "Publish Book". The wizard is therefore in step 1 with a button labelled
  "Publish Book". `UploadBook` states this as written.
- The star bar appends the literals exactly as `js/reader-script.js`
  holds them: "‚òÖ", "¬Ω" and "‚òÜ" (the UTF-8 bytes of a full star, a half
  and an empty star, read as Mac Roman). A full or empty symbol is
  therefore three characters of text and a half symbol two.
- The upload client reads `file.url` from the upload reply. A reply without
  a `file` block makes that read throw before the save is sent. This is the
  `PayloadAssembly` failure.

## Model

| member | source | states |
|---|---|---|
| Text.Trim | js/reader-script.js:190 | `trim`, built from the two whitespace scans; what it returns is stated in Text.TrimSpec and Text.TrimEmptyIff |
| Text.TrimSpec | js/reader-script.js:190 | `trim` returns a slice of its input: every character cut off is whitespace, and the result neither starts nor ends with whitespace |
| Text.TrimEmptyIff | js/author-script.js:46-52 | a trimmed field is empty exactly when every character of it is whitespace |
| Text.SkipLeading | js/reader-script.js:190 | the leading-whitespace scan stops at the first non-whitespace character; everything it skips is whitespace |
| Text.SkipTrailing | js/reader-script.js:190 | the trailing-whitespace scan stops after the last non-whitespace character of the rest; everything it cuts is whitespace |
| Text.ToLower | js/reader-script.js:190 | `toLowerCase` keeps the length and lower-cases each character in place |
| Text.ToLowerIdempotent | js/reader-script.js:190-205 | lower-casing a stored, already lower-cased term again in `filterBooks` changes nothing |
| Text.IndexOf | js/reader-script.js:207-210 | `includes`/`indexOf`: the result is the first position where the pattern occurs; when it is absent, no position matches |
| Text.ReplaceFirst | js/reader-script.js:401 | `replace` with a string pattern: the input unchanged when the pattern does not occur, otherwise one occurrence exchanged, so the length changes by the difference of the two; which occurrence and what surrounds it is stated in Text.ReplaceFirstInserts |
| Text.ReplaceFirstInserts | js/reader-script.js:401 | `replace` with a string pattern rewrites only the first occurrence: replacing it by itself plus a suffix inserts the suffix there, and deleting the suffix again gives back the input |
| Catalog.Keep | js/reader-script.js:199-214 | the test of one book: the category test and the search test; what the view then holds is stated in Catalog.FilteredMembers and Catalog.FilteredWithoutSearch |
| Catalog.Filtered | js/reader-script.js:196-215 | `currentBooks.filter(...)`; its properties are stated in Catalog.FilteredMembers, Catalog.FilteredIsSubsequence, Catalog.FilteredAppend, Catalog.FilteredAllIsIdentity and Catalog.FilteredWithoutSearch |
| Catalog.FilteredMembers | js/reader-script.js:196-215 | a book is returned iff it is in the catalogue and passes both tests; every returned book has the selected category (unless `'all'`) and contains the lower-cased term in its title, author, description or category |
| Catalog.FilteredIsSubsequence | js/reader-script.js:197-215 | the filtered view is a subsequence of the catalogue, in the catalogue's order |
| Catalog.FilteredAppend | js/reader-script.js:197 | filtering distributes over concatenation of catalogues |
| Catalog.FilteredAllIsIdentity | js/reader-script.js:199-214 | with category `'all'` and an empty search every book is returned, in order |
| Catalog.FilteredWithoutSearch | js/reader-script.js:204-214 | with an empty search a book is returned iff it is in the catalogue and in the category |
| Cart.FindId | js/reader-script.js:344 | `find` by id gives the first item with that id, or none when no item has it |
| Cart.Added | js/reader-script.js:342-353 | the cart after `addToCart`; its properties are stated in Cart.AddedExisting, Cart.AddedNew, Cart.AddedTwice, Cart.AddedKeepsIdsDistinct and Cart.TotalAdded |
| Cart.Total | js/reader-script.js:477 | the `reduce` that sums the quantities; its properties are stated in Cart.TotalUpdate, Cart.TotalAppend and Cart.TotalAdded |
| Cart.AddedExisting | js/reader-script.js:344-347 | adding a book already present keeps the length, adds 1 to the first matching item's quantity and changes nothing else |
| Cart.AddedNew | js/reader-script.js:348-353 | adding a book with a new id appends exactly the book with quantity 1 after the unchanged items |
| Cart.AddedTwice | js/reader-script.js:342-353 | adding the same new book twice gives one item with quantity 2, not two items |
| Cart.AddedKeepsIdsDistinct | js/reader-script.js:342-353 | if the ids in the cart are pairwise distinct before an add, they still are after it |
| Cart.TotalUpdate | js/reader-script.js:477 | changing one quantity changes the sum of quantities by the difference |
| Cart.TotalAppend | js/reader-script.js:477 | the sum of quantities of two concatenated carts is the sum of their sums |
| Cart.TotalAdded | js/reader-script.js:342-359 | every `addToCart` raises the count on the cart icon by exactly 1 |
| Rating.Repeat | js/reader-script.js:135-145 | a counting loop of `n` rounds yields `n` copies of the symbol, none for `n` below zero |
| Rating.RenderSnoc | js/reader-script.js:136-144 | appending one symbol to the bar appends its literal to the text |
| Rating.RenderConcat | js/reader-script.js:135-145 | the text of two runs of symbols is the text of the first followed by the text of the second |
| Rating.RenderRepeatLength | js/reader-script.js:135-145 | `n` full or empty symbols take 3n characters of text, `n` half symbols 2n, none for `n` below zero |
| Rating.Symbols | js/reader-script.js:128-145 | the bar's symbols: full ones, an optional half one, empty ones; their properties are stated in Rating.StarBarInRange, Rating.StarBarLength and Rating.StarBarNegative |
| Rating.StarBar | js/reader-script.js:128-145 | the text `generateStarRating` builds from the literals "‚òÖ", "¬Ω" and "‚òÜ"; Rating.StarBarRendersSymbols ties it to the symbols and Rating.GenerateStarRating is proved to build it |
| Rating.GenerateStarRating | js/reader-script.js:128-146 | the two counting loops and the half-symbol test build exactly the star bar's text: the full literals, the optional half literal, the empty literals |
| Rating.RenderRepeat | js/reader-script.js:135-145 | a counting loop's run of one symbol renders as that many copies of its literal |
| Rating.StarBarRendersSymbols | js/reader-script.js:128-145 | the text the loops build is exactly the symbols of the bar, each written as its literal, in order |
| Rating.StarBarInRange | js/reader-script.js:128-145 | for a rating from 0 to 5 the bar has 5 symbols: `floor(rating)` full ones, a half one iff the fraction is at least 0.5, the rest empty |
| Rating.RenderBarLength | js/reader-script.js:135-145 | full and empty symbols take three characters each and the half symbol two |
| Rating.StarBarTextLength | js/reader-script.js:128-145 | the bar's text has 3·max(full, 0) + 2·half + 3·max(empty, 0) characters; for a rating from 0 to 5 that is 14 with a half symbol and 15 without |
| Rating.StarBarThree | js/reader-script.js:128-145 | a rating of 3 gives "‚òÖ‚òÖ‚òÖ‚òÜ‚òÜ", fifteen characters |
| Rating.StarBarLength | js/reader-script.js:129-145 | for any rating the bar has max(full, 0) + half + max(empty, 0) symbols |
| Rating.StarBarNegative | js/reader-script.js:129-145 | a rating strictly between -1 and 0 shows six empty symbols |
| Download.SanitizeTitle | js/reader-script.js:396 | the file-name stem has the title's length; every character outside ASCII letters and digits becomes `_`, the others are kept |
| Download.DownloadName | js/reader-script.js:396 | the download name of a book; its shape is stated in Download.DownloadNameShape |
| Download.SampleName | js/reader-script.js:435 | the download name of a sample: `Sample_` before the download name; stated in Download.DownloadNameShape |
| Download.DownloadNameShape | js/reader-script.js:396 | the download name is the sanitised title, a dot and the format, or `pdf` when the format is absent or empty |
| Download.AttachmentHref | js/reader-script.js:400-402 | the link target with the attachment flag; its properties are stated in Download.AttachmentHrefKeeps and Download.AttachmentHrefInserts |
| Download.AttachmentHrefKeeps | js/reader-script.js:400-402 | a URL not containing `cloudinary.com`, or one without `/upload/`, is used unchanged |
| Download.AttachmentHrefInserts | js/reader-script.js:400-402 | on a Cloudinary URL the flag is inserted right after the first `/upload/`; deleting it gives back the original URL |
| Download.DownloadBook | js/reader-script.js:375-414 | a download starts iff the book is found and the reader confirms; a missing book ends in `Failed` with the thrown error's message "Book not found", and a failed fetch in `Failed` with the fetch error's message; the link's target is the URL with the `fl_attachment/` flag and its name is the download name |
| Download.DownloadSample | js/reader-script.js:418-452 | a sample download starts iff the book is found, otherwise it ends in `Failed` with the thrown error's message, as the book download does; the link's target is the URL with the `fl_attachment:Sample_/` flag and its name is the `Sample_` name |
| ReaderSession.Session.constructor | js/reader-script.js:5-9 | the page starts with empty catalogue, view and cart, category `'all'` and no search, over whatever cart local storage already holds |
| ReaderSession.Session.LoadBooks | js/reader-script.js:35-39 | loading sets the catalogue and the unfiltered view to the stored books and changes nothing else |
| ReaderSession.Session.LoadShoppingCart | js/reader-script.js:151-153 | the cart becomes the stored cart |
| ReaderSession.Session.FilterBooks | js/reader-script.js:196-217 | the view becomes the filter of the catalogue by the current category and search; nothing else changes |
| ReaderSession.Session.SelectCategory | js/reader-script.js:174-182 | a category click stores the category and refilters |
| ReaderSession.Session.PerformSearch | js/reader-script.js:187-192 | the search stores the trimmed, lower-cased input and refilters |
| ReaderSession.Session.ClearSearch | js/reader-script.js:514-521 | clearing empties the search, so the view holds exactly the catalogue's books in the current category |
| ReaderSession.Session.AddToCart | js/reader-script.js:342-359 | the cart becomes the added cart and is written to storage whole; the total rises by 1; distinct ids stay distinct |
| ReaderSession.Session.CartIconClick | js/reader-script.js:224-230 | the cart icon leads to checkout iff the cart is non-empty, otherwise only the empty-cart alert appears |
| ReaderSession.Session.BuyNow | js/reader-script.js:364-371 | buy-now adds the book and always leads to checkout |
| Wizard.Step1Complete | js/author-script.js:46-52 | the step-1 check; what it accepts is stated in Wizard.Step1CompleteIff |
| Wizard.ManuscriptAccepted | js/author-script.js:118-121 | the manuscript check; what it accepts is stated in Wizard.ManuscriptCeiling and Wizard.EpubAnyCase |
| Wizard.Step1CompleteIff | js/author-script.js:44-57 | step 1 passes iff title, author and description each hold a non-whitespace character and the price text and category are non-empty; the price is not checked to be positive |
| Wizard.ManuscriptCeiling | js/author-script.js:118-121 | the size ceiling is inclusive: a PDF of 52428800 bytes is accepted, one of 52428801 is rejected |
| Wizard.EpubAnyCase | js/author-script.js:118-121 | a non-PDF file is accepted iff its name ends in `.epub` in any mix of cases and it is at most 50 MiB |
| Wizard.PublishRun | js/author-script.js:141-257 | one `uploadBook` run as outcome and requests sent; its properties are stated in Wizard.PublishRunNeedsBothFiles, Wizard.PublishRunOrder, Wizard.PublishRunOutcome, Wizard.UploadFailureSavesNothing, Wizard.SavedPayload and Wizard.SameFileUploadedTwice, and Wizard.PublishWizard.UploadBook is proved to follow it |
| Wizard.AssemblePayload | js/author-script.js:200-214 | the record sent to `/api/books`; its contents are stated in Wizard.SavedPayload |
| Wizard.PublishRunNeedsBothFiles | js/author-script.js:152-155 | without both files the run sends nothing |
| Wizard.PublishRunOrder | js/author-script.js:164-224 | requests go out cover, manuscript, save; each goes only after the previous reply reported `success`; the save goes only when both replies carry a `file` block |
| Wizard.PublishRunOutcome | js/author-script.js:177-247 | a run is published iff the save was sent and reported `success`; a failed run names the cover upload after one request, the manuscript upload or the record assembly after two, the save after three; every earlier reply succeeded; an upload or save failure is the failure of the reply to the last request, with that step's message; a record-assembly failure follows two successful uploads one of whose replies lacks its `file` block |
| Wizard.ReportedMessages | js/author-script.js:178-246 | a reply without `success` raises "Cover upload failed: ", "Book upload failed: " or "Database save failed: " followed by its non-empty `error`, or by "Unknown error" |
| Wizard.SameFileUploadedTwice | js/author-script.js:164-196 | the same file chosen as cover and manuscript is uploaded twice, and the manuscript upload can fail after the cover upload succeeded |
| Wizard.UploadFailureSavesNothing | js/author-script.js:177-196 | a failure before the save sends only uploads, so no record refers to an already uploaded cover |
| Wizard.SavedPayload | js/author-script.js:200-214 | the saved record copies the trimmed title, author and description, the raw price and the category; its file URLs are the server origin plus each reply's `file.url`, and it carries each `file.filename` |
| Wizard.PublishWizard.constructor | js/author-script.js:11-38 | the wizard starts in step 1 with an empty form, the previous button hidden and the next button enabled |
| Wizard.PublishWizard.ShowStep | js/author-script.js:13-35 | `showStep(s)` sets the step to `s`, shows the previous button iff `s` is not 1, and sets that step's label |
| Wizard.PublishWizard.PrevClick | js/author-script.js:66-69 | the previous button always yields step 1 |
| Wizard.PublishWizard.SelectCover | js/author-script.js:96-111 | the cover input keeps any file; only an `image/` file is previewed |
| Wizard.PublishWizard.SelectManuscript | js/author-script.js:114-137 | an accepted manuscript stays selected; a rejected one is cleared and reported as invalid |
| Wizard.PublishWizard.UploadBook | js/author-script.js:141-257 | the run equals the specification; without both files nothing changes; on success the form is reset and step 1 is shown, on failure the step stays 2; either way the button ends enabled with label "Publish Book" |
| Wizard.PublishWizard.NextClick | js/author-script.js:41-63 | "next" in step 1 advances to step 2 iff the step-1 check passes, otherwise nothing changes; in step 2 it runs the upload with all of `uploadBook`'s outcomes: nothing changes without both files, a success resets the form and shows step 1, a failure keeps everything in step 2, and after a sent request the button ends enabled with label "Publish Book" |

## Left out

- `server.js` is not part of this model. The upload and save endpoints are the replies `net` gives; the book lookup of the two downloads is the `BookReply` argument.
- Rendering and event wiring are not modelled: `displayBooks`, `createBookCard`, both `openBookDetails` declarations, the modal, `showNotification`, `updateBookCount`, console output and alert texts. They are presentation.
- The royalty calculator is not modelled. It is floating-point arithmetic shown with `toFixed`.
- The cover colour `book.id % n` is not modelled. It depends on JavaScript's numeric coercion of string ids.
- The timers are not modelled: the redirect after a publish and the one-second delay of buy-now. `BuyNow` returns the navigation directly.
- Local storage is modelled as the stored value. The cart is written after every add. JSON parse errors are not modelled.
- JavaScript numbers are modelled as unbounded integers for sizes and quantities and as reals for prices and ratings. NaN, infinities and rounding are not modelled. Nor is `+=` on a quantity that local storage holds as a string.
- Book titles and authors are taken to be strings. A record without them would make `filterBooks` throw.
- The DOM guards (`if (searchInput)`, `if (cartCount)` and the like) are taken to succeed.
- The wizard's handlers run one at a time. The previous button stays visible while an upload is awaited. A click on it during the upload is not modelled.
- Text.ToLower: lower-cases only the ASCII letters, whereas `toLowerCase` applies full Unicode case mapping.
- Download.SanitizeTitle: replaces each Unicode scalar value with one `_`. JavaScript works on UTF-16 code units, so a character outside the Basic Multilingual Plane gives `__` there.
- Rating.GenerateStarRating: returns the star literals only. The trailing space and `rating.toFixed(1)` are not modelled.
- Wizard.AssemblePayload, Wizard.SavedPayload: the payload carries the price text. `parseFloat` is not modelled.
- Wizard.PublishRun, Wizard.PublishWizard.UploadBook: the model does not carry the runtime's message for a thrown `TypeError` when a reply has no `file` block (`NoFileBlock`). It also leaves out the string `"undefined"` produced when `file.url` itself is missing.
- Wizard.PublishWizard.UploadBook: `form.reset()` is modelled as emptying every field, the category select included.
