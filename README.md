# RetroMarket front-end scripts, modelled in Dafny

RetroMarket is a retro-gaming marketplace made of static pages. Three browser scripts do its work. This project models them and proves properties of the model:

- **Seller dashboard** (`assets/js/seller-dashboard.js`). It covers:
  - the seeded dashboard record store;
  - the sales chart and its period buttons;
  - the order table's Process, Track and View actions;
  - the listing icons: edit, statistics, duplicate and delete;
  - the stacked toast notifications;
  - the single modal overlay with its confirm dialog.
- **Contact page** (`assets/js/contact.js`). It covers:
  - the four-field contact form, with per-field validation, submission and reset;
  - the FAQ accordion;
  - the social-link platform name;
  - the animated statistics counters;
  - the form auto-save into local storage.
- **Site-wide script** (`assets/js/main.js`). It covers:
  - the hamburger menu;
  - the mobile and desktop dropdowns;
  - the light/dark theme toggle and the RTL toggle, both persisted in local storage;
  - highlighting the navigation link of the current page;
  - the header that hides while scrolling down;
  - the `window.RetroMarket` helpers.

Each object whose fields the scripts update becomes a Dafny `class`, for example `NotificationCenter`, `ModalSurface`, `ContactForm`, `ThemeToggle` and `MobileMenu`. Each event handler becomes a method whose `ensures` states its new state; the few that state less are named under "## Left out".

The pure parts are `datatype`s and functions on values: validators, class-list edits, chart heights, row edits and the auto-save draft. Lemmas give each function a partner, such as an invariant, an inverse, idempotence, or an if-and-only-if characterisation.

The model's entities work as follows:

- **DOM.** Elements appear only as the fields the scripts read or write.
- **Timers.** A `setTimeout`, `requestAnimationFrame` or transition callback is an explicit method the environment may call later. Examples are `Expire`, `FinishRemoval`, `WireConfirmHandlers`, `SubmissionCompletes` and `HideTimerFires`.
- **Local storage** is a `map<string, string>`.
- **Notifications.** Each one posted is a `Notice(message, kind)`. The `NotificationCenter` keeps them in order, with fresh ids.

Modules follow the program's structure:

| file | modules | what they model |
|---|---|---|
| `text.dfy` | `Wrappers`, `Text` | the JavaScript string operations the scripts use (`trim`, `split(...).pop()`, `includes`, `toLowerCase`, digit filtering, number-to-text) |
| `records.dfy` | `Records` | `dashboardData` |
| `chart.dfy` | `Chart` | the sales chart |
| `notifications.dfy` | `Notifications` | the dashboard's `NotificationSystem` |
| `modal.dfy` | `Modal` | the dashboard's `ModalSystem` |
| `orders.dfy` | `Orders` | `OrderManager` |
| `listings.dfy` | `Listings` | `ListingManager` |
| `contact.dfy` | `Contact` | the contact page's `ContactForm` |
| `contact_extras.dfy` | `Faq`, `Counters`, `AutoSave`, `Social` | the rest of the contact page |
| `site.dfy` | `Site` | theme and RTL |
| `navigation.dfy` | `Hamburger`, `MobileDropdowns`, `DesktopDropdowns` | the navigation menus |
| `active_links.dfy` | `ActiveLinks`, `HeaderScroll` | the current-page link highlight and the header on scroll |

## Where the code and its documented design differ

The model follows the code in each case but one: the second item states where it follows the evident intent instead.

- **Dashboard data is never written.** `processOrder`, `duplicateListing` and `deleteListing` change only the rows of the HTML table; `dashboardData` never changes. A view of an unknown order id still posts the "Viewing details" notification, but it opens no modal.
- **Notification and modal calls.** `OrderManager` and `ListingManager` call `this.showNotification`, `this.showModal` and `this.showConfirmDialog`. As written, neither class has these members, so the first such call of every action throws a TypeError. Here the model departs from the code: it treats these calls as calls to the page's shared `NotificationSystem` and `ModalSystem`, which is what the code evidently intends.
- **Confirm buttons.** Each confirm dialog wires its handler only after 50 ms, and it wires it to whichever `.confirm-btn` exists at that moment. After two confirm dialogs in quick succession, both handlers can end up on the second dialog's button. `ModalSurface.pendingWirings` and `confirmHandlers` model this.
- **Duplicated rows** come from `cloneNode` and carry no click listeners (`ListingRow.wired`).
- **Contact subject.** A subject made of spaces passes validation: the check is `!value` with no `trim`.
- **Script start-up stops early.** `main.js` `init` calls `initScanlines`, which is defined nowhere, so start-up throws after `initBackToTop`. Keyboard navigation, touch handling and scroll animations are never installed.
- **Saved theme with whitespace.** When `retroTheme` holds ASCII whitespace (`"dark mode"`), `body.classList.add(savedTheme)` throws in `initThemeToggle`. Both theme classes have already been removed, the icons keep their markup state, and the theme buttons get no listeners (`Site.ThemeToggle.wired`, `Site.SpacedThemeStopsStartup`). `init` stops there too, so the RTL toggle, the desktop dropdowns, the active links and back-to-top are never set up on that page. The header's scroll handler is installed by top-level code outside `init` (`assets/js/main.js:814-829`), so it still runs.
- **`RetroMarket.setTheme(t)`** dispatches `themeChanged` with the raw `t`. For any `t` other than `"dark"` and `"light"`, the event names a theme the page does not show (`Site.SetThemeEventDisagrees`).
- **Desktop dropdowns.** Hovering a second desktop dropdown before the first one's 200 ms hide timer fires shows both menus at once (`DesktopDropdowns.HoverShowsTwo`). Clicking always leaves at most one open.
- **Active link match.** A link counts as the current page when its `href` contains the current file name up to its first dot. For a current file name that starts with a dot, that prefix is empty, so every link with a non-empty `href` is marked active (`ActiveLinks.DotFileMatchesEverything`).
- **Header on scroll.** Without a `.header` element, the scroll handler throws before `lastScroll` is updated, so it stays 0.
- **`RetroMarket.closeMobileMenu`** closes the hamburger and restores scrolling, but it leaves `#navMenu` open, unlike the hamburger's own close path.

## Model

| member | source | states |
|---|---|---|
| Text.TrimStart | assets/js/contact.js:28-31 | the result is a suffix of the input, everything dropped is whitespace, and the result does not start with whitespace |
| Text.IsWhitespace | assets/js/contact.js:28-31 | the characters `trim()` strips and `\s` matches: the JavaScript WhiteSpace and LineTerminator code points |
| Text.TrimEnd | assets/js/contact.js:28-31 | the result is a prefix of the input, everything dropped is whitespace, and the result does not end with whitespace |
| Text.Trim | assets/js/contact.js:28-31 | the result is a slice of the input with only whitespace before and after it; it is empty exactly when the input is all whitespace, and otherwise neither starts nor ends with whitespace |
| Text.TrimOfTrimmed | assets/js/seller-dashboard.js:191 | trimming a string that neither starts nor ends with whitespace gives the string back |
| Text.IndexOf | assets/js/contact.js:44-46 | finds the first occurrence of the character, and is None exactly when the character is absent |
| Text.BeforeFirst | assets/js/main.js:407 | `split(c)[0]`: the longest prefix without `c`, which is followed by `c` when shorter than the input |
| Text.LastIndex | assets/js/main.js:397 | the last position holding `c`, none exactly when `c` does not occur |
| Text.AfterLast | assets/js/main.js:397 | `split(c).pop()`: the longest suffix without `c`, which is preceded by `c` when shorter than the input |
| Text.AfterLastSuffix | assets/js/main.js:397 | after a prefix ending in '/', a name without '/' is the whole last segment |
| Text.LastSegmentOr | assets/js/main.js:397 | the last segment when it is non-empty, the fallback otherwise; never empty and never containing '/' when the fallback is neither |
| Text.LastSegmentOfPath | assets/js/main.js:397 | a path ending in "/name" gives "name" |
| Text.LastSegmentTrailingSlash | assets/js/main.js:397 | a path ending in '/' gives the fallback |
| Text.AfterLastAt | assets/js/main.js:397 | `split(c).pop()` is everything after the last `c` |
| Text.Utf16Length | assets/js/contact.js:28 | `length` in UTF-16 code units: between the number of code points and twice that |
| Text.Utf16LengthConcat | assets/js/contact.js:28 | lengths add up over concatenation |
| Text.Utf16LengthBmp | assets/js/contact.js:28 | for text within the Basic Multilingual Plane, `length` is the number of characters |
| Text.IncludesEmpty | assets/js/main.js:407 | every string includes the empty string |
| Text.Includes | assets/js/main.js:407 | `hay.includes(needle)`: the needle occurs at some position of the haystack |
| Text.LowerChar | assets/js/seller-dashboard.js:135 | maps each ASCII capital to the lower-case letter 32 code points above it and leaves every other character alone |
| Text.Lower | assets/js/seller-dashboard.js:135 | lower-cases a string character by character, keeping its length |
| Text.Digits | assets/js/contact.js:547 | `replace(/[^0-9]/g, '')` keeps only decimal digits |
| Text.NonDigits | assets/js/contact.js:548 | `replace(/[0-9]/g, '')` keeps only non-digits; the two parts add up to the input's length |
| Text.DigitsAppend | assets/js/contact.js:547-548 | both filters distribute over concatenation |
| Text.DigitsOfDigits | assets/js/contact.js:547-548 | filtering a digit string keeps all of it and has no non-digit part |
| Text.NonDigitsOfNonDigits | assets/js/contact.js:547-548 | filtering a digit-free string keeps all of it and has no digit part |
| Text.NatToDecimal | assets/js/contact.js:571 | the decimal text of a number is non-empty, all digits, and without a leading zero |
| Text.DecimalValue | assets/js/contact.js:547 | `parseInt(ds, 10)` of a string of decimal digits: the value of the digits read left to right |
| Text.DecimalRoundTrip | assets/js/contact.js:547-571 | reading back the decimal text of a number gives the number |
| Records.SalesSeries | assets/js/seller-dashboard.js:109-113 | a series exists exactly for "week", "month" and "year"; each is non-empty with positive values |
| Records.SeedIsWellFormed | assets/js/seller-dashboard.js:15-113 | the seeded orders and listings have distinct ids; the series have 7, 12 and 12 points |
| Records.FindOrder | assets/js/seller-dashboard.js:254 | `find` returns the first order with the id, and returns nothing exactly when no order has it |
| Records.FindOrderAt | assets/js/seller-dashboard.js:254 | with distinct ids, looking up an order's own id returns that order |
| Chart.Max | assets/js/seller-dashboard.js:158 | `Math.max(...data)` is an element of the data and bounds every element |
| Chart.BarHeight | assets/js/seller-dashboard.js:158-162 | a bar's height is its value's share of the maximum times 150 |
| Chart.MaxIsBound | assets/js/seller-dashboard.js:158 | an element bounding all the data is `Math.max(...data)` |
| Chart.BarHeightBounds | assets/js/seller-dashboard.js:158-162 | a bar's height is between 0 and the full height, and the maximum value is drawn at full height |
| Chart.BarHeightMonotone | assets/js/seller-dashboard.js:162 | a larger value never draws a shorter bar |
| Chart.Rendered | assets/js/seller-dashboard.js:160-173 | rendering keeps the number of bars |
| Chart.ChartHeights | assets/js/seller-dashboard.js:154-174 | rendering a period keeps the number of bars |
| Chart.ChartHeightsBounds | assets/js/seller-dashboard.js:154-173 | an unknown period and bars beyond the data stay as they were; the other new heights lie in the drawable range |
| Chart.ChartHeightsPeak | assets/js/seller-dashboard.js:158-162 | the period's peak value gets the full height |
| Chart.ChartHeightsMonotone | assets/js/seller-dashboard.js:154-173 | bar order follows value order |
| Chart.ChartHeightsIdempotent | assets/js/seller-dashboard.js:154-173 | rendering the same period twice equals rendering it once |
| Chart.ChartHeightAt | assets/js/seller-dashboard.js:158-162 | each bar with data is drawn at the value's share of the period maximum |
| Chart.MonthPeak | assets/js/seller-dashboard.js:111 | the month series peaks at 820 |
| Chart.MonthRendered | assets/js/seller-dashboard.js:154-173 | rendering "month" on twelve bars draws the month series |
| Chart.RenderedAt | assets/js/seller-dashboard.js:160-162 | each rendered bar is drawn at its value's share of the maximum |
| Chart.MonthScenario | assets/js/seller-dashboard.js:154-173 | bar i of the month chart is drawn at the month's value i over 820 |
| Chart.SalesChart.constructor | assets/js/seller-dashboard.js:121-129 | starts on the week period with the week chart drawn |
| Chart.SalesChart.RenderChart | assets/js/seller-dashboard.js:154-174 | the bars become the chart heights of the period |
| Chart.SalesChart.RenderSeries | assets/js/seller-dashboard.js:158-173 | every slot with a bucket gets that bucket's height against the series maximum; the other slots keep theirs |
| Chart.SalesChart.SwitchPeriod | assets/js/seller-dashboard.js:141-152 | records the period, leaves exactly the clicked button active, and redraws |
| Chart.SalesChart.ButtonClicked | assets/js/seller-dashboard.js:131-152 | switches to the lower-cased caption of the clicked button |
| Notifications.EffectiveKind | assets/js/seller-dashboard.js:559 | a missing type defaults to "info" |
| Notifications.Notices | assets/js/seller-dashboard.js:559-604 | the notices on screen, in stacking order |
| Notifications.NoticesAppend | assets/js/seller-dashboard.js:559-604 | the notices of a concatenation are the concatenated notices |
| Notifications.WithoutEntry | assets/js/seller-dashboard.js:616-620 | removing a toast never lengthens the stack |
| Notifications.WithoutEntryMembers | assets/js/seller-dashboard.js:616-620 | removing a toast keeps exactly the other toasts and leaves none with that id |
| Notifications.WithoutAbsentEntry | assets/js/seller-dashboard.js:616-620 | removing an id that is not shown changes nothing |
| Notifications.WithoutEntryTwice | assets/js/seller-dashboard.js:616-620 | removing twice is removing once |
| Notifications.WithoutEntryAt | assets/js/seller-dashboard.js:619 | with distinct ids, removal cuts out exactly that position |
| Notifications.WithoutEntryAppend | assets/js/seller-dashboard.js:616-620 | removal does not disturb toasts stacked later that have other ids |
| Notifications.WithoutEntryUnique | assets/js/seller-dashboard.js:616-620 | removal keeps the ids distinct |
| Notifications.Numbered | assets/js/seller-dashboard.js:593-598 | numbering a batch of notices gives consecutive ids and keeps the notices |
| Notifications.NumberedSnoc | assets/js/seller-dashboard.js:593-598 | numbering one more notice appends it with the next id |
| Notifications.NumberedConcat | assets/js/seller-dashboard.js:593-598 | numbering two batches in a row equals numbering them together |
| Notifications.IdRange | assets/js/seller-dashboard.js:596-598 | the ids of a batch form a contiguous range |
| Notifications.IdRangeConcat | assets/js/seller-dashboard.js:596-598 | adjacent id ranges join into one |
| Notifications.PostedTwice | assets/js/seller-dashboard.js:559-604 | posting two batches in a row equals posting them together |
| Notifications.NotificationCenter.constructor | assets/js/seller-dashboard.js:541-543 | starts with no container and no toasts |
| Notifications.NotificationCenter.CreateContainer | assets/js/seller-dashboard.js:545-557 | makes sure there is exactly one container and leaves the toasts alone |
| Notifications.NotificationCenter.Show | assets/js/seller-dashboard.js:559-604 | appends the notice under a fresh id and arms its 5-second expiry |
| Notifications.NotificationCenter.Remove | assets/js/seller-dashboard.js:616-621 | starts the leave animation of the id |
| Notifications.NotificationCenter.Expire | assets/js/seller-dashboard.js:596-598 | the expiry timer fires once and starts the leave animation |
| Notifications.NotificationCenter.CloseClicked | assets/js/seller-dashboard.js:601-603 | the close button starts the leave animation of a shown toast |
| Notifications.NotificationCenter.FinishRemoval | assets/js/seller-dashboard.js:618-620 | after the animation, the toast is removed from the stack |
| Modal.ModalSurface.constructor | assets/js/seller-dashboard.js:629-631 | construction builds the one overlay; the modal starts closed with no handlers |
| Modal.ModalSurface.CreateModal | assets/js/seller-dashboard.js:633-677 | makes sure there is exactly one overlay and changes nothing else |
| Modal.ModalSurface.Show | assets/js/seller-dashboard.js:679-701 | opens with the given title and body, replacing the body's buttons and their handlers |
| Modal.ModalSurface.ShowModal | assets/js/seller-dashboard.js:760-763 | creates the overlay if needed, then shows |
| Modal.ModalSurface.Close | assets/js/seller-dashboard.js:703-706 | closes and keeps the content |
| Modal.ModalSurface.CloseButtonClicked | assets/js/seller-dashboard.js:698-700 | the close button closes the modal |
| Modal.ModalSurface.OverlayClicked | assets/js/seller-dashboard.js:671-675 | closes only on a click on the overlay itself |
| Modal.ModalSurface.ShowConfirmDialog | assets/js/seller-dashboard.js:712-725 | shows the confirm prompt and queues the confirm handler for wiring |
| Modal.ModalSurface.WireConfirmHandlers | assets/js/seller-dashboard.js:729-747 | the oldest queued handler attaches to whatever confirm button exists, and so does the cancel handler |
| Modal.ModalSurface.ClickableConfirmHandlers | assets/js/seller-dashboard.js:733-740 | handlers can be clicked only while a confirm prompt is open |
| Modal.ModalSurface.CancelClicked | assets/js/seller-dashboard.js:742-746 | cancel closes only a wired confirm prompt |
| Orders.ActionOf | assets/js/seller-dashboard.js:191-214 | the trimmed button text selects Process, Track or View, and anything else selects nothing |
| Orders.Processed | assets/js/seller-dashboard.js:217-231 | a processed row keeps its id, is marked shipped when it has a status cell, and offers Track |
| Orders.ProcessedRowTracks | assets/js/seller-dashboard.js:191-231 | the next click on a processed row tracks the order |
| Orders.ProcessedIdempotent | assets/js/seller-dashboard.js:220-231 | processing twice is processing once |
| Orders.ActionNotices | assets/js/seller-dashboard.js:217-251 | Process posts info then success; Track and View post one info; no action posts nothing |
| Orders.OrderManager.constructor | assets/js/seller-dashboard.js:182-199 | takes the table rows and the shared notification and modal objects, keeps them consistent, and looks orders up in `dashboardData.recentOrders` |
| Orders.OrderManager.ProcessOrder | assets/js/seller-dashboard.js:217-234 | posts the two notices and replaces exactly that row with its processed form |
| Orders.OrderManager.TrackOrder | assets/js/seller-dashboard.js:236-248 | posts its notice and opens the tracking modal for the id |
| Orders.OrderManager.ViewOrder | assets/js/seller-dashboard.js:250-267 | posts its notice; opens the details of the seeded order, or leaves the modal alone for an unknown id |
| Orders.OrderManager.HandleOrderAction | assets/js/seller-dashboard.js:189-215 | dispatches on the trimmed button text: Process posts its two notices and replaces only row k; Track posts its notice and shows the tracking dialog with no handlers, dropping any wired confirm handlers; View posts its notice and shows the order's details only when `recentOrders` holds the id; any other label does nothing |
| Orders.OrderManager.RunAction | assets/js/seller-dashboard.js:204-214 | each branch of the switch posts its action's notices, makes its row change, and leaves the modal showing its dialog (title, content, no confirm handlers, cancel unwired, pending wirings kept) or untouched |
| Orders.ViewFindsSeedOrders | assets/js/seller-dashboard.js:22-50 | a seeded id is found at its position and an unknown id is not |
| Listings.RowIndex | assets/js/seller-dashboard.js:386-397 | finds a row with the key, and finds nothing exactly when none has it |
| Listings.Copy | assets/js/seller-dashboard.js:375-381 | the clone keeps the cells, gets the " (Copy)" name and a new key, and has no listeners |
| Listings.Deleted | assets/js/seller-dashboard.js:393 | deleting never lengthens the table |
| Listings.DeletedMembers | assets/js/seller-dashboard.js:393 | keeps exactly the rows with other keys, and none with that key |
| Listings.DeletedAbsent | assets/js/seller-dashboard.js:393 | deleting a missing key changes nothing |
| Listings.DeletedTwice | assets/js/seller-dashboard.js:393 | deleting twice is deleting once |
| Listings.DeletedAt | assets/js/seller-dashboard.js:393 | with distinct keys, deletion cuts out exactly that row |
| Listings.DeletedUnique | assets/js/seller-dashboard.js:393 | deletion keeps the keys distinct |
| Listings.DeleteUndoesCopy | assets/js/seller-dashboard.js:365-397 | deleting a fresh copy restores the table |
| Listings.DeletedAppend | assets/js/seller-dashboard.js:393 | deletion distributes over appending a row |
| Listings.ConfirmedDuplicate | assets/js/seller-dashboard.js:365-384 | confirming a duplicate appends the copy, posts its success notice and closes the modal |
| Listings.ConfirmedDelete | assets/js/seller-dashboard.js:386-397 | confirming a delete removes exactly that row, posts its success notice and closes the modal |
| Listings.RunHandler | assets/js/seller-dashboard.js:733-738 | one Confirm listener: runs the queued callback if there is one, then closes the dialog; a duplicate of a detached row posts and stops |
| Listings.RunHandlers | assets/js/seller-dashboard.js:733-738 | the Confirm button's listeners run one after another, in the order they were added |
| Listings.RunHandlerSplit | assets/js/seller-dashboard.js:733-740 | one handler's effect does not depend on the notices posted before it |
| Listings.ListingManager.constructor | assets/js/seller-dashboard.js:275-315 | takes the rows and wires the icons of every row |
| Listings.ListingManager.EditListing | assets/js/seller-dashboard.js:317-347 | posts the editing notice and opens the edit form for the row's item |
| Listings.ListingManager.ViewListingStats | assets/js/seller-dashboard.js:349-363 | opens the statistics of the row's item, views and watchers |
| Listings.ListingManager.DuplicateListing | assets/js/seller-dashboard.js:365-384 | opens the duplicate prompt and queues the duplicate handler |
| Listings.ListingManager.DeleteListing | assets/js/seller-dashboard.js:386-397 | opens the delete prompt and queues the delete handler |
| Listings.ListingManager.IconClicked | assets/js/seller-dashboard.js:279-315 | an icon on a cloned row does nothing; on a wired row the pencil posts the editing notice and shows the edit form, the chart icon shows the statistics, and the copy and trash icons show their confirmation and queue the duplicate or delete handler; only the pencil posts a notice |
| Listings.ListingManager.ConfirmClicked | assets/js/seller-dashboard.js:729-740 | runs every handler wired to the confirm button, in order; a click before the 50 ms wiring leaves the rows, the notifications and the dialog's visibility unchanged |
| Listings.ListingManager.RunStep | assets/js/seller-dashboard.js:371-395 | one handler's effect on rows, notices and the modal |
| Listings.ListingManager.RunDuplicate | assets/js/seller-dashboard.js:365-384 | the duplicate handler's effect on the table, the key counter, the notices and whether the modal closes is the one the reference `RunHandler` gives; nothing else of the modal changes |
| Listings.ListingManager.RunDelete | assets/js/seller-dashboard.js:386-395 | the delete handler's effect on the table, the notices and the modal is the one the reference `RunHandler` gives, and the keys stay distinct |
| Contact.NameError | assets/js/contact.js:27-35 | no error exactly when the trimmed name's `length`, in UTF-16 code units, is 2 to 50; below 2 units the "at least 2" message and above 50 the "less than 50" message |
| Contact.AstralNameAccepted | assets/js/contact.js:28 | one non-blank character past U+FFFF is a long enough name, since JavaScript counts it as two units |
| Contact.EmojiNameAccepted | assets/js/contact.js:28 | the one-emoji name "\U{1F600}" is accepted |
| Contact.BmpNameTooShort | assets/js/contact.js:28 | a name of one character of the Basic Multilingual Plane is rejected |
| Contact.EmailError | assets/js/contact.js:40-49 | an empty value is "required"; otherwise no error exactly when the regular expression matches, and "Please enter a valid email address" when it does not |
| Contact.EmailRegexMeaning | assets/js/contact.js:44-46 | the regular expression matches exactly: a plain local part, the first '@', and a plain domain with an inner dot |
| Contact.EmailRegex | assets/js/contact.js:44-46 | `/^[^\s@]+@[^\s@]+\.[^\s@]+$/`: an '@' and a later '.' split the value into three non-empty runs without whitespace or '@' |
| Contact.RegexGivesParts | assets/js/contact.js:44-46 | a match splits at the first '@' into the parts |
| Contact.SplitGivesParts | assets/js/contact.js:44-46 | the `@` of any split the pattern finds is the first `@`, and the split gives the parts |
| Contact.PartsGiveRegex | assets/js/contact.js:44-46 | parts around an '@' make a match |
| Contact.EmailAccepted | assets/js/contact.js:44-46 | "ann@retro.shop" passes |
| Contact.EmailWithoutDot | assets/js/contact.js:44-46 | a domain without a dot fails |
| Contact.EmailLeadingBlank | assets/js/contact.js:44-46 | a leading space fails, because the value is not trimmed |
| Contact.EmailTwoAts | assets/js/contact.js:44-46 | two '@' fail |
| Contact.EmailStartsPlain | assets/js/contact.js:44-46 | an accepted address starts with a non-blank character |
| Contact.SubjectError | assets/js/contact.js:54-59 | no error exactly when a subject is selected |
| Contact.MessageError | assets/js/contact.js:64-72 | no error exactly when the trimmed message's `length`, in UTF-16 code units, is 10 to 1000; below 10 units the "at least 10" message and above 1000 the "less than 1000" message |
| Contact.BlankFieldsFail | assets/js/contact.js:27-72 | a blank name, email or message always fails |
| Contact.WithError | assets/js/contact.js:126-135 | marks the field, and shows the message when the field has an error element |
| Contact.Cleared | assets/js/contact.js:137-146 | unmarks the field, and hides and empties its error element |
| Contact.Checked | assets/js/contact.js:110-124 | a missing field is untouched; otherwise it is marked and shows the validator's message exactly when it fails |
| Contact.FieldError | assets/js/contact.js:27-70 | field k's own validator: name, email, subject or message |
| Contact.Passes | assets/js/contact.js:110-124 | `validateField` reports a field valid when its element is missing or its validator gives no message |
| Contact.CheckedIdempotent | assets/js/contact.js:110-124 | validating twice is validating once |
| Contact.FirstMissing | assets/js/contact.js:261-263 | the first missing field element, where the clearing loop throws |
| Contact.ContactForm.constructor | assets/js/contact.js:16-77 | four fields, the button enabled, the form shown, nothing in flight |
| Contact.ContactForm.ValidateField | assets/js/contact.js:110-124 | returns whether the field passes, and updates only that field |
| Contact.ContactForm.ValidateAll | assets/js/contact.js:148-156 | validates every field, and returns true exactly when all pass |
| Contact.ContactForm.Blur | assets/js/contact.js:84-86 | leaving a field validates it |
| Contact.ContactForm.Input | assets/js/contact.js:89-91 | typing stores the value and clears the field's error |
| Contact.ContactForm.HandleSubmit | assets/js/contact.js:158-176 | on failure, posts the error notice and re-enables the button; on success, leaves the button disabled and starts the submission |
| Contact.ContactForm.SubmissionCompletes | assets/js/contact.js:179-186 | the delayed submission hides the form, shows the success message and posts its notice, or does nothing if a field is missing |
| Contact.ContactForm.ResetValues | assets/js/contact.js:251 | `form.reset()` turns every field to its reset value from the default |
| Contact.ResetValue | assets/js/contact.js:251 | `form.reset()` gives a present field its markup default and leaves a missing one alone |
| Contact.ContactForm.ClearErrors | assets/js/contact.js:261-263 | clears the errors of the fields before the first one missing from the page, leaves the rest, and reports whether the loop finished |
| Contact.ContactForm.ResetForm | assets/js/contact.js:248-270 | resets values, shows the form, hides success, clears errors up to the first missing field, and re-enables the button only if that loop finished |
| Faq.Toggled | assets/js/contact.js:415-426 | toggling keeps the number of items |
| Faq.ToggledAtMostOne | assets/js/contact.js:415-426 | after a toggle at most one item is expanded, and only the toggled one can be |
| Faq.ToggledFlips | assets/js/contact.js:415-426 | the toggled item flips |
| Faq.ToggleExpandedClosesAll | assets/js/contact.js:415-426 | toggling an expanded item collapses every item |
| Faq.ToggleTwice | assets/js/contact.js:415-426 | toggling twice restores the item and leaves the others collapsed |
| Faq.FaqList.constructor | assets/js/contact.js:378-384 | keeps the items' initial state |
| Faq.FaqList.ToggleExpand | assets/js/contact.js:415-437 | the items become the toggled state |
| Faq.FaqList.Clicked | assets/js/contact.js:394-399 | a click on a link does nothing; any other click toggles |
| Counters.FinalText | assets/js/contact.js:545-572 | a counter ends at its number followed by its non-digit suffix, or at "NaN" plus the text when it has no digits |
| Counters.FinalTextValue | assets/js/contact.js:547-548 | the final text has the same numeric value and suffix as the original |
| Counters.FinalTextIdempotent | assets/js/contact.js:547-571 | animating a finished counter again leaves it unchanged |
| Counters.FinalTextWithoutDigits | assets/js/contact.js:547-571 | a counter without digits gains one more "NaN" on each animation |
| Counters.FinalTexts | assets/js/contact.js:545-552 | each counter is animated on its own |
| Counters.CounterBoard.constructor | assets/js/contact.js:510-533 | animates at once only when there are counters and they are visible |
| Counters.CounterBoard.AnimateCounters | assets/js/contact.js:545-552 | every counter reaches its final text |
| Counters.CounterBoard.Scrolled | assets/js/contact.js:521-526 | the first scroll that brings the counters into view animates them, once |
| AutoSave.SaveDraft | assets/js/contact.js:626-642 | saves exactly the form's known fields, and the checkbox |
| AutoSave.Restored | assets/js/contact.js:651-661 | restores each field with a non-empty saved value; sets the checkbox only to checked |
| AutoSave.LoadAfterSave | assets/js/contact.js:626-661 | a non-empty value that was saved comes back |
| AutoSave.EmptyNeverOverwrites | assets/js/contact.js:653 | an empty saved value leaves the field alone |
| AutoSave.SubscribeOnlyWhenChecked | assets/js/contact.js:659-661 | restoring can check the box but never uncheck it |
| AutoSave.RestoreOwnDraft | assets/js/contact.js:626-661 | restoring a page's own draft gives the page back |
| AutoSave.FormAutoSave.constructor | assets/js/contact.js:584-597 | loads and applies a stored draft, with one notice |
| AutoSave.FormAutoSave.SaveData | assets/js/contact.js:626-642 | stores the draft of the page |
| AutoSave.FormAutoSave.Type | assets/js/contact.js:599-605 | typing into a present field sets its value and stores the draft of the edited page |
| AutoSave.FormAutoSave.LoadSavedData | assets/js/contact.js:644-669 | applies a stored draft and posts its notice |
| AutoSave.FormAutoSave.ClearSavedData | assets/js/contact.js:671-673 | removes the stored draft |
| Social.Platform | assets/js/contact.js:493 | the last path segment of the link when it is non-empty, "unknown" otherwise; never empty, never containing '/' |
| Social.PlatformOfPath | assets/js/contact.js:493 | a link ending in "/name" gives "name" |
| Social.PlatformTrailingSlash | assets/js/contact.js:493 | a link ending in '/' gives "unknown" |
| Site.Stored | assets/js/main.js:162 | `localStorage.getItem`: the value under the key, or null |
| Site.ThemeOf | assets/js/main.js:683-685 | `getTheme` says "dark" exactly when the body has dark-mode |
| Site.ThemeToggled | assets/js/main.js:212-223 | the toggle leaves exactly one theme class, the opposite of light, and keeps the other classes |
| Site.ToggledThemeName | assets/js/main.js:215-220 | the stored value is the theme class now on the body |
| Site.ToggleThemeTwice | assets/js/main.js:212-223 | two toggles restore a body with one theme class |
| Site.InitialClasses | assets/js/main.js:162-169 | a saved theme that is one class token replaces the markup's theme classes; one with whitespace removes them and throws before adding it; without one, light-mode is added |
| Site.ClassToken | assets/js/main.js:165 | `classList.add` accepts the value: no ASCII whitespace (space, TAB, LF, FF, CR) in it |
| Site.ThemeInitThrows | assets/js/main.js:163-165 | start-up throws at `classList.add(savedTheme)`: a saved theme is present and is not a class token |
| Site.ThemeNamesAreTokens | assets/js/main.js:162-169 | `light-mode` and `dark-mode` are single class tokens, so a theme the page stored itself never makes start-up throw |
| Site.SpacedThemeStopsStartup | assets/js/main.js:162-169 | a saved `"dark mode"` makes start-up throw and leaves neither theme class on the body |
| Site.InitialOneTheme | assets/js/main.js:162-169 | start-up leaves exactly one theme class exactly when the saved value is a theme class, or when there is none and the markup has no dark-mode |
| Site.ThemeSet | assets/js/main.js:688-692 | `setTheme` leaves one theme class, dark exactly for "dark", and keeps the other classes |
| Site.GetAfterSet | assets/js/main.js:683-692 | `getTheme` after `setTheme(t)` is "dark" for "dark" and "light" for anything else |
| Site.SetThemeEventDisagrees | assets/js/main.js:688-720 | for a value other than "dark" and "light", the page shows light while the event names the value |
| Site.RtlToggled | assets/js/main.js:294-296 | toggles the rtl class and nothing else |
| Site.ToggleRtlTwice | assets/js/main.js:294-297 | two RTL toggles restore the classes |
| Site.RtlLabel | assets/js/main.js:256-257 | the button offers "LTR" exactly while the page is RTL |
| Site.BoolText | assets/js/main.js:297 | the stored flag is "true" exactly for true |
| Site.StoredRtlRestores | assets/js/main.js:250-297 | the stored RTL flag restores the toggled state at the next start-up |
| Site.StoredThemeRestores | assets/js/main.js:162-223 | the stored theme restores the toggled theme at the next start-up |
| Site.Document.constructor | assets/js/main.js:156-162 | the body classes and local storage as the page loads |
| Site.ThemeToggle.constructor | assets/js/main.js:156-209 | applies the saved theme, shows the sun icon for a saved dark theme, and says when icons and body agree; when the saved value throws, the icons keep their markup state and no listener is installed |
| Site.ThemeToggle.Toggle | assets/js/main.js:212-229 | with listeners installed, flips the theme, stores it, updates the icons, and dispatches the theme now shown; without them, changes nothing |
| Site.ThemeToggle.SetTheme | assets/js/main.js:688-721 | sets the theme, stores it, updates the icons, dispatches the raw argument, and returns it |
| Site.RtlToggle.constructor | assets/js/main.js:244-291 | adds rtl exactly when "true" is stored, with a matching label |
| Site.RtlToggle.Toggle | assets/js/main.js:294-304 | flips rtl, stores the flag, updates the label, and dispatches the new state |
| Site.RtlToggle.ToggleFromScript | assets/js/main.js:724-726 | `RetroMarket.toggleRTL` toggles only when the desktop button exists; otherwise nothing changes |
| Hamburger.IconToggled | assets/js/main.js:35-44 | swaps bars and times, keeping the other icon classes |
| Hamburger.IconToggleTwice | assets/js/main.js:35-44 | two swaps restore an icon that shows one glyph |
| Hamburger.IconReset | assets/js/main.js:63-68 | the icon shows bars, keeping the other classes |
| Hamburger.IconOff | assets/js/main.js:63-68 | resets a present icon |
| Hamburger.Flipped | assets/js/main.js:25-32 | `classList.toggle` on a present element |
| Hamburger.Off | assets/js/main.js:59-60 | `classList.remove` on a present element |
| Hamburger.MobileMenu.constructor | assets/js/main.js:16-21 | the elements that exist at start-up |
| Hamburger.MobileMenu.Click | assets/js/main.js:20-52 | flips menu, nav and icon, and locks page scrolling exactly while the menu is open |
| Hamburger.MobileMenu.CloseAll | assets/js/main.js:59-68 | closes menu, nav and icon, and unlocks scrolling |
| Hamburger.MobileMenu.OutsideClick | assets/js/main.js:56-71 | closes only an open menu on a click outside both menu and button |
| Hamburger.MobileMenu.Resize | assets/js/main.js:74-87 | closes everything when the window is wider than 768 |
| Hamburger.MobileMenu.MenuLinkClicked | assets/js/main.js:135-150 | closes menu and icon but not the nav, and unlocks scrolling only if the menu exists |
| Hamburger.MobileMenu.CloseMobileMenu | assets/js/main.js:734-747 | `RetroMarket.closeMobileMenu` closes menu and icon and unlocks scrolling, leaving the nav |
| MobileDropdowns.Flip | assets/js/main.js:101-117 | the clicked toggle flips, with its submenu and arrow |
| MobileDropdowns.Shut | assets/js/main.js:120-130 | another active toggle closes, with its submenu and arrow |
| MobileDropdowns.Clicked | assets/js/main.js:96-131 | the clicked toggle flips and every other one shuts |
| MobileDropdowns.ClickedExclusive | assets/js/main.js:119-130 | after a click at most one toggle is active, and it is the clicked one when it opened |
| MobileDropdowns.ClickTwice | assets/js/main.js:96-131 | a second click restores the clicked toggle, and the others stay shut |
| MobileDropdowns.MobileDropdownList.constructor | assets/js/main.js:93-96 | the toggles as found |
| MobileDropdowns.MobileDropdownList.Click | assets/js/main.js:97-131 | the toggles become the clicked state |
| DesktopDropdowns.Hidden | assets/js/main.js:359-365 | hides a menu |
| DesktopDropdowns.Entered | assets/js/main.js:326-335 | hovering cancels the hide timer and shows that menu only |
| DesktopDropdowns.Left | assets/js/main.js:337-347 | leaving arms the hide timer of that menu only |
| DesktopDropdowns.TimerFired | assets/js/main.js:338-346 | the timer hides that menu only |
| DesktopDropdowns.AllHidden | assets/js/main.js:357-366 | hides every menu |
| DesktopDropdowns.Clicked | assets/js/main.js:350-377 | a click on the nav link flips its menu and hides the others; any other click changes nothing |
| DesktopDropdowns.ClickedAtMostOne | assets/js/main.js:355-374 | after a nav-link click at most one menu is shown |
| DesktopDropdowns.HoverShowsTwo | assets/js/main.js:326-347 | entering, leaving and entering another before the timer shows two menus |
| DesktopDropdowns.DropdownList.constructor | assets/js/main.js:321-324 | the dropdowns as found |
| DesktopDropdowns.DropdownList.MouseEnter | assets/js/main.js:326-335 | the dropdowns become the entered state |
| DesktopDropdowns.DropdownList.MouseLeave | assets/js/main.js:337-347 | the dropdowns become the left state |
| DesktopDropdowns.DropdownList.HideTimerFires | assets/js/main.js:338-346 | the dropdowns become the timer-fired state |
| DesktopDropdowns.DropdownList.HideAll | assets/js/main.js:358-366 | every dropdown is hidden |
| DesktopDropdowns.DropdownList.Click | assets/js/main.js:350-377 | the dropdowns become the clicked state |
| DesktopDropdowns.DropdownList.OutsideClick | assets/js/main.js:381-390 | a click outside every dropdown hides them all |
| ActiveLinks.CurrentFile | assets/js/main.js:397 | the last segment of the path when it is non-empty, "index.html" otherwise; never empty, never containing '/' |
| ActiveLinks.FileOfPath | assets/js/main.js:397 | a path ending in "/name" is the page "name": `/shop/cart.html` is `cart.html` |
| ActiveLinks.DirectoryIsIndex | assets/js/main.js:397 | a path ending in '/' is the index page |
| ActiveLinks.CurrentPage | assets/js/main.js:763-770 | `getCurrentPage` reports the location and its current file |
| ActiveLinks.ExactHrefMatches | assets/js/main.js:407 | a link to the current file itself matches |
| ActiveLinks.Matches | assets/js/main.js:406-407 | a link points at the page when its `href` is present and non-empty and is the file name or contains the file name up to its first dot |
| ActiveLinks.DotFileMatchesEverything | assets/js/main.js:407 | a current file starting with '.' matches every link with an href |
| ActiveLinks.NoHrefNeverMatches | assets/js/main.js:406-407 | a link without an href, or with an empty one, never matches |
| ActiveLinks.MarkedMeaning | assets/js/main.js:405-428 | an index is marked exactly when some matching link lights it or its parent dropdown |
| ActiveLinks.Marked | assets/js/main.js:405-428 | the elements that the matching links among the first n light: the link itself and its parent dropdown's top link |
| ActiveLinks.Clearable | assets/js/main.js:400-402 | the links whose active class is cleared first |
| ActiveLinks.ActiveMeaning | assets/js/main.js:399-428 | after highlighting, an element is active exactly when it was active and was not cleared, or a matching link lights it |
| ActiveLinks.ActiveAfter | assets/js/main.js:399-428 | the active set after highlighting: the earlier one minus the links the clearing query finds, plus the marked ones |
| ActiveLinks.LitLinkActive | assets/js/main.js:407-426 | a matching link and its parent dropdowns end up active |
| ActiveLinks.NavLinks.constructor | assets/js/main.js:396-402 | the links and active classes as found |
| ActiveLinks.NavLinks.HighlightActive | assets/js/main.js:396-429 | the active set becomes the highlighted set for the current file |
| ActiveLinks.NavLinks.ClearActive | assets/js/main.js:400-402 | removes exactly the clearable links from the active set |
| ActiveLinks.NavLinks.MarkCurrent | assets/js/main.js:405-428 | adds exactly the marked elements |
| HeaderScroll.ShowsUnlessScrollingDownLow | assets/js/main.js:820-826 | the header hides exactly when scrolling down past 100 |
| HeaderScroll.Hides | assets/js/main.js:820-826 | the header hides when the page moved down and is past 100 |
| HeaderScroll.AfterScrolls | assets/js/main.js:817-829 | after some scrolls, the last offset is remembered |
| HeaderScroll.LastTwoDecide | assets/js/main.js:817-829 | the header's visibility depends only on the last two offsets |
| HeaderScroll.HeaderOnScroll.constructor | assets/js/main.js:814-815 | starts at offset 0 |
| HeaderScroll.HeaderOnScroll.Scroll | assets/js/main.js:817-829 | one scroll event records `current` as the last offset and hides the header iff it moved down past 100; without a header the handler throws first and nothing changes |
| HeaderScroll.HeaderOnScroll.ScrollThrough | assets/js/main.js:817-829 | a run of scroll events equals the scrolls applied in order |

## Left out

- **Rendering.** Styling, markup built with `innerHTML`, icons as images, CSS transitions and ripple effects are left out. Only the state the scripts read back is modelled.
- **Timers.** Real timers and animation frames are not run. Each one is a method the caller may invoke later, so delays, their order and duplicates are the caller's choice.
- **Numbers.**
  - Chart heights are exact `real` division, not IEEE doubles.
  - Prices are whole cents.
  - `toFixed` and `toLocaleDateString` are not modelled.
  - `parseInt` is exact: it has no precision loss on very long digit strings.
  - `window.pageYOffset` is an integer.
- **`Counters.CounterBoard.AnimateCounters`** models only the final text of each counter, not the intermediate frames or the easing.
- **Local storage.** It is a map that always succeeds. The auto-save draft is a `Draft` value, not JSON text. A stored value that fails to parse is left out, because the map holds only drafts.
- **Contact form submission.** The `catch` path of `handleSubmit` is not modelled, because `submitForm` never rejects. It resolves, or, when a field element is missing, its timer callback throws and the promise never settles (`Contact.ContactForm.SubmissionCompletes`).
- **`Contact.ContactForm.ResetForm`** takes the default field values as parameters, because `form.reset()` restores the markup's defaults.
- **Contact page notifications.** Their removal timers are not modelled: only the notices posted are recorded.
- **Contact page features.** `InteractiveMap` is left out: it creates map markers and shows tooltips, and has no logic beyond rendering. The social links' ripple and hover effects are left out for the same reason. Only the platform name from `trackClick` is modelled, and its `console.log` output is left out.
- **Seller dashboard features.** `QuickActions` (`assets/js/seller-dashboard.js:404-538`) is not part of this model: its buttons only open fixed modals or post fixed notifications. The dashboard's start-up (`assets/js/seller-dashboard.js:771-951`) only injects styles and creates the objects modelled here.
- **`main.js` features.** These are left out:
  - back-to-top and page transitions, which are visual effects;
  - keyboard navigation, touch handling and scroll animations, which never start because initialisation throws at `initScanlines`;
  - `RetroMarket.toggleScanlines` and `RetroMarket.scrollToTop`, which only forward a click or call `window.scrollTo`;
  - the page-load animation, the empty `beforeunload` handler, the error logger and the `tab-hidden` class set on visibility changes;
  - `RetroMarket.getRTL`, which reads whether the body has the `rtl` class. The model reads that membership directly, and the `Site.RtlToggle` contracts state it.
- **`Site.ThemeToggle`, `Site.RtlToggle`:** the desktop and mobile buttons share one icon state and one caption in the model. The script updates them together.
- **Start-up after a throwing saved theme.** The model records the throw in `Site.ThemeToggle.wired` but does not tie the other `main.js` objects to it: `Site.RtlToggle`, `DesktopDropdowns.DropdownList` and `ActiveLinks.NavLinks` are modelled as if start-up reached them, and a caller must not construct them on a page whose saved theme holds whitespace.
- **`DesktopDropdowns.DropdownList.MouseLeave`:** the model keeps one pending timer per dropdown. Leaving twice without entering in between leaves an earlier timer running, which `clearTimeout` can no longer reach. That orphan timer is not modelled.
- Text.LowerChar, Text.Lower: only the ASCII capitals A to Z are lowered. JavaScript's `toLowerCase` lowers every Unicode capital (`Ñ` to `ñ`, the Kelvin sign U+212A to `k`), and its full case mapping table is not modelled.
- Chart.SalesChart.ButtonClicked: inherits that restriction. A caption with a non-ASCII capital records a different `currentPeriod` from the script's (`AÑO` gives `aÑo`, not `año`), and a caption such as `WEE` followed by the Kelvin sign renders nothing here where the script renders the week series.
- **`Chart.SalesChart.constructor`** models only a page that has the chart container. Without one, the script's constructor returns at once (`assets/js/seller-dashboard.js:123`), and that empty object is not modelled.
- Chart.SalesChart.ButtonClicked: reads the caption of the button itself. The script reads `e.target.textContent`, and `e.target` can be an element nested inside the button (`assets/js/seller-dashboard.js:135-136`). The model does not capture a click on such a child, which reads the child's text and marks the child active.
- **`Orders.OrderRow`** holds one action button per row. `processOrder` relabels only the first `.btn-small` of the row (`assets/js/seller-dashboard.js:228`), so a row with several such buttons is not modelled.
- **Logging.** `console.log` and `console.error` output is left out.
