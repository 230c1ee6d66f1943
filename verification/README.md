# SG44 conference website: the logic behind the pages

The SG44 conference website is a Next.js front end over a Payload CMS back
end. Most of it is page markup, but a few pieces carry small self-contained
logic. This project models those pieces as pure Dafny functions over
immutable records and proves what they guarantee:

- **CSV export** (`CsvExport`). The admin-only endpoint turns registrations
  into an 18-column CSV text. It writes an unquoted header line, then one line
  per registration with every cell in double quotes. Line breaks in the
  remarks become spaces, and a byte-order mark goes in front.
- **Registration statistics** (`Dashboard`). The admin dashboard folds the
  first 1000 registrations into four counters: paid, day-1 meal, day-2 meal
  and banquet.
- **Homepage news** (`HomepageNews`). The homepage shows up to three
  published news items. Items flagged for the homepage come first, newest
  first. The newest published items not already chosen fill any remaining
  slots.
- **User access control** (`Users`). These are the `users` collection's
  access rules, the field-level rules of `role`, and the required-field
  schema.
- **Payment-status cell** (`PaymentStatusCell`). The admin list cell that
  edits a registration's payment status is modelled as a small state machine.
- **Timeline** (`Timeline`). The homepage timeline's title formatting, the
  event scrolled to on load, the scrollbar progress, thumb and content
  dragging, and the wheel rule.
- **Navigation bar** (`Navbar`). The mobile menu, its single expandable
  submenu, the route-change reset, the scroll threshold and the avatar
  letter.

Shared modules:

- `Values`: `Option`, `Result`, and a `Field` that is undefined, null or a
  string. With it, `x || ''` and template-literal interpolation (`"null"`,
  `"undefined"`) follow JavaScript.
- `Text`: `split`/`join` with a one-character separator, and decimal
  integers.
- `Seqs`: `slice(0, n)` and filtering.
- `Registrations`: the registration record the export and the dashboard
  read.

The data layer is an in-memory list. A `payload.find` with `where`, `sort`
and `limit` is modelled as a filter, then a stable newest-first sort, then
taking the first `limit` items. A network fetch is modelled as its outcome:
an ok response, a failed response, or a thrown error.

Notes on faithfulness:

- The export does not escape double quotes inside cells.
  `CsvExport.QuotesAreAmbiguous` shows two different registrations that give
  the same line.
- With participant role `other` and no free-text role, the role cell holds
  the text `null` or `undefined`, as interpolation produces.
- The record shape follows the export endpoint. `src/collections/Registrations.ts`
  is commented out and is not part of this model.
- No entry of the navigation bar currently has a submenu, so no mobile
  submenu can ever open (`Navbar.NoSubMenuEverOpens`).

## Model

| member | source | states |
|---|---|---|
| `CsvExport.Export` | src/endpoints/exportCsvEndpoint.ts:3-87 | 403 with the forbidden message exactly when the caller is not an admin; 500 when the query throws; otherwise status 200, CSV content type, `registrations.csv` attachment, body = BOM U+FEFF followed by the content of the first 5000 documents |
| `CsvExport.CollapseLineBreaks` | src/endpoints/exportCsvEndpoint.ts:61 | the remarks text after replacement holds no CR or LF and is no longer than before |
| `CsvExport.CollapseKeepsPlainText` | src/endpoints/exportCsvEndpoint.ts:61 | text without line breaks is left unchanged, so the replacement is idempotent |
| `CsvExport.CollapseConcat` | src/endpoints/exportCsvEndpoint.ts:61 | the replacement works piece by piece wherever the text is cut, except between the CR and LF of one pair (the one cut where the results differ, see `CsvExport.CrLfIsOneBreak`), so every character other than a line break is kept in place |
| `CsvExport.CollapseUnits` | src/endpoints/exportCsvEndpoint.ts:61 | CR LF, lone LF and lone CR each become exactly one space; any other character stays |
| `CsvExport.AmountCell` | src/endpoints/exportCsvEndpoint.ts:50 | the amount cell is a decimal integer that parses back to the amount, and to 0 when the amount is missing |
| `CsvExport.ParticipantRoleCell` | src/endpoints/exportCsvEndpoint.ts:54 | role `other` gives the free-text role (the text "null"/"undefined" when it is missing); any other role gives the role or "" |
| `CsvExport.Row` | src/endpoints/exportCsvEndpoint.ts:43-63 | exactly 18 cells, as many as headers, in header order: id, each text field or "" when missing, amount, participant role, collapsed remarks, creation time |
| `CsvExport.QuoteAll` | src/endpoints/exportCsvEndpoint.ts:69 | every data cell becomes `"` + cell + `"`, with no escaping |
| `CsvExport.RowRoundTrip` | src/endpoints/exportCsvEndpoint.ts:67-70 | a row with no comma in any cell splits back at commas, quotes removed, into its 18 cells |
| `CsvExport.LineCount` | src/endpoints/exportCsvEndpoint.ts:43-70 | when no cell other than remarks holds a line feed, the content has exactly the header line plus one line per document |
| `CsvExport.HeaderLineSingle` | src/endpoints/exportCsvEndpoint.ts:21-40 | the header line holds no line feed |
| `CsvExport.RowLineSingle` | src/endpoints/exportCsvEndpoint.ts:61-69 | a document whose only line breaks are in the remarks gives a single line |
| `CsvExport.ExportRoundTrip` | src/endpoints/exportCsvEndpoint.ts:7-82 | an admin's export of readable documents reads back, below the header line, into exactly each document's 18 cells in order |
| `CsvExport.QuotesAreAmbiguous` | src/endpoints/exportCsvEndpoint.ts:69 | since embedded quotes are not escaped, two different registrations can produce the same line |
| `Dashboard.ComputeStats` | src/components/payload/RegistrationDashboard.tsx:24-33 | each counter equals the number of documents whose status is exactly "paid" or whose answer is exactly "yes"; every counter is at most the number of documents; no documents give all zeros |
| `Dashboard.ReduceAddsCounts` | src/components/payload/RegistrationDashboard.tsx:24-33 | the reducer fold adds the per-field counts of the scanned documents to its start value |
| `Dashboard.StatsConcat` | src/components/payload/RegistrationDashboard.tsx:24-33 | the statistics of a concatenation are the component-wise sum of the parts' statistics |
| `Dashboard.StatsPermutation` | src/components/payload/RegistrationDashboard.tsx:24-33 | the statistics do not depend on the order of the documents |
| `Dashboard.LoadStats` | src/components/payload/RegistrationDashboard.tsx:17-41 | statistics are set only from an ok response and count the first 1000 documents; a failed response or thrown error leaves them unset |
| `Dashboard.OnlyFirstThousandCounted` | src/components/payload/RegistrationDashboard.tsx:19 | documents beyond the first 1000 never change the statistics |
| `HomepageNews.Find` | src/components/sections/home/NewsSection.tsx:14-22 | the query result has min(limit, matches) items, all matching, newest first, drawn from the collection, and no matching item left out is newer than one returned |
| `HomepageNews.TopUpLimit` | src/components/sections/home/NewsSection.tsx:27-30 | the fill query runs exactly when fewer than 3 items are chosen, and asks for the missing number |
| `HomepageNews.HomepageNews` | src/components/sections/home/NewsSection.tsx:14-42 | at most 3 items, all published and from the collection; the flagged items first, newest first, then the fill items, newest first; no fill item has the id of a flagged one |
| `HomepageNews.TopUpShape` | src/components/sections/home/NewsSection.tsx:28-38 | fill items are published, exclude the chosen ids and never overfill the block |
| `HomepageNews.EnoughFlagged` | src/components/sections/home/NewsSection.tsx:14-27 | with three or more flagged published items the fill query does not run and the block is the 3 newest flagged ones |
| `HomepageNews.NoDuplicates` | src/components/sections/home/NewsSection.tsx:35 | with unique ids in the collection, no item is shown twice |
| `HomepageNews.FullWhenEnoughPublished` | src/components/sections/home/NewsSection.tsx:14-42 | with unique ids and at least three published items, exactly 3 items are shown |
| `HomepageNews.ChosenAtMost` | src/components/sections/home/NewsSection.tsx:35 | at most as many published items carry a chosen id as there are chosen ids |
| `Users.AdminPanelAccess` | src/collections/Users.ts:17 | the admin panel is open exactly to signed-in admins |
| `Users.CollectionAccess` | src/collections/Users.ts:19-32 | create is open to all; delete all-or-nothing by admin role; read and update: everything for admins, only their own document for other users, nothing for anonymous callers |
| `Users.ReadUpdateScope` | src/collections/Users.ts:21-30 | read and update reach a document exactly when the caller is an admin or that user |
| `Users.CreateOpenDeleteAdminOnly` | src/collections/Users.ts:19-32 | anyone may create a user, only admins may delete one |
| `Users.RoleFieldAccess` | src/collections/Users.ts:99-103 | `role` is readable by anyone, never writable on create, writable on update only by admins |
| `Users.ParseRole` | src/collections/Users.ts:90-94 | a stored role value reads back into exactly the option with that value |
| `Users.Violations` | src/collections/Users.ts:36-97 | a user violates no field rule exactly when the required texts are non-empty and gender is absent or one of its options |
| `Users.CreateUser` | src/collections/Users.ts:19-101 | creation succeeds exactly when the required fields are present and gender is valid; the new user is valid, has the default role `user` and carries every sent field as sent; a failure names exactly the fields the requested document violates |
| `Users.CreateIgnoresRole` | src/collections/Users.ts:95-101 | whatever role a create request carries, the result is the same as without it |
| `Users.Merge` | src/collections/Users.ts:35-84 | an update sets every field the request carries to the sent value and keeps every other field as stored |
| `Users.UpdateUser` | src/collections/Users.ts:26-103 | refused exactly when the caller is neither admin nor the user; otherwise succeeds exactly when the merged profile is valid and no admin asked for an unknown role; the result is the merged profile; a non-admin never changes the role, an admin's role value is applied; a failure names exactly the violated fields plus `role` for an unknown role |
| `Users.RoleChangeNeedsAdmin` | src/collections/Users.ts:102 | a successful update that changes the role was made by an admin |
| `PaymentStatusCell.StatusDomain` | src/components/payload/PaymentStatusCell.tsx:5-17 | the select offers exactly pending, paid and failed, each status naming its own option |
| `PaymentStatusCell.Current` | src/components/payload/PaymentStatusCell.tsx:30 | the styling option is the one whose value matches, or the pending option when none does |
| `PaymentStatusCell.Init` | src/components/payload/PaymentStatusCell.tsx:26-27 | the cell starts saved with the stored status, or pending when there is none |
| `PaymentStatusCell.Change` | src/components/payload/PaymentStatusCell.tsx:32-35 | a selection sets the value to the chosen status and marks the cell unsaved |
| `PaymentStatusCell.Click` | src/components/payload/PaymentStatusCell.tsx:37-113 | a request is sent exactly when the button is shown (unsaved) and enabled (no save in flight), and it carries the current value |
| `PaymentStatusCell.ApplyPatch` | src/components/payload/PaymentStatusCell.tsx:40-44 | the request changes the payment status and nothing else of the registration |
| `PaymentStatusCell.Settle` | src/components/payload/PaymentStatusCell.tsx:45-52 | an ok response marks the cell saved; a failed response or error keeps saved as it was; the value is never changed |
| `PaymentStatusCell.SettleChecked` | src/components/payload/PaymentStatusCell.tsx:45-52 | an ok response marks the cell saved only if the value is still the one sent |
| `PaymentStatusCell.StepTouchesOnlyStatus` | src/components/payload/PaymentStatusCell.tsx:37-53 | whatever happens on the screen, the server changes at most the payment status, and only to the value a request carried |
| `PaymentStatusCell.InitConsistent` | src/components/payload/PaymentStatusCell.tsx:26-27 | a freshly loaded cell agrees with the stored status |
| `PaymentStatusCell.StepKeepsConsistentWithoutRace` | src/components/payload/PaymentStatusCell.tsx:32-53 | as written, a cell that says saved shows the stored status, as long as the value is not changed during a save |
| `PaymentStatusCell.StaleSaveMarkedSaved` | src/components/payload/PaymentStatusCell.tsx:37-53 | as written, changing the status while a save is in flight and then receiving ok leaves the cell saying saved with a value the server does not store |
| `PaymentStatusCell.StepCheckedKeepsConsistent` | src/components/payload/PaymentStatusCell.tsx:32-53 | with the checked settle, every event keeps "saved" meaning "shows the stored status" |
| `PaymentStatusCell.StaleSaveStaysUnsaved` | src/components/payload/PaymentStatusCell.tsx:37-53 | with the checked settle, the same events leave the change unsaved with the button shown |
| `Timeline.FormatTitle` | src/components/sections/home/TimelineSection.tsx:156-167 | the rendered text of the formatted title is the title itself, every line break directly follows a 及, and there are as many line breaks as 及 in the title |
| `Timeline.FormatPartsContent` | src/components/sections/home/TimelineSection.tsx:157-164 | the fragments render the parts joined by 及, with one line break between neighbouring parts |
| `Timeline.FormatPlainTitle` | src/components/sections/home/TimelineSection.tsx:157-166 | a title without 及 renders as itself on one line |
| `Timeline.NearestEventIndex` | src/components/sections/home/TimelineSection.tsx:136 | the index of the first event not yet past, and -1 exactly when every event is past |
| `Timeline.CenterScroll` | src/components/sections/home/TimelineSection.tsx:142-145 | the scroll position puts the item's middle in the container's middle |
| `Timeline.InitialScroll` | src/components/sections/home/TimelineSection.tsx:135-153 | a scroll happens exactly when there is an upcoming event whose item is rendered, and it centres that item |
| `Timeline.DefaultTimelineStartsAtFirst` | src/lib/constants.ts:104-115 | on the built-in timeline no event is past, so the first item is centred |
| `Timeline.Progress` | src/components/sections/home/TimelineSection.tsx:43-51 | progress times the scroll range is the scroll position when there is a range, 0 otherwise, and it lies in [0,1] for an in-range position |
| `Timeline.Clamp01` | src/components/sections/home/TimelineSection.tsx:74 | the clamped ratio lies in [0,1], equals the input exactly when the input does, and is 0 below and 1 above |
| `Timeline.DragRatio` | src/components/sections/home/TimelineSection.tsx:66-74 | the cursor's fraction of the track, 0 left of it, 1 right of it, proportional in between |
| `Timeline.DragScroll` | src/components/sections/home/TimelineSection.tsx:60-79 | the thumb drag scrolls within the scroll range, to 0 left of the track and to the end right of it |
| `Timeline.DragThenProgress` | src/components/sections/home/TimelineSection.tsx:46-78 | after a thumb drag the progress shown is the cursor's clamped fraction of the track |
| `Timeline.DragScrollMonotone` | src/components/sections/home/TimelineSection.tsx:71-78 | moving the cursor right never scrolls the thumb drag left |
| `Timeline.ContentDrag` | src/components/sections/home/TimelineSection.tsx:106-132 | the scroll moves opposite to the cursor by exactly the cursor's offset from the drag start |
| `Timeline.ContentDragFollowsCursor` | src/components/sections/home/TimelineSection.tsx:106-132 | returning the cursor to the start restores the start position; moving it d further right scrolls d less |
| `Timeline.Wheel` | src/components/sections/home/TimelineSection.tsx:24-32 | the page scroll is prevented exactly for a non-zero vertical delta without shift, and then the timeline moves by that delta; otherwise it stays |
| `Timeline.WheelAdds` | src/components/sections/home/TimelineSection.tsx:26-31 | without shift a run of wheel events scrolls by the sum of the deltas; with shift none scrolls |
| `Navbar.ScrolledAt` | src/components/layout/Navbar.tsx:104-106 | the bar looks scrolled exactly when the page is more than 20 pixels down |
| `Navbar.ToggleSubMenu` | src/components/layout/Navbar.tsx:121-127 | toggling the open submenu closes it, toggling any other opens exactly that one, so at most one is shown |
| `Navbar.ToggleTwice` | src/components/layout/Navbar.tsx:121-127 | toggling the same submenu twice from closed (or from itself open) restores the state, and closes any other submenu |
| `Navbar.RouteChanged` | src/components/layout/Navbar.tsx:111-113 | a route change closes the menu and the submenu and keeps the scrolled flag |
| `Navbar.Hamburger` | src/components/layout/Navbar.tsx:246 | the hamburger flips the menu and changes nothing else |
| `Navbar.HamburgerTwice` | src/components/layout/Navbar.tsx:246 | pressing the hamburger twice restores the bar |
| `Navbar.CloseMenu` | src/components/layout/Navbar.tsx:278-338 | a mobile link or logout closes the menu, hiding every submenu, and changes nothing else |
| `Navbar.StepKeepsValid` | src/components/layout/Navbar.tsx:259-300 | every possible event keeps the expanded submenu on an entry that has one |
| `Navbar.NoSubMenuEverOpens` | src/components/layout/Navbar.tsx:23-93 | with the listed entries, none of which has a submenu, no submenu ever opens |
| `Navbar.AvatarInitial` | src/components/layout/Navbar.tsx:199-307 | the avatar letter is one character: the name's first one, or "U" when the name is missing or empty |

## Left out

- Date formatting (`toISOString`, `toLocaleString('zh-TW')`) is left out. Payment and creation dates are opaque strings already in their final form, so the payment-date cell is `paymentDate || ''`.
- The export's `console.error` logging and the HTTP response objects are left out. A response is a status, headers and a body.
- Which documents the database returns, and in what order, is left out. A query is a filter, then a stable newest-first sort, then a limit. The database's order among equal dates is unspecified.
- `CsvExport.AmountCell` ignores JavaScript number rendering of non-integers and of magnitudes from 1e21 up. Amounts are modelled as integers.
- `CsvExport.ParseLine` is a reader for lines without commas inside cells. It is not a general CSV parser; the export's own format cannot be parsed in general (see `CsvExport.QuotesAreAmbiguous`).
- `Timeline.Progress`, `Timeline.DragScroll` and the other timeline arithmetic use exact reals, not IEEE doubles, so rounding is not modelled.
- The browser clamping `scrollLeft` into the scroll range is not modelled, because it belongs to the DOM and not to the code.
- `Timeline.DragRatio`, `Timeline.DragScroll`: these require a track of positive width. A drag starts with a press on the track, so the track is rendered; the zero-width case, a division by zero giving IEEE infinities, is not modelled.
- DOM geometry, event listener registration, React rendering, styling and the `smooth` scroll behaviour are left out. Geometry is given as numbers.
- `Navbar.AvatarInitial` takes the first code point, not the first UTF-16 code unit of `charAt(0)`. The two differ only for characters outside the Basic Multilingual Plane.
- `Users.CreateUser`, `Users.UpdateUser`: `birthday` is an opaque text that must be non-empty. The `date` field type's check that the text is a valid date is not modelled.
- Authentication fields of users (email, password, verification) belong to the framework and are left out, as is the framework's way of applying an access-query result.
- The session refresh on route change (`refreshUser`) and `logout` itself are outside the bar's state and are left out.
- Status `alert` messages of the payment-status cell are left out; they change no state.
- The ticket price table, amount derivation, account-number format, dietary rules and one-registration-per-user rule have no implementing code among the modelled files and are left out.
- `src/collections/Registrations.ts` and `src/collections/Submissions.ts` are commented out and not registered; they are not part of this model.

## Findings

| source | as written | input that shows it | evidently intended | confidence | as-written member | corrected member |
|---|---|---|---|---|---|---|
| src/components/payload/PaymentStatusCell.tsx:37-53 | an ok response to a save always sets `saved` to true, even if the status select was changed while the request was in flight (the select is not disabled during a save) | stored "pending"; choose "paid", press confirm; choose "failed" before the response; the response is ok | the cell says saved only when it shows what the server stores, so a change made during the save stays unsaved with its confirm button shown | medium, not executed | `PaymentStatusCell.StaleSaveMarkedSaved` | `PaymentStatusCell.StepCheckedKeepsConsistent` |
