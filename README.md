# Warranty-letter front end, modelled in Dafny

The application lets clients request *warranty letters* (financial guarantee
documents). An administrator moves each request between four statuses, and
anyone can look a letter up by its number. All of its logic sits in five
Next.js pages. They talk to a hosted database and a hosted identity service.
This project models that logic against an in-memory store and proves what
each page promises.

- `common.dfy` (`Common`): the `warranties` row and its four-valued status,
  the profile columns the admin list joins in, routes and toasts, the
  hard-coded admin predicate, and `Filter`, a model of `Array.prototype.filter`.
- `text.dfy` (`Text`): ASCII `trim`, `toLowerCase` and `includes`, decimal
  numerals (`toString`) and `padStart`, with their lemmas.
- `store.dfy` (`Store`): `WarrantyStore`, a class holding the table's rows
  and the owners' profiles. It stands in for the backend's select, update and
  insert. A backend failure is an argument, and so are the ids and
  timestamps the backend assigns.
- `admin_list.dfy` (`AdminList`): the admin status filter, the free-text
  search and the per-status counts, as pure functions.
- `admin_console.dfy` (`AdminConsole`): the admin page as a class. The page
  re-runs the filter whenever its inputs change; here that is the class
  invariant `Valid()`, and every method keeps it.
- `public_lookup.dfy` (`PublicLookup`): the public lookup by number, the
  redacted eight-field view and the status labels.
- `new_warranty.dfy` (`NewWarranty`): the warranty-number generator, its
  parser and the form submission that inserts a pending warranty.
- `sign_up.dfy` (`SignUp`), `sign_in.dfy` (`SignIn`): the sign-up checks and
  the admin-or-client routing after login.
- `lifecycle.dfy` (`Lifecycle`): a warranty is created, confirmed and then
  looked up.

Where a page calls the identity service (`getCurrentUser`, `signIn`,
`signUp`), the model takes that call's result as an argument. Where a page
reads `Date.now()` or `Math.random()`, the model takes the value as an
argument: a natural number of milliseconds, and a real in [0, 1).

## Model

| member | source | states |
|---|---|---|
| Common.StatusName | src/lib/supabase.ts:33 | each of the four statuses is stored as its own string, and none of them is `'all'` |
| Common.StatusNameInjective | src/app/admin/page.tsx:28 | two statuses have the same name exactly when they are the same status |
| Common.MessageOr | src/app/admin/page.tsx:129 | `error.message \|\| fallback` gives a non-empty message itself, the fallback when the message is empty, and so never an empty text when the fallback is not empty |
| Common.FilterSpec | src/app/admin/page.tsx:101 | `filter` keeps, in order, every element that satisfies the predicate, each as often as it occurs, and nothing else |
| Text.TrimStartSuffix | src/app/consultar/page.tsx:65 | dropping leading whitespace keeps a suffix and drops only whitespace |
| Text.TrimStartFirst | src/app/consultar/page.tsx:65 | after dropping leading whitespace, the text does not start with whitespace |
| Text.TrimEndPrefix | src/app/consultar/page.tsx:65 | dropping trailing whitespace keeps a prefix and drops only whitespace |
| Text.TrimEndLast | src/app/consultar/page.tsx:65 | after dropping trailing whitespace, the text does not end with whitespace |
| Text.TrimProperties | src/app/consultar/page.tsx:65 | the trimmed text is empty exactly when the input is all whitespace, and otherwise neither starts nor ends with whitespace |
| Text.TrimInfix | src/app/consultar/page.tsx:78 | the trimmed key is a piece of the typed text |
| Text.LowerProperties | src/app/admin/page.tsx:106 | lower-casing keeps the length, leaves no upper-case letter and is idempotent |
| Text.ContainsIff | src/app/admin/page.tsx:106 | `includes` holds exactly when the needle occurs at some position of the text |
| Text.ContainsEmpty | src/app/admin/page.tsx:104 | every text includes the empty string |
| Text.ToDecimal | src/app/dashboard/nova-garantia/page.tsx:45 | `toString` of a natural number gives at least one digit, all decimal, with no leading zero |
| Text.ParseToDecimal | src/app/dashboard/nova-garantia/page.tsx:45 | reading the decimal numeral back gives the number |
| Text.DecimalLength | src/app/dashboard/nova-garantia/page.tsx:45 | a number has at most k digits exactly when it is below 10^k |
| Text.ParseInjective | src/app/dashboard/nova-garantia/page.tsx:45 | two digit strings of equal length with equal value are equal |
| Text.PadStartSpec | src/app/dashboard/nova-garantia/page.tsx:46 | `padStart` leaves a long enough text alone and otherwise prefixes the pad character up to the target length |
| Text.ParseLeadingZeros | src/app/dashboard/nova-garantia/page.tsx:46 | zero padding does not change the value read back |
| Store.Stored | src/lib/supabase.ts:39 | an inserted row carries the supplied columns plus the backend-assigned id and timestamps |
| Store.SetStatus | src/app/admin/page.tsx:118-121 | the update changes only the status column, and only of the rows whose id matches |
| Store.SetStatusUnknownId | src/app/admin/page.tsx:121 | an id that no row carries leaves the table unchanged |
| Store.SetStatusIdempotent | src/app/admin/page.tsx:120 | repeating a status update changes nothing more |
| Store.SetStatusToCurrent | src/app/admin/page.tsx:120 | setting the status a row already has leaves the table unchanged |
| Store.SetStatusUnguarded | src/app/admin/page.tsx:355-389 | any row can be given any status, whatever its current one |
| Store.SetStatusKeepsNumbers | src/app/admin/page.tsx:120 | a status update never changes a warranty number |
| Store.Join | src/app/admin/page.tsx:76-86 | the admin select returns every row once, in table order, with its owner's profile when there is one |
| Store.WarrantyStore.Select | src/app/admin/page.tsx:76-86 | the select returns one warranty per stored row |
| Store.WarrantyStore.UpdateStatus | src/app/admin/page.tsx:118-123 | on success the table becomes `SetStatus` of the old table; on failure it is unchanged and the error is returned |
| Store.WarrantyStore.Insert | src/app/dashboard/nova-garantia/page.tsx:57-71 | on success exactly the new row is appended; a failure or a taken id leaves the table unchanged and reports an error |
| AdminList.StatusStepSpec | src/app/admin/page.tsx:100-102 | the status step keeps, in order, exactly the warranties whose status passes the filter, as often as loaded |
| AdminList.SearchStepSpec | src/app/admin/page.tsx:104-111 | the search step keeps, in order, exactly the warranties the term matches, as often as loaded; an empty term keeps all |
| AdminList.FilterWarrantiesSpec | src/app/admin/page.tsx:97-114 | the shown list is a subsequence of the loaded list; it holds exactly the warranties that pass the status step and the search, each as often as loaded |
| AdminList.ShowAllShowsEverything | src/app/admin/page.tsx:100 | with the filter on `'all'` and no search term, every loaded warranty is shown |
| AdminList.UnknownFilterShowsNothing | src/app/admin/page.tsx:100-102 | a filter value that is neither `'all'` nor a status name shows nothing |
| AdminList.EmptyTermMatches | src/app/admin/page.tsx:104 | an empty term matches every warranty, so skipping the search step changes nothing |
| AdminList.MatchesIgnoresTermCase | src/app/admin/page.tsx:105-110 | the search ignores the letter case of the term |
| AdminList.FilterExample | src/app/admin/page.tsx:97-114 | with records A1 (pending) and B2 (issued), the filter `'issued'` shows exactly [B2], and the search "a1" finds A1 |
| AdminList.SubsequenceTransitive | src/app/admin/page.tsx:98-111 | filtering a filtered list still keeps the original order |
| AdminList.ComputeStats | src/app/admin/page.tsx:163-169 | the total is the list length, and no count exceeds it |
| AdminList.StatsAddUp | src/app/admin/page.tsx:163-169 | the pending, confirmed, issued and rejected counts add up to the total |
| AdminList.CountIsFilteredLength | src/app/admin/page.tsx:165-168 | each count equals the length of the list the status filter shows for that status |
| AdminConsole.AdminGate | src/app/admin/page.tsx:57-68 | only the exact admin address gets in; any other signed-in user goes to `/dashboard`; no user goes to `/login` |
| AdminConsole.AdminPage.constructor | src/app/admin/page.tsx:41-47 | the page starts loading, with empty lists, no selection, no search term and the filter on `'all'` |
| AdminConsole.AdminPage.CurrentStats | src/app/admin/page.tsx:163-169 | the counters shown add up to the number of loaded warranties |
| AdminConsole.AdminPage.CheckUser | src/app/admin/page.tsx:57-72 | a non-admin is redirected and nothing is loaded; the admin is recorded and the warranties are loaded |
| AdminConsole.AdminPage.LoadWarranties | src/app/admin/page.tsx:74-95 | on success the list becomes the store's select; on failure it stays; loading ends either way; the shown list is refiltered |
| AdminConsole.AdminPage.SetSearchTerm | src/app/admin/page.tsx:236 | a new search term refilters the shown list and changes nothing else |
| AdminConsole.AdminPage.SetStatusFilter | src/app/admin/page.tsx:242 | a new status filter refilters the shown list and changes nothing else |
| AdminConsole.AdminPage.OpenDetails | src/app/admin/page.tsx:301 | opening a warranty selects it and changes nothing else |
| AdminConsole.AdminPage.UpdateWarrantyStatus | src/app/admin/page.tsx:116-131 | success updates the one row in the store, toasts, reloads and clears the selection; failure changes neither the store nor the lists and toasts the error |
| AdminConsole.ReloadShowsNewStatus | src/app/admin/page.tsx:116-127 | after an update and a reload, the updated warranty shows the new status and every number is unchanged |
| PublicLookup.View | src/app/consultar/page.tsx:77 | the public view copies the eight selected columns of the row |
| PublicLookup.ViewHidesInternals | src/app/consultar/page.tsx:14-23 | the view does not depend on id, owner or timestamps, so it cannot reveal them |
| PublicLookup.SelectSingleSound | src/app/consultar/page.tsx:75-79 | a found warranty is the view of the one row whose number equals the key exactly; no other row carries that number |
| PublicLookup.SelectSingleDuplicate | src/app/consultar/page.tsx:75-83 | a number carried by two rows is never found, because `single()` refuses more than one match |
| PublicLookup.SelectSingleComplete | src/app/consultar/page.tsx:75-79 | a number carried by exactly one row is found, with that row's view |
| PublicLookup.SelectSingleMissing | src/app/consultar/page.tsx:75-79 | a number that no row carries is not found |
| PublicLookup.LabelsDistinct | src/app/consultar/page.tsx:25-54 | every status has a non-empty label, and no two statuses share one |
| PublicLookup.SearchResult | src/app/consultar/page.tsx:81-90 | one match shows its view; no match or a returned error sets not-found; a throw only toasts |
| PublicLookup.LookupPage.constructor | src/app/consultar/page.tsx:57-60 | the page starts with an empty field, no result, not loading and not-found off |
| PublicLookup.LookupPage.SetWarrantyNumber | src/app/consultar/page.tsx:154 | typing changes only the field |
| PublicLookup.LookupPage.HandleSearch | src/app/consultar/page.tsx:62-94 | a blank field only toasts; otherwise the result comes from the trimmed key and loading is off afterwards |
| NewWarranty.ClockDigits | src/app/dashboard/nova-garantia/page.tsx:45 | the clock part has one to eight characters, all digits |
| NewWarranty.ClockDigitsValue | src/app/dashboard/nova-garantia/page.tsx:45 | the clock part reads back as the clock reading modulo 10^8 |
| NewWarranty.ClockDigitsLength | src/app/dashboard/nova-garantia/page.tsx:45 | the clock part has exactly eight digits when the clock is at least 10^7 |
| NewWarranty.RandomDraw | src/app/dashboard/nova-garantia/page.tsx:46 | the floored random draw lies in [0, 999] |
| NewWarranty.RandomDigitsRoundTrip | src/app/dashboard/nova-garantia/page.tsx:46 | the padded draw is exactly three digits and reads back as the draw |
| NewWarranty.GenerateWarrantyNumber | src/app/dashboard/nova-garantia/page.tsx:44-48 | every generated number starts with `TG` |
| NewWarranty.GeneratedNumberRoundTrip | src/app/dashboard/nova-garantia/page.tsx:44-48 | with an eight-digit clock, the number is 13 characters and parses back to (clock mod 10^8, draw) |
| NewWarranty.GeneratedNumberRepeats | src/app/dashboard/nova-garantia/page.tsx:44-48 | clock readings 10^8 ms apart with the same draw give the same number, so numbers are not unique |
| NewWarranty.InsertRecord | src/app/dashboard/nova-garantia/page.tsx:59-69 | the insert is owned by the user, copies the form's fields verbatim and always has status pending |
| NewWarranty.NewWarrantyPage.constructor | src/app/dashboard/nova-garantia/page.tsx:20-29 | the page starts without a user, not loading, with an empty form |
| NewWarranty.NewWarrantyPage.CheckUser | src/app/dashboard/nova-garantia/page.tsx:35-42 | no user goes to `/login`; otherwise the user is recorded |
| NewWarranty.NewWarrantyPage.SetForm | src/app/dashboard/nova-garantia/page.tsx:129 | editing changes only the form |
| NewWarranty.NewWarrantyPage.HandleSubmit | src/app/dashboard/nova-garantia/page.tsx:50-80 | success appends the pending record and goes to `/dashboard`; no user or a store error toasts and stays; loading is off afterwards |
| SignUp.Validate | src/app/cadastro/page.tsx:29-37 | a form passes exactly when the passwords match and are at least six long |
| SignUp.MismatchReportedFirst | src/app/cadastro/page.tsx:29-37 | a mismatch is reported whatever the length; the length is reported only for matching passwords |
| SignUp.SignUpPage.constructor | src/app/cadastro/page.tsx:16-24 | the page starts with an empty form, no calls and not loading |
| SignUp.SignUpPage.SetForm | src/app/cadastro/page.tsx:81 | editing changes only the form |
| SignUp.SignUpPage.HandleSubmit | src/app/cadastro/page.tsx:26-50 | a rejected form toasts its first failing check and makes no call; an accepted one calls `signUp(email, password, fullName, companyName)`, goes to `/login` on success and toasts on failure |
| SignIn.LoginRoute | src/app/login/page.tsx:31-37 | a user goes to `/admin` exactly when the address is the admin one, and never back to `/login` |
| SignIn.LoginAgreesWithAdminGate | src/app/login/page.tsx:31 | whoever login sends to `/admin` passes the admin page's gate, and whoever it sends to `/dashboard` is turned away by that gate |
| SignIn.AdminEmailIsExact | src/app/login/page.tsx:31 | any user whose address is not exactly the admin one goes to `/dashboard` |
| SignIn.AdminEmailCaseMatters | src/app/login/page.tsx:31 | the comparison is case-sensitive: `Admin@techgarantias.com.br` goes to `/dashboard` |
| SignIn.LoginPage.constructor | src/app/login/page.tsx:16-20 | the page starts with an empty form, no calls, not loading |
| SignIn.LoginPage.SetForm | src/app/login/page.tsx:74 | editing changes only the form |
| SignIn.LoginPage.HandleSubmit | src/app/login/page.tsx:22-43 | records the call `signIn(email, password)` with the form's fields; a signed-in user is toasted and routed by the admin predicate; a refusal toasts and stays; loading is off afterwards |
| Lifecycle.CreateConfirmLookup | src/app/consultar/page.tsx:75-86 | a created warranty starts pending; after the admin confirms it, looking up its number shows it confirmed, with the form's data |

## Left out

- The database client and every remote call. `WarrantyStore` stands in for
  the tables; a backend failure is passed in as an argument.
- The identity service (`getCurrentUser`, `signIn`, `signUp`, `signOut`).
  Their results are arguments. Its source, `@/lib/auth`, is not part of this
  model.
- Server-side ordering by `created_at` (admin page, line 86) is done by the
  backend. `Select` returns rows in table order.
- The `updated_at` refresh on update. The page sends only `status`, and no
  database trigger is part of this model, so `SetStatus` leaves `updatedAt`
  as it was.
- The unique constraint on warranty numbers. Whether the database has one is
  not visible, so `Insert` rejects only a taken id (the primary key).
  The page never sends an id: the backend assigns a fresh one, so the
  taken-id branch of `Insert` has no counterpart on the page. It exists
  only to keep `UniqueIds`. `DuplicateKey` is a stand-in text; the
  backend's message would also name the constraint.
  `CreateConfirmLookup` and `SelectSingleComplete` assume the number is
  unique. `SelectSingleDuplicate` shows that a repeated number (see
  `GeneratedNumberRepeats`) makes both letters impossible to look up.
- `parseFloat` on the amount. The form's `value` is the number it returns, so
  the text form of the amount and `NaN` are not modelled.
- `formatCurrency` and `formatDate` (locale, `Intl` and `Date` formatting).
- Unicode in `trim` and `toLowerCase`. Whitespace is the space and the
  characters 9 to 13, and case folding covers only 'A' to 'Z'.
  `password.length` is counted in characters, not UTF-16 code units.
- Floating point in `Math.random() * 1000`. The product is an exact real, so
  `RandomDraw` is its exact floor.
- JSX rendering, icons and colours of `statusConfig` (only labels are
  modelled), toasts beyond their last message, the `console.error` logging
  in the admin page and the lookup page, router internals, and React
  effect scheduling. Asynchronous interleavings are not modelled either: each
  handler runs to completion, and the refiltering effect is the invariant
  `AdminPage.Valid()`.
- The client dashboard, the landing page and the navbar. They hold no logic
  beyond a backend query and link choice.
- `AdminPage.UpdateWarrantyStatus`: does not check who is signed in, because
  neither the page nor the store does.
