# Dicteck Water Services — a verified model of the data layer, setup scripts and page logic

Dicteck Water Services is a marketing site with a quote form, a contact form, a
project gallery, a testimonials page and a PostgreSQL data layer. This project
models the parts of it that carry logic and proves what they promise:

- **Database** (`database.dfy`, `schema.dfy`): the five tables created by
  `database/setup-simple.js`, with their length limits, the CHECK on ratings,
  the unique user email, the nullable foreign keys and the column defaults. The
  repositories of `src/services/database.ts` become a `Store` class: one
  sequence per table, a counter per SERIAL id, and a statement counter for
  CURRENT_TIMESTAMP. INSERT and UPDATE are methods that return the row or the
  PostgreSQL error. SELECT, JOIN and ORDER BY are functions over the tables.
- **Table setup** (`setup_simple.dfy`): five CREATE TABLE IF NOT EXISTS in a
  row, the first failure ending the run. Then a loop that seeds five services
  and a loop that creates seven indexes; each iteration catches its own failure.
- **Statement splitting and execution** (`sql_script.dfy`): `database/setup.js`
  cuts a SQL file into statements with `split(';')`, `trim` and a filter, then
  sends each statement and only logs a failure.
- **Pages**: the quote and contact forms (`quote_form.dfy`, `contact_form.dfy`),
  the gallery filter and lightbox (`gallery.dfy`), star rendering and the review
  data (`testimonials.dfy`), and the navigation bar (`navigation.dfy`).

Server failures that the scripts cannot see, such as a refused connection or a
lost session, are a parameter: the set `outage` of steps whose statement fails,
or the list of server replies. File contents and the current path, theme and
scroll position are parameters or fields too.

## Model

| member | source | states |
|---|---|---|
| Schema.ParentsCreatedFirst | database/setup-simple.js:35-60 | `users` and `services` are created first and reference no other table |
| Schema.ForeignKeysNullable | database/setup-simple.js:68-104 | every REFERENCES column is nullable and references `users` or `services` |
| Schema.UserEmailUniqueNotNull | database/setup-simple.js:38-39 | user email is VARCHAR(255) UNIQUE NOT NULL, name is NOT NULL, and no other user column besides id is unique |
| Schema.ServicesOnlyKeyIsId | database/setup-simple.js:50-59 | the only unique or key column of `services` is its serial id |
| Schema.InsertDefaults | database/setup-simple.js:56-105 | `is_active` defaults to true, `status` to 'pending', `is_approved` and `is_featured` to false |
| Schema.RatingChecked | database/setup-simple.js:88 | `rating` carries CHECK 1..5 and it is the only CHECK of `testimonials` |
| Schema.IndexesOnExistingColumns | database/setup-simple.js:135-143 | each of the seven indexes is on a column of a created table |
| Database.UserByEmail | src/services/database.ts:13-16 | the row found has that email; no row is found iff no stored user has it |
| Database.ServiceById | src/services/database.ts:31-34 | the row found has that id; no row is found iff no service has it |
| Database.Varchar | database/setup-simple.js:36-107 | the value a VARCHAR(n) column stores: within n characters, a prefix of the input, the input itself when it fits, and, when the input may be stored, what is cut is only spaces |
| Database.UserInsertError | database/setup-simple.js:36-43 | a user INSERT succeeds iff email, name and phone fit their VARCHAR limits (an excess made only of spaces fits) and the stored, cut email is not stored yet |
| Database.ServiceInsertError | database/setup-simple.js:50-59 | a service INSERT succeeds iff the name fits VARCHAR(255) (an excess made only of spaces fits) and the price fits DECIMAL(10, 2) |
| Database.RequestInsertError | database/setup-simple.js:66-77 | a request INSERT succeeds iff its user and its service exist |
| Database.TestimonialInsertError | database/setup-simple.js:84-92 | a testimonial INSERT succeeds iff the rating is within 1..5 and user and service exist; a bad rating fails on the CHECK first |
| Database.GalleryInsertError | database/setup-simple.js:99-107 | a gallery INSERT succeeds iff title and URL fit their limits (an excess made only of spaces fits) and the service is NULL or exists |
| Database.FeaturedFlag | src/services/database.ts:165 | the stored `is_featured` is true only when the caller passed true |
| Database.WithStatus | src/services/database.ts:88-94 | the UPDATE changes only `status` and `updated_at` of the rows with that id; every other row is unchanged |
| Database.Approved | src/services/database.ts:124-130 | the UPDATE sets `is_approved` on the rows with that id and leaves every other row unchanged |
| Database.AllUsers | src/services/database.ts:18-21 | `getAllUsers` returns every user, each once |
| Database.AllUsersNewestFirst | src/services/database.ts:19 | `getAllUsers` lists users newest first |
| Database.ActiveServices | src/services/database.ts:26-29 | `getAllServices` returns exactly the active services, sorted by name, as a permutation of them |
| Database.SortByNameSortsAndPermutes | src/services/database.ts:27 | ORDER BY name yields a sorted permutation of its input |
| Database.RequestsOfUser | src/services/database.ts:66-75 | `getServiceRequestsByUser` returns exactly that user's requests whose service exists, with that service's columns |
| Database.RequestsOfUserNewestFirst | src/services/database.ts:72 | that list is newest first |
| Database.AllRequests | src/services/database.ts:77-86 | `getAllServiceRequests` returns exactly the requests whose user and service both exist, with their columns |
| Database.AllRequestsNewestFirst | src/services/database.ts:83 | that list is newest first |
| Database.ApprovedTestimonials | src/services/database.ts:112-122 | `getApprovedTestimonials` returns exactly the approved testimonials whose user and service both exist, with their names |
| Database.ApprovedTestimonialsNewestFirst | src/services/database.ts:119 | that list is newest first |
| Database.GalleryNewestFirst | src/services/database.ts:145-154 | the rows with a given featured flag, each with its service name or NULL, and all such rows |
| Database.GalleryNewestFirstOrder | src/services/database.ts:151 | those rows are listed newest first |
| Database.AllGalleryItems | src/services/database.ts:135-143 | `getAllGalleryItems` keeps every gallery row with its service name or NULL, and lists featured rows before the others |
| Database.AllGalleryItemsNewestFirst | src/services/database.ts:140 | within the featured rows and within the others, newest first |
| Database.AllGalleryItemsKeepsEveryRow | src/services/database.ts:139 | the LEFT JOIN returns exactly one row per gallery item |
| Database.GalleryPartition | src/services/database.ts:135-154 | featured rows and the other rows together are as many as the table has |
| Database.FeaturedGalleryItems | src/services/database.ts:145-154 | `getFeaturedGalleryItems` returns exactly the featured rows, each with its own service's name or NULL |
| Database.FeaturedGalleryItemsNewestFirst | src/services/database.ts:151 | the featured rows are listed newest first |
| Database.Store.constructor | database/setup-simple.js:35-108 | freshly created tables are empty, every sequence starts at 1, and all constraints hold |
| Database.IdsDrawn | database/setup-simple.js:36-107 | an INSERT draws its SERIAL id unless a value fails its VARCHAR or DECIMAL coercion, which happens before the row is formed |
| Database.Store.CreateUser | src/services/database.ts:5-11 | on error nothing is stored; otherwise the row is appended with its VARCHAR values cut to their limits, and `getUserByEmail` with the stored email then finds it; the sequence advances unless a value does not fit its column, the clock advances either way, and the constraints keep holding |
| Database.Store.CreateService | src/services/database.ts:36-47 | as above for services, with the name cut to VARCHAR(255); a price overflow also leaves the sequence alone; a new service is active by default |
| Database.Store.CreateServiceRequest | src/services/database.ts:52-64 | as above for requests, whose failures (foreign keys) always draw an id; a new request has status 'pending' and no estimated cost |
| Database.Store.CreateTestimonial | src/services/database.ts:99-110 | as above for testimonials, whose failures (CHECK, foreign keys) always draw an id; a new testimonial is unapproved |
| Database.Store.CreateGalleryItem | src/services/database.ts:156-168 | as above for gallery rows, with title and URL cut to their limits; `is_featured` comes from `FeaturedFlag` |
| Database.Store.CreateServiceUnlessNamed | database/setup-simple.js:124 | the seed INSERT with the name made unique: a name whose stored (cut) form is already stored gives no row and changes no table but still draws an id; otherwise it is `createService`; the clock advances either way |
| Database.UpdateStatus | src/services/database.ts:88-94 | the status UPDATE: a status that does not fit VARCHAR(50) fails before any row is looked at, whatever the id; an unknown id returns no row and changes nothing; otherwise the table becomes `WithStatus` with the status cut to 50 characters, and the returned row is the stored updated row |
| Database.Store.UpdateServiceRequestStatus | src/services/database.ts:88-94 | the reply and the new table are those of `UpdateStatus`; the clock advances; no other table changes and the constraints keep holding |
| Database.Store.ApproveTestimonial | src/services/database.ts:124-130 | the table becomes `Approved`; the approved row is returned, or nothing for an unknown id |
| Database.UserByEmailAppend | src/services/database.ts:5-16 | after inserting a user with a new email, `getUserByEmail` with that email returns that row |
| Database.ServiceByIdAppend | src/services/database.ts:31-47 | after inserting a service with a fresh id, `getServiceById` returns that row |
| Database.DuplicateEmailRejected | database/setup-simple.js:38 | a second INSERT with a stored email fails on `users_email_key` |
| Database.RequestByIdWithStatus | src/services/database.ts:88-94 | after the status UPDATE, the row with that id is the old row with the new status and time |
| Database.WithStatusUnknownId | src/services/database.ts:88-94 | updating an unknown id leaves the table unchanged |
| Database.TestimonialByIdApproved | src/services/database.ts:124-130 | after approval, the row with that id is the old row with `is_approved` set |
| Database.ApprovedUnknownId | src/services/database.ts:124-130 | approving an unknown id leaves the table unchanged |
| Database.ApprovedIdempotent | src/services/database.ts:124-130 | approving twice is the same as approving once |
| Database.ApprovalPublishes | src/services/database.ts:112-130 | once approved, a testimonial whose user and service exist appears in `getApprovedTestimonials` |
| SetupSimple.Ensure | database/setup-simple.js:36 | CREATE ... IF NOT EXISTS adds the name and leaves an existing name alone |
| SetupSimple.EnsureAllContents | database/setup-simple.js:35-109 | after a series of IF NOT EXISTS statements, the catalog holds exactly the old names and the created ones |
| SetupSimple.EnsureAllIdempotent | database/setup-simple.js:136-142 | re-running the table and index creation changes nothing |
| SetupSimple.TablesReached | database/setup-simple.js:35-109 | the number of tables created before the first failing CREATE TABLE |
| SetupSimple.Seeded | database/setup-simple.js:121-131 | seeding appends one row per attempted seed and keeps the existing rows |
| SetupSimple.SeededRow | database/setup-simple.js:123-126 | the k-th appended row is the k-th seed, with the k-th id and time |
| SetupSimple.SeedsInsertable | database/setup-simple.js:113-119 | every sample service passes the INSERT checks |
| SetupSimple.SecondRunDuplicatesSeeds | database/setup-simple.js:124 | as written, a second run of the seed loop, from whatever ids and times, appends all five sample services again (see Findings) |
| SetupSimple.AttemptedAll | database/setup-simple.js:121-131 | with no failing seed statement, the attempted rows are all the seeds, in order |
| SetupSimple.SeededMissing | database/setup-simple.js:124 | the intended seeding skips a sample whose name is already stored, and adds at most one row per sample |
| SetupSimple.SeededMissingHasAll | database/setup-simple.js:124 | after the intended seeding every sample name is stored |
| SetupSimple.SeededMissingKeeps | database/setup-simple.js:124 | when all sample names are stored, the intended seeding adds nothing |
| SetupSimple.SeededMissingIdempotent | database/setup-simple.js:124 | the intended seeding run twice equals it run once |
| SetupSimple.SeedEventsAttemptAll | database/setup-simple.js:121-131 | the seed loop prints one line per sample row, in order, whatever happened to the earlier rows |
| SetupSimple.IndexEventsAttemptAll | database/setup-simple.js:145-152 | the index loop prints one line per index, in order, whatever happened to the earlier ones |
| SetupSimple.Server.CreateTable | database/setup-simple.js:35-45 | one CREATE TABLE: on success the catalog and the log grow by that table; on failure the run has reached its first failure |
| SetupSimple.Server.CreateTables | database/setup-simple.js:33-109 | the tables before the first failure are created and logged; `ok` iff all five were |
| SetupSimple.Server.SeedServices | database/setup-simple.js:121-131 | every sample row is attempted; the services table becomes `Seeded` over the attempted rows, as written, so a second run appends them again; the services sequence and the clock advance by one per attempted row; the other tables and sequences are unchanged |
| SetupSimple.Server.SeedOne | database/setup-simple.js:122-130 | one loop iteration: the row is inserted by `createService` unless its statement fails, and the loop goes on either way |
| SetupSimple.Server.SeedServicesUnique | database/setup-simple.js:121-131 | the seed loop with the corrected INSERT: the services table becomes `SeededMissing` over the attempted rows, so a stored name is not added again; the services sequence and the clock advance by one per attempted row; the other tables and sequences are unchanged |
| SetupSimple.Server.SeedOneUnique | database/setup-simple.js:124 | one corrected iteration: the row is inserted unless its statement fails or its name is stored |
| SetupSimple.Server.CreateIndexes | database/setup-simple.js:145-152 | every index is attempted; the reached ones are created if missing |
| SetupSimple.Server.SetupDatabase | database/setup-simple.js:29-155 | a failed CREATE TABLE stops the run with no seeding and no index; otherwise all seeds are inserted as written (`Seeded`), the services sequence and the clock advance by one per attempted seed, all indexes are attempted and the run completes; the other tables and sequences never change |
| SetupSimple.Server.SetupTwice | database/setup-simple.js:29-155 | the script run twice with no failure: the second run starts from the ids and time the first left, and the services table ends with each sample service twice |
| SqlScript.Split | database/setup.js:51 | `split(';')` gives at least one piece, and no piece contains `;` |
| SqlScript.JoinSplit | database/setup.js:51 | joining the pieces with `;` gives back the text |
| SqlScript.SplitJoin | database/setup.js:51 | splitting pieces joined with `;` gives back the pieces, when none contains `;` |
| SqlScript.SplitAppend | database/setup.js:51 | splitting `a;b` gives the pieces of `a` followed by those of `b` |
| SqlScript.TrimStartCuts | database/setup.js:52 | the leading cut is a suffix of the input, all that is cut is white space, and the result starts with non-space |
| SqlScript.TrimEndCuts | database/setup.js:52 | the trailing cut is a prefix of the input, all that is cut is white space, and the result ends with non-space |
| SqlScript.TrimSlice | database/setup.js:52 | `trim` returns a slice of its input with no white space at either end, and cuts off only white space |
| SqlScript.TrimIdempotent | database/setup.js:52 | trimming twice is trimming once |
| SqlScript.StatementsMembers | database/setup.js:50-53 | the statements are exactly the trimmed pieces that are non-empty and do not start with `--` |
| SqlScript.StatementsAppend | database/setup.js:50-53 | statements keep source order: the statements of `a;b` are those of `a` followed by those of `b` |
| SqlScript.StatementsWellFormed | database/setup.js:50-53 | every statement is non-empty, has no `;`, has no white space at either end and does not start with `--` |
| SqlScript.StatementsBound | database/setup.js:51-53 | there are no more statements than pieces |
| SqlScript.CommentChunkDropped | database/setup.js:53 | a chunk that starts, after any white space, with a `--` comment line is dropped whole, with the SQL after it |
| SqlScript.TrimStartSkipsSpaces | database/setup.js:52 | leading white space makes no difference to `trimStart` |
| SqlScript.SemicolonAlwaysSplits | database/setup.js:51 | any `;` ends a statement, whatever surrounds it |
| SqlScript.QuotedSemicolonSplits | database/setup.js:51 | a `;` inside a string literal splits the statement in two |
| SqlScript.GuardAlwaysHolds | database/setup.js:53-56 | the `if (statement.trim())` guard is true for every emitted statement |
| SqlScript.ContainsAt | database/setup.js:61 | `includes` holds iff the part occurs at some position |
| SqlScript.DataSkipsMore | database/setup.js:61-90 | whatever the schema phase skips, the data phase skips too |
| SqlScript.DuplicateKeySkippedOnlyInData | database/setup.js:61-90 | every message that says "duplicate" and not "already exists" is an error in the schema phase but skipped in the data phase |
| SqlScript.EmailTakenSkippedOnlyInData | database/setup.js:61-90 | PostgreSQL's message for a taken user email is an error in the schema phase and skipped in the data phase |
| SqlScript.LineFor | database/setup.js:57-66 | success prints the executed line; a failure prints skipped or error according to the classification, with the message |
| SqlScript.LinesFor | database/setup.js:55-68 | one line per statement, the i-th for the i-th reply |
| SqlScript.FailedExactlyForErrors | database/setup.js:55-68 | the log has an error line for a statement exactly when the server failed it with a message the phase does not treat as already there |
| SqlScript.AlreadyExistsNeverFails | database/setup.js:61-90 | an "already exists" failure, or a "duplicate" one in the data phase, is logged as skipped, never as an error |
| SqlScript.DataPhaseFailsNoMore | database/setup.js:55-93 | for the same replies the data phase logs no more error lines than the schema phase |
| SqlScript.Runner.RunPhase | database/setup.js:55-68 | every statement is sent, in order, whatever the replies; the log gets one line per statement |
| SqlScript.Runner.SetupDatabase | database/setup.js:34-95 | the schema file runs, then the data file; an unreadable file stops the run there with the failure line |
| QuotePage.With | src/pages/Quote.tsx:75-80 | the change handler sets the named field and leaves the other five unchanged |
| QuotePage.CompleteIffRequiredFilled | src/pages/Quote.tsx:49 | the form passes iff name, email, phone, location and service are all non-empty |
| QuotePage.MessageOptional | src/pages/Quote.tsx:49 | the message plays no part in the decision |
| QuotePage.OnlyEmptinessTested | src/pages/Quote.tsx:49-99 | blank-looking values pass, and so does a service outside the nine options |
| QuotePage.SecondSubmitRejected | src/pages/Quote.tsx:49-72 | after any submit, the next submit is rejected; a rejected submit leaves the form as it was |
| QuotePage.BlankRejected | src/pages/Quote.tsx:15-22 | the blank form has every field empty and is rejected |
| QuotePage.FillingRequiredPasses | src/pages/Quote.tsx:49-87 | typing the five required fields into any form makes it pass |
| QuotePage.QuoteForm.constructor | src/pages/Quote.tsx:15-22 | the form starts blank |
| QuotePage.QuoteForm.HandleSubmit | src/pages/Quote.tsx:45-73 | success toast iff the form passes; the form is cleared on success and unchanged otherwise |
| QuotePage.QuoteForm.HandleChange | src/pages/Quote.tsx:75-80 | the form becomes `With` of the named field |
| QuotePage.QuoteForm.HandleSelectChange | src/pages/Quote.tsx:82-87 | only the service changes |
| ContactPage.With | src/pages/Contact.tsx:70-75 | the change handler sets the named field and leaves the other three unchanged |
| ContactPage.CompleteIffAllFilled | src/pages/Contact.tsx:46 | the form passes iff all four fields are non-empty |
| ContactPage.MessageRequired | src/pages/Contact.tsx:46 | a form without a message is rejected |
| ContactPage.OnlyEmptinessTested | src/pages/Contact.tsx:46 | blank-looking values pass |
| ContactPage.SecondSubmitRejected | src/pages/Contact.tsx:46-67 | after any submit, the next submit is rejected; a rejected submit leaves the form as it was |
| ContactPage.BlankIsEmpty | src/pages/Contact.tsx:14-19 | the blank form has every field empty |
| ContactPage.FillingAllPasses | src/pages/Contact.tsx:46-75 | typing all four fields into any form makes it pass |
| ContactPage.ContactForm.constructor | src/pages/Contact.tsx:14-19 | the form starts blank |
| ContactPage.ContactForm.HandleSubmit | src/pages/Contact.tsx:42-68 | success toast iff the form passes; the form is cleared on success and unchanged otherwise |
| ContactPage.ContactForm.HandleChange | src/pages/Contact.tsx:70-75 | the form becomes `With` of the named field |
| GalleryPage.OfCategory | src/pages/Gallery.tsx:111 | the result holds exactly the projects of that category, and is never longer than the input |
| GalleryPage.OfCategorySubsequence | src/pages/Gallery.tsx:111 | the filter keeps the order of the projects |
| GalleryPage.FilteredMeaning | src/pages/Gallery.tsx:109-111 | "all" shows every project in order; another value shows exactly that category's projects; the result is a subsequence of at most 8 |
| GalleryPage.CategoriesCoverProjects | src/pages/Gallery.tsx:34-107 | every project's category is one of the four buttons besides "all" |
| GalleryPage.UnknownFilterShowsNothing | src/pages/Gallery.tsx:101-111 | a filter naming no category shows nothing |
| GalleryPage.CategorySizes | src/pages/Gallery.tsx:34-107 | the four categories hold 2, 3, 2 and 1 projects |
| GalleryPage.IdsDistinct | src/pages/Gallery.tsx:34-99 | project ids are pairwise distinct |
| GalleryPage.GalleryView.constructor | src/pages/Gallery.tsx:11-12 | the page starts on "all" with the lightbox closed |
| GalleryPage.GalleryView.ChooseCategory | src/pages/Gallery.tsx:140 | a button sets the filter to its id and leaves the selection alone |
| GalleryPage.GalleryView.Select | src/pages/Gallery.tsx:162 | clicking a shown card selects it and opens the lightbox |
| GalleryPage.GalleryView.Close | src/pages/Gallery.tsx:199 | closing clears the selection, and the lightbox is closed |
| TestimonialsPage.RenderStars | src/pages/Testimonials.tsx:97-104 | five stars, star i filled iff i < rating |
| TestimonialsPage.FilledPrefix | src/pages/Testimonials.tsx:98-101 | the first n stars fill the rating clamped to 0..n |
| TestimonialsPage.FilledIsClampedRating | src/pages/Testimonials.tsx:101 | the filled count is the rating clamped to 0..5 |
| TestimonialsPage.RatingExtremes | src/pages/Testimonials.tsx:98-101 | rating 0 or less fills no star; 5 or more fills all five |
| TestimonialsPage.FilledMonotone | src/pages/Testimonials.tsx:101 | a higher rating never fills fewer stars |
| TestimonialsPage.AllRatedFive | src/pages/Testimonials.tsx:30-138 | all eight reviews are rated 5 and show five stars; the ratings average 5, as displayed |
| NavigationBar.ActiveIsExact | src/components/Navigation.tsx:31 | for every path, a longer path that starts with it (a sub-page, a trailing slash) does not make it active, nor does it make the longer one active |
| NavigationBar.PathsDistinct | src/components/Navigation.tsx:22-29 | the six nav paths are pairwise distinct |
| NavigationBar.AtMostOneActive | src/components/Navigation.tsx:22-31 | at most one nav item is active for any path |
| NavigationBar.NextTheme | src/components/Navigation.tsx:80 | "light" becomes "dark" and any other value becomes "light" |
| NavigationBar.ThemeToggleTwice | src/components/Navigation.tsx:80-114 | two presses return "light" or "dark" to itself; any other theme ends up "dark" |
| NavigationBar.ThresholdIsStrict | src/components/Navigation.tsx:16 | a scroll of exactly 50 does not count as scrolled, 51 does |
| NavigationBar.NavigationState.constructor | src/components/Navigation.tsx:9-10 | the menu starts closed and the bar not scrolled |
| NavigationBar.NavigationState.HandleScroll | src/components/Navigation.tsx:14-20 | `scrolled` iff the position is past 50; nothing else changes |
| NavigationBar.NavigationState.ToggleTheme | src/components/Navigation.tsx:80-114 | the theme becomes `NextTheme` of the old one; nothing else changes |
| NavigationBar.NavigationState.ToggleMenu | src/components/Navigation.tsx:125 | the menu button flips `isOpen`; nothing else changes |
| NavigationBar.NavigationState.FollowMobileLink | src/components/Navigation.tsx:137-152 | a mobile nav link or the mobile quote link closes the menu and makes its path current; a link to another page mounts that page's own bar, which starts unscrolled, and a link to the current page keeps the scroll state |

## Left out

- Connection handling: the `pg` pool, acquire and release, and environment-variable configuration in `src/lib/database.ts` and in both scripts. Server failures are the `outage` parameter or the list of replies.
- `database/find-credentials.js`, `database/create-database.js` and `database/test-connection.js`: credential probing, process execution and connection diagnostics, all I/O.
- The verification queries after setup (`database/setup-simple.js:157-171`, `database/setup.js:98-112`): diagnostic output only.
- The contents of `init.sql` and `sample-data.sql` are not part of this model; the splitter works on any text.
- Database.Store: timestamps are a statement counter, not wall-clock time. Ties between equal real timestamps are not modelled, because the counter never repeats.
- Database.Store: the 32-bit range of INTEGER columns (ids, `duration_hours`, `rating`) is not modelled. Values are integers, so a JavaScript number with a fraction, which PostgreSQL rejects with "invalid input syntax for type integer", is not modelled either. Prices are integer cents, so DECIMAL rounding of fractional cents is not modelled either.
- Database.ActiveServices: ORDER BY name is modelled as code-point order. The database's locale collation is not modelled.
- Database.Store.CreateServiceRequest, Database.Store.CreateTestimonial: the repository always passes both foreign keys, so the model takes them as integers. NULL keys are possible only through other writers, and the tables allow them.
- Database.Store: rows are never deleted, and concurrent clients are not modelled.
- SetupSimple.Server: CREATE TABLE is modelled by the table name only. The column definitions live in `schema.dfy`, and the server is assumed to create them as written.
- SetupSimple.Server.SeedOne: a seed fails only through `outage`. Every sample row passes the INSERT checks, as `SeedsInsertable` shows.
- SqlScript.Runner: the statements themselves are not executed. The server's answer to each statement is a parameter, and the model keeps the sent statements and the console lines.
- SqlScript.IsSpace: the white-space set of JavaScript's `trim` is written out as code points. No other Unicode handling is modelled.
- Page rendering, toasts' wording, routing, the scroll-reveal IntersectionObserver effects and the static-markup pages (`Index`, `About`, `Services`, `NotFound`, `Footer`): markup and browser side effects with no logic to prove.
- QuotePage, ContactPage: the browser's own form validation (`required`, `type="email"`), which blocks a submit before the handler runs, is not modelled. The handlers are modelled as if called on every submit.
- TestimonialsPage.RenderStars: the rating is an integer. Fractional ratings, which a JavaScript number allows, are not modelled.
- NavigationBar.NavigationState.HandleScroll: the scroll position is an integer, not a floating-point number.
- NavigationBar.NavigationState: the theme provider and the router are outside the component. The theme and the current path are fields that the handlers set.

## Findings

| source | as written | input that shows it | evidently intended | confidence | as-written member | corrected member |
|---|---|---|---|---|---|---|
| database/setup-simple.js:124 | The seed INSERT uses `ON CONFLICT DO NOTHING`, but `services` has no unique column besides its serial id (`database/setup-simple.js:49-59`). The INSERT never conflicts, so every run appends the five sample services again. | Running the setup script twice on the same database (`SetupSimple.Server.SetupTwice`): the table then holds ten sample rows, each name twice. | Re-running the setup should not duplicate the sample services. With a unique `name`, the conflict clause skips a sample whose name is stored. `SetupSimple.Server.SeedServicesUnique` runs this corrected INSERT. | not executed | SetupSimple.SecondRunDuplicatesSeeds | SetupSimple.SeededMissingIdempotent |
