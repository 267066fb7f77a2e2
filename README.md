# Portfolio showcase: a verified model of its record store and view state

This project is a Dafny model of the core of a single-page design portfolio. Visitors
browse a gallery of projects, open one in a detail view, like it and comment on it. An
administrator, gated by a shared password typed into the browser, adds and deletes
projects. The model covers six parts:

- **Entity types** (module `Types`): `Comment`, `Project` (with an optional
  `downloadUrl`) and the three view states, with their string names.
- **The browser-local project store** (module `Storage`): class `ProjectStore` over a
  `map<string, Project>` keyed by id. It covers seeding on first run, the newest-first
  listing, upsert, delete, and the two read-modify-write mutations (add one like,
  prepend a comment). Each mutation answers with a listing of its post-state. The lemma
  `ListingUnique` shows that a listing is determined by the store contents, so that
  answer is exactly what `getProjects` would return.
- **The view coordinator** (module `App`): class `AppState`. A delivered snapshot
  replaces the collection, clears the loading flag and re-resolves the open detail
  record by id. The class also has the password gate, the confirm-gated delete, and the
  handlers that forward to the store without touching local state. A pure view-transition
  function supports the lemma `DashboardNeedsPassword`: the dashboard is reached only by
  submitting exactly the admin password.
- **The detail view** (module `ProjectModal`): class `Modal`. The like button fires once
  per instance, which a ghost call counter records. The module also models the displayed
  count, the download link fallback and the comment form's trim guard.
- **The admin dashboard** (module `AdminDashboard`): the like and comment totals as left
  folds. It also models how the new project is built (defaults and the placeholder image),
  the save cycle with its failure path, and the 10 MiB file-size guard.
- **The navigation bar** (module `Navbar`): a pure map from view and control to the
  requested view, which never asks for the dashboard.
- **Module `Text`** models the two JavaScript string behaviours the code relies on:
  `String.prototype.trim` and the decimal form of an integer. The decimal form comes with
  its inverse.

Clock readings, the confirm dialog's answer, the outcome of an awaited save and the file
reader's result are all parameters of the methods that use them.

### The listing order

The object store's `getAll` returns records in key order, which compares ids code unit
by code unit. `getProjects` then sorts them by timestamp, descending, with JavaScript's
stable sort. So records with equal timestamps stay in id order. `Storage.Newer` states
this strict total order. A listing is a sequence holding exactly the stored records,
newest first under `Newer`.

### Behaviour worth knowing

- A `Modal` instance survives snapshots while its record stays selected, and it keeps
  its `isLiked` flag. Once a snapshot brings a record whose count already includes the
  like, the button shows the stored count plus one more (`RefreshedLikeCountedTwice`).
- The file reader's completion handler writes back the form captured when the file was
  chosen (`Dashboard.HandleFileChange` returns it, `Dashboard.OnFileRead` takes it). A
  field edited while the file is being read is lost.
- `handleSubmit` does not check that the title is non-empty: it copies the form as it
  stands, and only the browser's `required` attribute, which is not modelled, stops an
  empty title. Comment fields are checked after trimming but stored untrimmed.

## Model

| member | source | states |
|---|---|---|
| `Types.ViewName` | types.ts:20 | each view state is one of the literals HOME, ADMIN_LOGIN, ADMIN_DASHBOARD |
| `Types.ParseView` | types.ts:20 | a string is a view state exactly when it is one of the three literals |
| `Types.ViewNameRoundTrip` | types.ts:20 | names and view states correspond one to one: the union has exactly three members |
| `Text.TrimStart` | components/ProjectModal.tsx:27 | the result is the suffix left after dropping leading white space, and starts with a kept character |
| `Text.TrimEnd` | components/ProjectModal.tsx:27 | the result is the prefix left after dropping trailing white space, and ends with a kept character |
| `Text.Trim` | components/ProjectModal.tsx:27 | the result is the slice of the string after its leading white space, followed only by white space, and it starts and ends with a kept character |
| `Text.TrimEmptyIffBlank` | components/ProjectModal.tsx:27 | a trimmed string is empty iff every character is ECMAScript white space or a line terminator |
| `Text.NatToDecimal` | components/ProjectModal.tsx:30 | decimal digits only, at least one, no leading zero |
| `Text.IntToDecimal` | components/ProjectModal.tsx:30 | canonical form (optional "-", digits, no leading zero, no "-0"); a non-negative value gives its digits; a negative value gives "-" then the digits of its magnitude |
| `Text.DigitsCanonical` | components/ProjectModal.tsx:30 | a digit string without leading zero is the decimal form of its own value |
| `Text.CanonicalDecimalUnique` | components/ProjectModal.tsx:30 | the only canonical string that reads back as a value is that value's decimal form, so no leading-zero or "-0" variant qualifies |
| `Text.DecimalRoundTrip` | components/AdminDashboard.tsx:27 | the decimal form of a clock value reads back as that value |
| `Storage.NewestFirstUnique` | services/storageService.ts:94-100 | two newest-first sequences with the same elements are equal |
| `Storage.ListingUnique` | services/storageService.ts:94-100 | two listings of the same store contents are equal: the listing is a function of the store |
| `Storage.ListingCount` | services/storageService.ts:94-100 | a listing holds each stored record once: distinct ids and as many elements as stored records |
| `Storage.InsertNewestFirst` | services/storageService.ts:99 | inserting into a newest-first sequence keeps it newest-first, adds exactly the new record and grows it by one |
| `Storage.Upsert` | services/storageService.ts:111 | the saved id maps to exactly the given record; every other key and record is unchanged |
| `Storage.Remove` | services/storageService.ts:124 | the id is gone; every other key and record is unchanged |
| `Storage.Like` | services/storageService.ts:143-147 | an existing record gains exactly one like and nothing else about it changes; other records and the key set are unchanged; a missing id changes nothing |
| `Storage.Prepend` | services/storageService.ts:161-163 | an existing record's comments become the new comment followed by the old ones; the rest of it, other records and the key set are unchanged |
| `Storage.UpsertIdempotent` | services/storageService.ts:111 | saving the same record twice gives the same store as saving it once |
| `Storage.RemoveIdempotent` | services/storageService.ts:124 | deleting twice gives the same store as deleting once |
| `Storage.SavedIsListedOnce` | services/storageService.ts:106-117 | after a save the listing contains the saved record and no other record with its id |
| `Storage.RemovedIsNotListed` | services/storageService.ts:119-130 | after a delete the listing contains no record with that id |
| `Storage.LikeTimesCount` | services/storageService.ts:143-147 | n sequential likes raise the count by exactly n and change nothing else |
| `Storage.PrependAllOrder` | services/storageService.ts:161-163 | after k sequential comments the list is those comments newest first, then the old comments in their order; it has grown by k |
| `Storage.InitialData` | services/storageService.ts:8-41 | three seed records |
| `Storage.SeedRecordsContents` | services/storageService.ts:8-41 | seeding writes the three records under the ids "1", "2", "3" |
| `Storage.SeedListing` | services/storageService.ts:8-41 | a freshly seeded store lists exactly the seed records, in the order 1, 2, 3 |
| `Storage.Initialized` | services/storageService.ts:73-83 | a store holding anything is left as it is; an empty store ends up with exactly the keys "1", "2", "3", each holding a seed record with that id |
| `Storage.SeedShape` | services/storageService.ts:78 | the seeded store holds only seed records, each under its own id |
| `Storage.InitializedIdempotent` | services/storageService.ts:73-83 | initialising twice gives the same store as initialising once, whatever the second clock reading |
| `Storage.ProjectStore.constructor` | services/storageService.ts:48-53 | a newly created store is empty |
| `Storage.ProjectStore.InitDB` | services/storageService.ts:66-87 | an empty store receives the seed records; a non-empty one is unchanged |
| `Storage.ProjectStore.AddAll` | services/storageService.ts:78 | adding records with fresh, distinct ids writes each one under its id, and no add fails |
| `Storage.ProjectStore.Get` | services/storageService.ts:138 | finds the record stored under the id, or nothing when the id is absent |
| `Storage.ProjectStore.GetProjects` | services/storageService.ts:89-104 | returns every stored record once, newest first, ties in key order |
| `Storage.ProjectStore.SaveProject` | services/storageService.ts:106-117 | the store becomes the upsert of the record; the result is the listing of the new store |
| `Storage.ProjectStore.DeleteProject` | services/storageService.ts:119-130 | the store loses the id; the result is the listing of the new store |
| `Storage.ProjectStore.ToggleLikeProject` | services/storageService.ts:132-149 | the store becomes `Like` of the old store; the result is the listing of the new store |
| `Storage.ProjectStore.AddCommentToProject` | services/storageService.ts:151-166 | the store becomes `Prepend` of the old store; the result is the listing of the new store |
| `Navbar.Target` | components/Navbar.tsx:15-38 | the logo asks for HOME; the right-hand button asks for HOME from the dashboard and ADMIN_LOGIN otherwise; the dashboard is never asked for |
| `App.FirstWithId` | App.tsx:49 | the position of the first record with the id, or the length when there is none |
| `App.FindById` | App.tsx:49 | nothing exactly when no record has the id; otherwise the first record with that id |
| `App.Reconcile` | App.tsx:47-51 | a closed detail view stays closed; an open one becomes the snapshot's first record with its id, or closes |
| `App.ReconcileKeepsIffPresent` | App.tsx:47-51 | the detail view stays open iff the snapshot still holds its id, and then it shows the delivered record with that id |
| `App.NextView` | App.tsx:71-72 | a step reaches the dashboard only from the dashboard or by submitting exactly "admin123" |
| `App.DashboardNeedsPassword` | App.tsx:69-78 | every run from outside the dashboard that ends in it contains a submission of exactly "admin123" |
| `App.AppState.constructor` | App.tsx:19-26 | the initial state: gallery view, empty collection, nothing selected, loading, empty password, no error |
| `App.AppState.OnSnapshot` | App.tsx:42-52 | the collection is replaced by the snapshot, loading ends, the selection is reconciled, and nothing else changes |
| `App.AppState.OnNavbar` | App.tsx:102 | the view becomes the navigation bar's target; nothing else changes |
| `App.AppState.OnBackToHome` | App.tsx:190 | the view becomes HOME; nothing else changes |
| `App.AppState.OnPasswordInput` | App.tsx:173 | the password field takes the typed value; nothing else changes |
| `App.AppState.HandleAdminLogin` | App.tsx:69-78 | an exact match opens the dashboard, clears the password and the error; any other input sets the error and keeps the view and the password |
| `App.AppState.OpenDetail` | App.tsx:143 | the clicked record becomes the selection |
| `App.AppState.CloseDetail` | App.tsx:209-212 | the selection becomes null, which hides the detail view |
| `App.AppState.HandleLike` | App.tsx:59-63 | the store gains one like on the record; the component state is unchanged |
| `App.AppState.HandleComment` | App.tsx:65-67 | the store prepends the comment; the component state is unchanged |
| `App.AppState.HandleAddProject` | App.tsx:80-83 | the store upserts the project; the component state is unchanged |
| `App.AppState.HandleDeleteProject` | App.tsx:85-89 | the store deletes the id only when the user confirmed, and is untouched otherwise; the component state is unchanged |
| `ProjectModal.DownloadTarget` | components/ProjectModal.tsx:96 | the link is `downloadUrl` when present and non-empty, the image URL otherwise |
| `ProjectModal.DisplayedLikes` | components/ProjectModal.tsx:93 | the shown count is the record's count plus one when liked here, and the record's count otherwise |
| `ProjectModal.CanSubmit` | components/ProjectModal.tsx:27 | a submission goes through iff both the text and the name have a character that is not white space |
| `ProjectModal.BuildComment` | components/ProjectModal.tsx:29-34 | the comment carries the name and text untrimmed, the second clock reading as timestamp, and as id the canonical decimal form of the first reading, which reads back as that reading |
| `ProjectModal.CommentIdsDistinct` | components/ProjectModal.tsx:30 | submissions at different clock readings get different comment ids |
| `ProjectModal.RefreshedLikeCountedTwice` | components/ProjectModal.tsx:93 | once the stored like reaches a liked instance, the button shows the original count plus two |
| `ProjectModal.Modal.constructor` | components/ProjectModal.tsx:13-15 | a new instance has empty fields and is not liked |
| `ProjectModal.Modal.ShownLikes` | components/ProjectModal.tsx:93 | the shown count is one more than the record's count when this instance liked it, and exactly the record's count otherwise |
| `ProjectModal.Modal.HandleLike` | components/ProjectModal.tsx:17-23 | the first click calls `onLike` with the project id; later clicks make no call; afterwards the instance is liked, has made at most one call, and shows one more like |
| `ProjectModal.Modal.Refresh` | App.tsx:209-211 | a re-render with a newer record keeps the instance's flag and fields |
| `ProjectModal.Modal.OnAuthorInput` | components/ProjectModal.tsx:139 | the name field takes the typed value |
| `ProjectModal.Modal.OnCommentInput` | components/ProjectModal.tsx:148 | the text field takes the typed value |
| `ProjectModal.Modal.HandleSubmitComment` | components/ProjectModal.tsx:25-39 | a blank field means no call and no change; otherwise the built comment is sent for this project and both fields are cleared |
| `AdminDashboard.ProjectCount` | components/AdminDashboard.tsx:87 | the "projects" figure is zero exactly when nothing is listed |
| `AdminDashboard.ProjectCountIsStoredCount` | components/AdminDashboard.tsx:87 | shown over a listing of the store, the "projects" figure is the number of stored records |
| `AdminDashboard.TotalLikes` | components/AdminDashboard.tsx:92 | with no negative counts, the "likes" figure is never negative and is at least each project's own count |
| `AdminDashboard.TotalComments` | components/AdminDashboard.tsx:98 | the "comments" figure is never negative and is at least each project's own number of comments |
| `AdminDashboard.SumOfNonNegative` | components/AdminDashboard.tsx:92-98 | a fold of terms that are never negative is never negative and bounds each term |
| `AdminDashboard.SumFromShift` | components/AdminDashboard.tsx:92 | the fold's start value only shifts its result |
| `AdminDashboard.SumAppend` | components/AdminDashboard.tsx:92 | the fold over a concatenation is the sum of the folds |
| `AdminDashboard.SumReplace` | components/AdminDashboard.tsx:92 | replacing one element changes the fold by the difference of the two values |
| `AdminDashboard.TotalLikesAfterLike` | components/AdminDashboard.tsx:92 | one more like on any listed project raises the like total by exactly one |
| `AdminDashboard.TotalCommentsAfterComment` | components/AdminDashboard.tsx:98 | one more comment on any listed project raises the comment total by exactly one |
| `AdminDashboard.NewProject` | components/AdminDashboard.tsx:26-35 | no likes, no comments, no download URL; title, description and category from the form; the id is the canonical decimal form of the first clock reading and reads back as it; the form's image, or the placeholder when it is empty |
| `AdminDashboard.PlaceholderUrl` | components/AdminDashboard.tsx:30 | the placeholder is the picsum prefix followed by the canonical decimal form of the clock reading, which reads back as that reading; it is never a `data:` URL, so the URL field shows it |
| `AdminDashboard.FileAccepted` | components/AdminDashboard.tsx:55 | a file is accepted exactly when it is at most 10485760 bytes |
| `AdminDashboard.FileLimitBoundary` | components/AdminDashboard.tsx:55 | a file of exactly 10 MiB is accepted and one byte more is rejected |
| `AdminDashboard.UrlFieldValue` | components/AdminDashboard.tsx:237 | the URL field is empty for a `data:` image and shows any other value as is |
| `AdminDashboard.Dashboard.constructor` | components/AdminDashboard.tsx:12-19 | the form starts closed, not saving, with the empty form |
| `AdminDashboard.Dashboard.OpenForm` | components/AdminDashboard.tsx:75 | the form opens; its data stay |
| `AdminDashboard.Dashboard.CloseForm` | components/AdminDashboard.tsx:151 | the form closes; its data stay |
| `AdminDashboard.Dashboard.EditForm` | components/AdminDashboard.tsx:163 | the form takes the edited data |
| `AdminDashboard.Dashboard.BeginSubmit` | components/AdminDashboard.tsx:22-39 | the save is marked in flight and the project handed to `onAdd` is built from the form; the form is untouched |
| `AdminDashboard.Dashboard.FinishSubmit` | components/AdminDashboard.tsx:39-48 | the save ends either way; on success the form closes and resets; on failure it stays as it was |
| `AdminDashboard.Dashboard.HandleFileChange` | components/AdminDashboard.tsx:51-66 | a read starts iff a file was chosen and it is at most 10 MiB; the read captures the current form; nothing else changes |
| `AdminDashboard.Dashboard.OnFileRead` | components/AdminDashboard.tsx:61-63 | the form becomes the captured form with the file's data URL as image |

## Left out

- Opening the database, the upgrade handler, transactions, request callbacks and promises are not modelled. Each operation is a synchronous method on a map, and none of them can fail. Request errors and transaction aborts are not modelled.
- Concurrency is not modelled. Only strictly sequential calls are covered, so the lost-update race between the read and the write of a like or a comment is outside the model.
- The remote document store and its login are not modelled: `services/firebase.ts`, the anonymous sign-in (App.tsx:31-39), `subscribeToProjects` and the two-argument `saveProject(project, file)` (App.tsx:12, 81). None of them is defined in the store module shown. The App's handlers are therefore wired to the local store's one-argument operations. A snapshot is an external event carrying a sequence of projects, and ending the subscription is not modelled.
- The image pipeline (resize, re-encoding, payload size guard, blob upload and deletion) is not part of the files modelled. Reading a file into a data URL is a browser API: its result is a parameter of `Dashboard.OnFileRead`.
- `window.confirm` is a boolean parameter, and `alert` and console output are dropped. The outcome of the awaited `onAdd` is a boolean parameter of `Dashboard.FinishSubmit`.
- `Date.now()` is a parameter at each call site. `INITIAL_DATA` reads the clock four times while the module loads. The model uses one reading for all four, so the comment and the first project share it, and the others are 100 and 200 seconds earlier.
- JavaScript numbers are doubles. Likes, timestamps and clock values are unbounded integers here. The decimal form covers integers whose magnitude is below 10^21, the range where `toString` does not switch to exponent notation.
- Dafny characters are Unicode scalar values, while the object store compares UTF-16 code units. The two orders of ids differ only between characters outside the Basic Multilingual Plane and those from U+E000 up.
- `Storage.ProjectStore.GetProjects`: the source sorts the fetched array in place with the library sort. The model builds the listing by inserting each record into a sequence. It proves that result is newest first and holds each record once, and `ListingUnique` shows it equals the sorted array. The in-place sort itself is not modelled.
- Rendering is not modelled. This covers JSX and CSS, the loading screen, `toLocaleDateString`, the gallery cards (`components/ProjectCard.tsx`) and the choice of which form is visible in which view. As in the source, the handlers do not check the current view.
- `AdminDashboard.Dashboard.OnFileRead`: only a read that succeeds is modelled. When a read fails, `loadend` still fires, `reader.result` is null, and the source stores null as the image. The next render then calls `startsWith` on it (AdminDashboard.tsx:237) and throws. The model's data URL is always a string, so this path is not captured.
- The browser's `required` validation of form fields is not modelled. Neither is the disabled submit button while a save is in flight, so `Dashboard.BeginSubmit` may start a second save.
