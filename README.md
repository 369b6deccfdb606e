# ModernBlog post, query and session logic in Dafny

ModernBlog is a single-user blog that runs entirely in the browser. Visitors read
published posts. An administrator logs in with a fixed account and writes, edits and
deletes posts. Everything is kept in the browser's local storage.

This project models the logic behind that, one Dafny module per source file:

- `Storage` (`src/utils/storage.ts`): the post excerpt, building a post on create and
  on update, the three sample posts, and loading with its fallback to the samples.
- `Sanitize` (`src/utils/sanitize.ts`): the four removal passes of `sanitizeHtml` and
  `sanitizeText`, `validateInput`, the 32-bit rolling `hashPassword` and
  `createSecureCredentials`.
- `Pagination` (`src/components/Pagination.tsx`): the page-button list with its
  `...` markers, the "Showing a-b of n" range, the hide rule and the Previous/Next
  enablement.
- `PostQuery`: the search and tag filter, the sorted tag list and the page slicing.
  `src/components/AdminLayout.tsx` and `src/components/VisitorLayout.tsx` each repeat
  this code word for word, so it is modelled once.
- `Admin` and `Visitor`: the two layouts as classes whose fields are the React hook
  states.
- `Form` (`src/components/BlogForm.tsx`): the post editor's state, its submit guard,
  and adding and removing tags.
- `Auth` (`src/contexts/AuthContext.tsx`): the authentication flag, the start-up
  session check, `login` and `logout`, and the key/value store they share.
- `LoginPage` (`src/components/Login.tsx`): the credential check of the login page.

Shared modules:

- `Wrappers`: an `Option` type.
- `Seqs`: `filter` and the order-preserving subsequence relation.
- `JsString`: the JavaScript string built-ins the code relies on: `trim` with its
  white-space set, ASCII `toLowerCase`, `includes`, `parseInt(s, 10)` and
  `Number.prototype.toString(radix)`.

How the model is built:

- **State.** Hook state is a class field. A handler is a method. An effect runs as
  part of the handler whose state change triggers it: the filter effect re-filters and
  resets the page to 1 inside every method that changes `posts`, `searchQuery` or
  `selectedTag`. React does not re-render when a state is set to the value it already
  has, so setting the same search text or tag again leaves the page where it is.
- **Inputs from outside.** Time, fresh ids and storage contents are parameters.
  `JSON.parse` with date revival and `JSON.stringify` are function parameters
  `parse` and `stringify`.
- **Regular expressions.** Each removal pattern is a matcher: a function giving the
  length of the match that begins at a position, or 0. A global `replace(regex, '')`
  is one left-to-right scan over any matcher. It drops each match and resumes after
  it, or keeps the character when no match begins there.
- **Code the model cannot see.** `deletePost` is imported by
  `src/components/AdminLayout.tsx` but defined in no file of the repository. Its
  result is a parameter of `HandleDeletePost`.
- **Credentials.** The login page compares the plain password with `"password123"`,
  and `login` stores only the flag `isAuthenticated`. Excerpts end in three ASCII
  dots.

## Model

| member | source | states |
|---|---|---|
| Storage.GenerateExcerpt | src/utils/storage.ts:9-11 | the excerpt is the content itself up to 150 characters; longer content gives exactly 153 characters, agreeing with the content on the first 150 |
| Storage.ExcerptOfLongContent | src/utils/storage.ts:10 | content longer than 150 characters is cut at 150 and followed by "..." |
| Storage.ExcerptIsContentIff | src/utils/storage.ts:10 | the excerpt equals the content iff the content has at most 150 characters, or has 153 and already ends in "..." |
| Storage.CreatePost | src/utils/storage.ts:34-43 | the five editable fields are copied unchanged; the id is the drawn id; creation and update time are the same `now`; the excerpt is the content's excerpt |
| Storage.UpdatePost | src/utils/storage.ts:45-52 | id and creation time are kept; the five editable fields come from the update; the excerpt is recomputed from the new content; the update time is `now`; the old record is a value and is not changed |
| Storage.LastUpdateWins | src/utils/storage.ts:45-52 | updating twice is the same as applying only the second update |
| Storage.UpdateOfCreated | src/utils/storage.ts:34-52 | updating a new post gives the post that creating it with the new fields would give, except for the update time |
| Storage.SamplePostsShape | src/utils/storage.ts:54-89 | the sample posts have the ids "1", "2", "3", all different; the first two are published and the third is a draft |
| Storage.SampleExcerptsAreHandWritten | src/utils/storage.ts:54-89 | no sample excerpt is what `generateExcerpt` makes of its content |
| Storage.LoadPosts | src/utils/storage.ts:17-32 | no stored value, an empty one, or one that does not parse gives the sample posts; otherwise the parsed list |
| Storage.SavePosts | src/utils/storage.ts:13-15 | the posts key holds the serialised list and every other key is kept |
| Storage.LoadAfterSave | src/utils/storage.ts:13-32 | loading after saving gives back the saved list, given a non-empty serialisation that parses back |
| JsString.TrimIsInfix | src/utils/sanitize.ts:7 | `trim` removes white space at both ends only, and the result neither starts nor ends with white space |
| JsString.TrimEmptyIff | src/components/BlogForm.tsx:35 | a string trims to "" iff it is all white space |
| JsString.RadixStringValue | src/utils/sanitize.ts:53 | reading `n.toString(radix)` back in the same base gives `n` |
| JsString.ParseDecimalString | src/contexts/AuthContext.tsx:22 | `parseInt` of the decimal form of `n` gives `n` |
| Sanitize.SanitizeHtmlRemovesOnly | src/utils/sanitize.ts:14-25 | `sanitizeHtml` only deletes characters, never adds or reorders any |
| Sanitize.SanitizeHtmlWithoutKeys | src/utils/sanitize.ts:18-22 | text without `<`, `:` and `=` passes through `sanitizeHtml` unchanged |
| Sanitize.SanitizeTextBounds | src/utils/sanitize.ts:3-12 | `sanitizeText` is a subsequence of the trimmed text, so never longer; it is the trimmed text when the input has none of `<`, `:`, `=` |
| Sanitize.RemoveFromIsSubsequence | src/utils/sanitize.ts:18-22 | one global `replace(regex, '')` pass, for any matcher, keeps a subsequence of the text it reads |
| Sanitize.RemoveFromWithoutKey | src/utils/sanitize.ts:18-22 | a pass over text without the pattern's key character (`<`, `:` or `=`) changes nothing |
| Sanitize.OnePassCanReassemble | src/utils/sanitize.ts:18-22 | a single global pass of the `data:` pattern over `dadata:ta:` leaves `data:`, and so does `sanitizeHtml`, so its output can still hold a removed pattern |
| Sanitize.ValidateInput | src/utils/sanitize.ts:27-42 | the empty string is rejected for every kind, and every accepted input has 1 to 10000 characters |
| Sanitize.EmailAcceptedIff | src/utils/sanitize.ts:33-35 | an e-mail is accepted iff it has at most 254 characters, no white space, exactly one `@` with something before it, and a `.` after the `@` that is neither first nor last there |
| Sanitize.ValidationKindsRelate | src/utils/sanitize.ts:27-42 | a valid username or e-mail is also valid text, and no string is both a valid username and a valid e-mail |
| Sanitize.ToInt32 | src/utils/sanitize.ts:51 | the result is a 32-bit signed integer congruent to the input modulo 2^32 |
| Sanitize.HashStepIsTimes31 | src/utils/sanitize.ts:50-51 | one loop step is `ToInt32(31 * hash + code)` |
| Sanitize.HashPassword | src/utils/sanitize.ts:44-54 | the loop computes the left fold of the step over the password, and the result is its absolute value in base 36 |
| Sanitize.HashTextShape | src/utils/sanitize.ts:53 | the hash text is non-empty, uses only `0-9a-z`, and is "0" for the empty password |
| Sanitize.CreateSecureCredentials | src/utils/sanitize.ts:56-63 | the username is "admin" and the hash is the hash of "password123" |
| Pagination.GetPageNumbers | src/components/Pagination.tsx:23-51 | the two push loops build exactly the list `PageNumbers` describes |
| Pagination.PushPages | src/components/Pagination.tsx:28-30 | the push loop appends exactly the pages `lo..hi`, in order, to what is already there |
| Pagination.FewPagesAllListed | src/components/Pagination.tsx:27-30 | with at most five pages the list is `1..totalPages`, without markers |
| Pagination.ManyPagesShowEnds | src/components/Pagination.tsx:31-47 | with more than five pages the list starts with page 1 and, for a current page not past the end, ends with the last page |
| Pagination.NumbersIncreaseWithinRange | src/components/Pagination.tsx:32-47 | every number lies in `[1, totalPages]` and the numbers strictly increase |
| Pagination.AtMostNineEntries | src/components/Pagination.tsx:32-47 | the window holds at most five numbers and the list at most nine entries |
| Pagination.CurrentPageListed | src/components/Pagination.tsx:32-42 | a current page within `[1, totalPages]` has its own button |
| Pagination.MarkersExactlyAtGaps | src/components/Pagination.tsx:35-47 | a marker stands only between two numbers more than one apart, and numbers next to each other are consecutive pages |
| Pagination.HiddenIffAtMostOneEntry | src/components/Pagination.tsx:18 | the bar is hidden iff the list would hold at most one button |
| Pagination.ButtonsLeadToPages | src/components/Pagination.tsx:70-126 | on a valid page, Previous and Next are enabled iff the page they lead to exists |
| PostQuery.FilterIsSelection | src/components/AdminLayout.tsx:29-44 | the two filters select, in order, exactly the posts whose title, content or author contains the query ignoring case and that carry the tag when one is chosen |
| PostQuery.NoCriteriaKeepsAll | src/components/AdminLayout.tsx:29-44 | with no query and no tag every post is shown, in order |
| PostQuery.SortIsStrictlySorted | src/components/AdminLayout.tsx:100 | sorting gives a strictly increasing list in lexicographic character order; for input without repetitions it has the same length |
| PostQuery.AllTagsSortedUnion | src/components/AdminLayout.tsx:100 | the tag list is strictly sorted, has one entry per distinct tag and no tag twice, and holds exactly the tags some post carries |
| PostQuery.PageCountIsCeiling | src/components/AdminLayout.tsx:103 | the page count is the least number of full-size pages that hold every item |
| PostQuery.PageSliceBounded | src/components/AdminLayout.tsx:104-106 | a page never holds more items than the page size |
| PostQuery.PageSliceMembers | src/components/AdminLayout.tsx:104-106 | a page holds only items of the filtered list |
| PostQuery.PagesCoverItems | src/components/AdminLayout.tsx:103-106 | pages 1 to the page count, laid end to end, give back the filtered list |
| PostQuery.ShowingRangeMatchesPage | src/components/Pagination.tsx:20-21 | on a valid page `1 <= startItem <= endItem <= totalItems`, and the page shows exactly items `startItem..endItem` |
| Admin.ReplaceById | src/components/AdminLayout.tsx:64 | the length is kept, every post with the edited id becomes the update, and every other post stays |
| Admin.ReplaceKeepsIds | src/components/AdminLayout.tsx:62-64 | replacing by a post with the same id changes no id, so unique ids stay unique |
| Admin.PrependKeepsIdsUnique | src/components/AdminLayout.tsx:66-67 | putting a post with a new id in front keeps the ids unique |
| Admin.SaveKeepsIdsUnique | src/components/AdminLayout.tsx:59-71 | saving keeps the ids unique: an edit keeps every id in place, a creation adds one post with the new id in front of the old list |
| Admin.AdminLayout.constructor | src/components/AdminLayout.tsx:13-27 | after mounting, the posts are the loaded list, all shown, no filter is set, the page is 1 and no dialog is open |
| Admin.AdminLayout.RunFilterEffect | src/components/AdminLayout.tsx:29-46 | the shown list becomes the filter of the posts and the page is reset to 1; nothing else changes |
| Admin.AdminLayout.SetSearchQuery | src/components/AdminLayout.tsx:171-178 | a new query re-filters and resets to page 1; the same query changes nothing |
| Admin.AdminLayout.SetSelectedTag | src/components/AdminLayout.tsx:181-191 | a new tag re-filters and resets to page 1; the same tag changes nothing |
| Admin.AdminLayout.HandleCreatePost | src/components/AdminLayout.tsx:48-51 | the form opens with no post being edited |
| Admin.AdminLayout.HandleEditPost | src/components/AdminLayout.tsx:53-57 | the form opens on the post and the reading view closes |
| Admin.AdminLayout.HandleSavePost | src/components/AdminLayout.tsx:59-74 | an edit replaces the edited id by its update, a new post goes first; the new list is saved; the form closes and the edit is cleared; the list is re-filtered and the page reset |
| Admin.AdminLayout.HandleCancelForm | src/components/AdminLayout.tsx:76-79 | the form closes with no edit pending and the posts unchanged |
| Admin.AdminLayout.HandleViewPost | src/components/AdminLayout.tsx:81-83 | the reading view shows the post |
| Admin.AdminLayout.HandleCloseView | src/components/AdminLayout.tsx:85-87 | the reading view closes |
| Admin.AdminLayout.HandleDeletePost | src/components/AdminLayout.tsx:89-94 | the list becomes the result of `deletePost` and is saved; the reading view closes; the list is re-filtered and the page reset |
| Admin.AdminLayout.HandleLogout | src/components/AdminLayout.tsx:96-98 | the administrator is logged out and the session keys are removed |
| Admin.AdminLayout.HandlePageChange | src/components/AdminLayout.tsx:108-111 | only the current page changes |
| Admin.DashboardView | src/components/AdminLayout.tsx:100-106 | a page holds at most six posts; the pages together hold the filtered list; the filtered list keeps the posts' order; the tag selector lists each tag of every post once, sorted |
| Visitor.VisitorTagsArePublished | src/components/VisitorLayout.tsx:53 | visitors are offered exactly the tags of published posts, never a tag that only drafts carry |
| Visitor.VisitorResultsArePublished | src/components/VisitorLayout.tsx:18-41 | the visitor list is a subsequence of the loaded posts; a post is in it iff it is published and passes the search and tag filter |
| Visitor.VisitorLayout.constructor | src/components/VisitorLayout.tsx:10-24 | after mounting, the posts are the published part of the loaded list, all shown, with no filter on page 1 |
| Visitor.VisitorLayout.RunFilterEffect | src/components/VisitorLayout.tsx:26-43 | the shown list becomes the filter of the published posts and the page is reset to 1 |
| Visitor.VisitorLayout.SetSearchQuery | src/components/VisitorLayout.tsx:26-43 | a new query re-filters and resets to page 1; the same query changes nothing; every post stays published |
| Visitor.VisitorLayout.SetSelectedTag | src/components/VisitorLayout.tsx:26-43 | a new tag re-filters and resets to page 1; the same tag changes nothing |
| Visitor.VisitorLayout.HandleViewPost | src/components/VisitorLayout.tsx:45-47 | the reading view shows the post |
| Visitor.VisitorLayout.HandleCloseView | src/components/VisitorLayout.tsx:49-51 | the reading view closes |
| Visitor.VisitorLayout.HandlePageChange | src/components/VisitorLayout.tsx:61-64 | only the current page changes |
| Visitor.BlogView | src/components/VisitorLayout.tsx:53-59 | a page holds at most nine posts, all published; the pages together hold the filtered list; every offered tag belongs to a published post |
| Form.CanSubmitIffNotBlank | src/components/BlogForm.tsx:35-37 | the submit guard passes iff none of title, content and author is blank |
| Form.TagsAfterAdd | src/components/BlogForm.tsx:41-49 | the old tags stay in front and one tag is added iff the trimmed input is non-empty and new; the tags afterwards are the old ones plus the trimmed input unless it is empty; a list without repetitions stays without them |
| Form.RemoveTagKeepsOthers | src/components/BlogForm.tsx:51-56 | every occurrence of the tag is removed, the other tags keep their order, and a list without repetitions stays without them |
| Form.BlogForm.constructor | src/components/BlogForm.tsx:12-31 | a new form is empty, untagged and a draft; an edit form holds the post's five editable fields; the tag box is empty |
| Form.BlogForm.PrefillFrom | src/components/BlogForm.tsx:21-31 | an edited post's fields replace the form; without a post the form is kept |
| Form.BlogForm.HandleSubmit | src/components/BlogForm.tsx:33-39 | `onSave` is called iff no required field is blank, and receives the form untrimmed |
| Form.BlogForm.AddTag | src/components/BlogForm.tsx:41-49 | a taken input is appended trimmed and the box cleared; otherwise nothing changes |
| Form.BlogForm.RemoveTag | src/components/BlogForm.tsx:51-56 | only the tag list changes, as `TagsAfterRemove` describes |
| Form.BlogForm.SetTitle | src/components/BlogForm.tsx:108 | only the title changes |
| Form.BlogForm.SetAuthor | src/components/BlogForm.tsx:122 | only the author changes |
| Form.BlogForm.SetTagInput | src/components/BlogForm.tsx:137 | only the tag box changes |
| Form.BlogForm.SetContent | src/components/BlogForm.tsx:194 | only the content changes |
| Form.BlogForm.SetPublished | src/components/BlogForm.tsx:206 | only the published flag changes |
| Auth.StartUpDecision | src/contexts/AuthContext.tsx:15-32 | a session is restored iff the flag is "true", token and expiry are non-empty, and `now` is before the parsed expiry; nothing happens iff one of the three is missing or empty or the flag is not "true" |
| Auth.ClearSession | src/contexts/AuthContext.tsx:39-44 | logout removes exactly the three session keys and keeps every other key with its value |
| Auth.ClearSessionIdempotent | src/contexts/AuthContext.tsx:39-44 | logging out twice is logging out once |
| Auth.MarkAuthenticated | src/contexts/AuthContext.tsx:34-37 | login sets the flag to "true" and changes no other key |
| Auth.NoTokenNoRestore | src/contexts/AuthContext.tsx:21 | without a stored token the start-up check does nothing |
| Auth.LoginAsWrittenIsNotRestored | src/contexts/AuthContext.tsx:34-44 | login and logout never store a token, so after logging in the start-up check of the next page load restores nothing |
| Auth.StartSession | src/contexts/AuthContext.tsx:34-37 | a session login stores "true" under the flag key, the token under the token key and the decimal form of `now` plus one day under the expiry key, and keeps every other key |
| Auth.StartedSessionRestoredUntilExpiry | src/contexts/AuthContext.tsx:21-30 | a stored session is restored until one day after the login and cleared from then on |
| Auth.AuthProvider.constructor | src/contexts/AuthContext.tsx:12-32 | after mounting, the state is authenticated iff the start-up check restores; an expired session is cleared; otherwise the store is untouched |
| Auth.AuthProvider.Login | src/contexts/AuthContext.tsx:34-37 | authenticated, and only the flag is written |
| Auth.AuthProvider.LoginWithSession | src/contexts/AuthContext.tsx:34-37 | authenticated, with flag, token and expiry written |
| Auth.AuthProvider.Logout | src/contexts/AuthContext.tsx:39-44 | not authenticated, and exactly the three session keys removed |
| LoginPage.Login.constructor | src/components/Login.tsx:9-12 | the page starts with empty fields, no error and not loading |
| LoginPage.Login.SetUsername | src/components/Login.tsx:101 | only the username changes |
| LoginPage.Login.SetPassword | src/components/Login.tsx:134 | only the password changes |
| LoginPage.Login.BeginSubmit | src/components/Login.tsx:14-17 | the previous error is cleared, the page is loading, and the current username and password are captured for the timed callback |
| LoginPage.Login.CompleteSubmit | src/components/Login.tsx:23-32 | success iff the captured pair is exactly "admin" and "password123", whatever the fields hold now; on success the flag is stored; on failure the single error message is set and nothing is stored; loading ends either way |
| LoginPage.Login.HandleSubmit | src/components/Login.tsx:14-33 | the whole submit: reports success iff the credentials typed are exactly "admin" and "password123", stores the flag only then, shows the message only otherwise, and ends not loading |

## Left out

- Local storage, `JSON.parse`/`JSON.stringify` and the revival of `Date` values are not modelled. The stored text is a parameter and the parser a function parameter. The layouts record the list they save in the field `persisted`, not in a store.
- `Date` values are millisecond counts. `generateId`, `new Date()` and `Date.now()` are parameters.
- Admin.AdminLayout.HandleDeletePost: `deletePost` is defined in no file of the repository, so its result is a parameter and nothing is proved about what it removes.
- Admin.AdminLayout.HandlePageChange: any page number is accepted. Only the buttons limit which pages can be chosen, as `Pagination.ButtonsLeadToPages` and `Pagination.NumbersIncreaseWithinRange` show.
- Admin.AdminLayout.constructor: only the settled state after mounting is modelled. On mount the filter effect first runs once on the initial empty list, then again on the loaded list. The same holds for `Visitor.VisitorLayout.constructor`.
- The 1-second `setTimeout` of the login page and `window.scrollTo` in the layouts are not modelled. The timed callback is the separate step `LoginPage.Login.CompleteSubmit`. It checks the pair captured by `BeginSubmit`, even when the fields were edited in between.
- LoginPage.Login.BeginSubmit: one pending submission is modelled at a time. The submit button is disabled while loading. A second submission before the callback would replace the captured pair, whereas in the source two timers would each check their own pair.
- `HashPassword` and `ValidateInput` work on Dafny characters, which are Unicode scalar values, while JavaScript strings are UTF-16 code units. For characters outside the Basic Multilingual Plane, JavaScript's `length` and `charCodeAt` differ from the model.
- Storage.GenerateExcerpt: the 150-character limit counts Unicode scalar values, while `content.length` and `substring(0, 150)` count UTF-16 code units. Content with characters outside the Basic Multilingual Plane is cut later in the model than in the source, and the model never splits a surrogate pair.
- PostQuery.SortIsStrictlySorted: the order is lexicographic by Unicode scalar value, while `.sort()` compares UTF-16 code units. The two orders differ only when a character outside the Basic Multilingual Plane meets one in U+E000 to U+FFFF. `PostQuery.Less`, `PostQuery.Sort` and `PostQuery.AllTags` share this gap.
- `toLowerCase` lower-cases ASCII letters only. Unicode case mapping is not modelled.
- JsString.ParseInt: the result is an exact integer. JavaScript loses precision for digit strings beyond 2^53.
- The `typeof ... !== 'string'` guards of `sanitizeText`, `sanitizeHtml` and `validateInput` are not modelled: every input is a string.
- `ImageUpload`, `BlogCard`, `BlogView`, `Header`, routing in `App.tsx` and `ProtectedRoute` are not modelled. `ProtectedRoute` is in no file of the repository. All JSX rendering and styling is left out too.
- `AllTags`, `TotalPages` and `CurrentPosts` of the layouts are functions of the layout state. What they compute is stated by `Admin.DashboardView` and `Visitor.BlogView`.

## Findings

| source | as written | input that shows it | evidently intended | confidence | as-written member | corrected member |
|---|---|---|---|---|---|---|
| src/contexts/AuthContext.tsx:34-37 | `login` and the login page store only `isAuthenticated`. No code stores `sessionToken` or `sessionExpiry`, yet the start-up check (line 21) requires both. | Log in, then reload the page. The start-up check finds no token, so the administrator is logged out again. | Login stores a session token and an expiry one day ahead, so the session survives reloads until it expires. | not executed; high | Auth.LoginAsWrittenIsNotRestored | Auth.StartedSessionRestoredUntilExpiry |
