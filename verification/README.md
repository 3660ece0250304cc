# LELO rugby club site: the content layer, as a Dafny model

The site is a Next.js application for a rugby club. It has news, fixtures,
rosters, staff, a gallery and an admin panel. The model covers its content
layer, which everything else is built on:

- the browser-storage store in `lib/content-manager.ts`: site copy, news,
  fixtures, gallery images and players;
- the local account table in `lib/auth.ts`;
- the public readers with built-in fallbacks in `lib/data.ts`;
- the uploaded-image store and size formatter in `lib/image-storage.ts`;
- the inline edit-in-place control `components/editable-text.tsx`;
- the admin panels for players, site copy, users, news, upcoming matches
  and staff;
- the filters of the public news and gallery pages.

Browser storage is modelled as the record `ContentManager.Storage`. Each key
is one `Option` slot, and an absent key is `None`. The JSON round trip is
the identity. Every panel's "write, then reload the whole collection" is
written out as the store operation followed by the reader.

Module map:

| module | models |
|---|---|
| `Wrappers` | `Option` |
| `Js` | JavaScript's `||` defaulting, `trim`, `startsWith`, `includes` |
| `Collection` | `findIndex`, `find`, `filter`, the filter-then-compare-lengths delete, `Array.from(new Set(..))` |
| `Types` | the records of `lib/types.ts` and the object spread `{ ...x, ...updates }` |
| `ContentManager` | `lib/content-manager.ts` |
| `Auth` | `lib/auth.ts` |
| `Data` | `lib/data.ts` |
| `ImageStorage` | `lib/image-storage.ts` |
| `EditableText` | `components/editable-text.tsx` as a state machine |
| `PlayerForm`, `PlayerManager`, `ContentEditor`, `UserManager`, `NewsManager`, `UpcomingMatchesManager`, `PersonalManager` | the admin panels under `components/admin/` |
| `NewsPage`, `GalleryPage` | the filters of `app/news/page.tsx` and `app/gallery/page.tsx` |

The environment enters as parameters:

- `stamp`, `now` and `nowIso` stand for `Date.now()` and
  `new Date().toISOString()`.
- `toIso`, `parse`, `toInput` and `fromInput` stand for the date conversions.
- `fold` stands for `toLowerCase`.
- `read` is the FileReader result.
- `confirmed` is the answer to `confirm(...)`.
- `writeOk`, `fetchOk` and `deleteOk` are the outcomes of the hosted-database
  calls of the staff panel.
- `order` is the ordering the database applies to the staff query.
- `deleteItem` stands for `deleteContentItem`.

Two behaviours of the code worth knowing:

- **Upcoming matches.** `getUpcomingMatches` (lib/data.ts:76-101) keeps the
  fixtures strictly after now, in stored order, and takes the first two. The
  list is not sorted by date, and a fixture exactly at now is excluded.
- **Admin check.** `isAdmin` (lib/auth.ts:78-81) checks the current user's
  role. The address admin@lelo.ge only seeds the table in `initializeAuth`.

## Model

| member | source | states |
|---|---|---|
| Collection.IndexOf | lib/content-manager.ts:25 | `findIndex`: a found index holds the key and no earlier element does; not found exactly when no element has the key |
| Collection.Find | lib/auth.ts:43 | `find`: found exactly when some element has the key, and the result is the first such element |
| Collection.UpdateFirst | lib/content-manager.ts:105-116 | replacing the found element changes that position only and keeps the length; with no match nothing changes |
| Collection.Filter | lib/image-storage.ts:64 | `filter` keeps exactly the elements satisfying the predicate, never lengthens, and keeps each kept element's multiplicity |
| Collection.FilterShrinksIff | lib/content-manager.ts:118-128 | a filter shortens the list if and only if some element fails the predicate, which is how the deletes decide their boolean |
| Collection.DeleteAll | lib/content-manager.ts:118-128 | the delete reports true exactly when the key was present, removes every element with that key, keeps every other element with its multiplicity and in order, and leaves the list alone on false |
| Collection.FilterRemovesAll | lib/content-manager.ts:118-128 | filtering out one key removes every element with it and keeps every other element with its multiplicity, in order |
| Collection.FilterCommutes | lib/content-manager.ts:118-128 | filtering by two conditions gives the same list in either order |
| Collection.DeleteAllAfterAppend | lib/image-storage.ts:62-72 | deleting the key of a freshly appended, previously absent element restores the list and reports success |
| Collection.Distinct | app/news/page.tsx:30 | `Array.from(new Set(xs))` has each element of `xs` once and in order of first appearance |
| Collection.Labels | app/gallery/page.tsx:76 | `map` to the category keeps the length, puts each item's category at its position, and holds exactly the categories that occur |
| Collection.Selector | app/news/page.tsx:30 | the category options of the news and gallery pages: the wildcard first, then every category that occurs in the list, each listed once, in order of first appearance |
| Collection.FilterLengthIsCount | components/admin/player-manager.tsx:71-85 | the length of a filter is the number of elements satisfying the predicate |
| Js.TrimEmptyIffAllSpace | components/admin/player-form.tsx:48-49 | `s.trim()` is empty exactly when every character of `s` is white space |
| Js.ContainsIffOccurs | app/news/page.tsx:34-36 | `includes` holds exactly when the needle occurs at some position |
| ContentManager.DefaultContent | lib/content-manager.ts:48-80 | the built-in copy has four entries with ids "1" to "4" and pairwise distinct keys |
| ContentManager.GetEditableContent | lib/content-manager.ts:12-16 | reads the stored list, or the four built-in entries when nothing is stored |
| ContentManager.SaveEditableContent | lib/content-manager.ts:18-21 | after saving, reading gives back the saved list, and no other key changes |
| ContentManager.UpdateContent | lib/content-manager.ts:23-40 | an existing key has its first entry's value replaced in place; a new key is appended as a text entry of section "general"; only the content key is written |
| ContentManager.GetContentValue | lib/content-manager.ts:42-46 | the value of the first entry with that key when it is non-empty; the caller's fallback when that value is empty or no entry has the key |
| ContentManager.UpdatedEntryIsFirst | lib/content-manager.ts:23-37 | after an update the first entry with that key holds the new value |
| ContentManager.UpdateThenRead | lib/content-manager.ts:23-46 | reading a key after writing a non-empty value to it gives that value |
| ContentManager.UpdateEmptyThenRead | lib/content-manager.ts:42-46 | writing "" to a key makes it read as the caller's fallback |
| ContentManager.UpdateKeepsOtherKeys | lib/content-manager.ts:23-46 | updating one key never changes what another key reads |
| ContentManager.CreateNews | lib/content-manager.ts:94-103 | the new article carries the stamp as id, and is otherwise the draft; it is put in front of the stored list; only the news key changes |
| ContentManager.UpdateNews | lib/content-manager.ts:105-116 | the first article with the id becomes the spread of the patch over it and is returned; a missing id returns null and writes nothing |
| ContentManager.DeleteNews | lib/content-manager.ts:118-128 | true exactly when the id was present; afterwards no article has it and every other article remains, as often as before and in order |
| ContentManager.CreateMatch | lib/content-manager.ts:142-151 | the new fixture carries the stamp as id and is appended; only the matches key changes |
| ContentManager.UpdateMatch | lib/content-manager.ts:153-164 | the first fixture with the id gets the patch spread over it; a missing id returns null and writes nothing |
| ContentManager.DeleteMatch | lib/content-manager.ts:166-176 | true exactly when the id was present; afterwards no fixture has it and every other fixture remains, as often as before and in order |
| ContentManager.CreateImage | lib/content-manager.ts:190-199 | the new gallery record carries the stamp as id and is appended; only the images key changes |
| ContentManager.UpdateImage | lib/content-manager.ts:201-212 | the first record with the id gets the patch spread over it; a missing id returns null and writes nothing |
| ContentManager.DeleteImage | lib/content-manager.ts:214-224 | true exactly when the id was present; afterwards no record has it and every other record remains, as often as before and in order |
| ContentManager.DefaultPlayers | lib/content-manager.ts:274-345 | the built-in roster has four active cards with ids 1 to 4 |
| ContentManager.CreatePlayer | lib/content-manager.ts:238-247 | the new card carries the stamp as id and is appended to the roster, built-in or stored |
| ContentManager.UpdatePlayer | lib/content-manager.ts:249-260 | the first card with the id gets the patch spread over it; a missing id returns null and writes nothing |
| ContentManager.DeletePlayer | lib/content-manager.ts:262-272 | true exactly when the id was present; afterwards no card has it and every other card remains, as often as before and in order |
| Auth.SetCurrentUser | lib/auth.ts:26-33 | the current user reads back as the one set, and the account table is untouched |
| Auth.Register | lib/auth.ts:35-60 | a taken email is refused with "User already exists" and nothing written; otherwise exactly one account with that email, name and role ("user" when none is given) is appended; the session is untouched |
| Auth.RegisterKeepsEmailsUnique | lib/auth.ts:43-57 | registration preserves the invariant that no two accounts share an email |
| Auth.Login | lib/auth.ts:62-72 | succeeds if and only if some account has both the email and the password; the first such account becomes current; a failure changes nothing |
| Auth.Logout | lib/auth.ts:74-76 | afterwards there is no current user and `isAdmin` is false |
| Auth.InitializeAuth | lib/auth.ts:84-91 | an empty table receives the one built-in administrator; a non-empty table is left as it is |
| Auth.InitializedAdminCanLogIn | lib/auth.ts:62-91 | after seeding an empty table, the built-in credentials log in, and the session is an administrator's |
| Data.GetFeaturedNews | lib/data.ts:4-25 | the newest stored article, or the built-in story dated a day back |
| Data.GetRecentNews | lib/data.ts:27-65 | the first three stored articles (fewer if fewer stored), or the built-in stories 1, 2, 3 dated 1, 3 and 5 days back |
| Data.GetAllNews | lib/data.ts:67-74 | every stored article, or the built-in stories; never empty |
| Data.NewsReadersAgree | lib/data.ts:4-74 | the recent list is a prefix of the full list, and the featured story heads both |
| Data.GetUpcomingMatches | lib/data.ts:76-101 | with fixtures stored, the first two of those strictly after now, as a subsequence of the stored list; with none stored, two built-in fixtures a week and a fortnight ahead |
| Data.UpcomingMatchesAreUpcoming | lib/data.ts:76-101 | when date parsing reads back what date printing writes, every fixture returned is in the future, the built-in ones included |
| ImageStorage.UploadImage | lib/image-storage.ts:28-59 | a non-image MIME type is rejected with "File must be an image"; a failed read is rejected with "Failed to read file"; otherwise one record with the file's name, size, type and category ("general" when none is given) is appended and returned |
| ImageStorage.DeleteUploadedImage | lib/image-storage.ts:62-72 | true exactly when the id was present; afterwards no record has it and every other record remains, as often as before and in order |
| ImageStorage.GetImagesByCategory | lib/image-storage.ts:74-76 | exactly the stored images of that category, each as often as stored, in stored order |
| ImageStorage.UploadShowsInCategory | lib/image-storage.ts:28-76 | an accepted upload is listed last under its category ("general" by default) and changes no other category's listing |
| ImageStorage.UploadThenDelete | lib/image-storage.ts:28-72 | deleting a fresh upload by its id restores the store and reports success |
| ImageStorage.SizeExponent | lib/image-storage.ts:81 | the unit index is the i with 1024^i <= bytes < 1024^(i+1) |
| ImageStorage.SizeExponentUnique | lib/image-storage.ts:81 | that index is unique |
| ImageStorage.FormatFileSize | lib/image-storage.ts:78-84 | 0 gives "0 Bytes"; otherwise the scaled number and the unit of that index, "undefined" past GB |
| EditableText.Mount | components/editable-text.tsx:26-28 | a new control shows the fallback and is not editing |
| EditableText.Render | components/editable-text.tsx:52-86 | non-admins see plain text; admins see the pencil, or the editor while editing; the editor is multi-line exactly for textarea content |
| EditableText.Step | components/editable-text.tsx:32-86 | fetch loads the stored value or the fallback; the pencil opens the editor; typing replaces the draft; save writes the draft under the control's key and shows it; cancel restores the draft; only an admin's save while editing writes |
| EditableText.NonAdminNeverWrites | components/editable-text.tsx:52-54 | no sequence of events by a non-admin writes the store or opens the editor |
| EditableText.RunKeepsSettled | components/editable-text.tsx:41-50 | outside editing the draft always equals the shown value, whatever the events |
| EditableText.CancelDiscardsEdits | components/editable-text.tsx:47-50 | pencil, typing, cancel returns to the exact starting control and store |
| EditableText.SaveThenRemount | components/editable-text.tsx:32-45 | after pencil, typing and save, a freshly mounted control with the same key shows what was typed (or the fallback for "") |
| PlayerForm.InitialForm | components/admin/player-form.tsx:17-38 | a new form starts with every text field empty, age 20, Georgian, the default team, Men's Rugby, active and zero stats; an edit form carries the card's name, position and stats, its age when non-zero and each optional field when filled, the same defaults otherwise, and is active unless the card says false |
| PlayerForm.CategoryFromTeam | components/admin/player-form.tsx:70-83 | each of womens, youth and coaches maps to its own category, and every other team maps to "Men's Rugby" |
| PlayerForm.Validate | components/admin/player-form.tsx:46-54 | the name error is present if and only if the name is blank after trimming, the same for position, and the age error if and only if the age is outside 1 to 100; each with its message |
| PlayerForm.HandleSubmit | components/admin/player-form.tsx:42-68 | the submit succeeds exactly when validation finds nothing; a failure shows the errors and writes nothing; a success creates or patches the card |
| PlayerForm.SubmitFilesCardUnderTeam | components/admin/player-form.tsx:56-65 | a successful submit stores a card with the form's name and team and the category derived from that team |
| PlayerForm.UnchangedEditIsIdentity | components/admin/player-form.tsx:17-65 | opening a card and submitting unchanged leaves the roster as it was, when every field is present (free-text ones possibly empty), the name and position are not blank, the age is 1 to 100, the nationality and team are non-empty and the category is the team's |
| PlayerForm.NewFormNeedsNameAndPosition | components/admin/player-form.tsx:17-54 | a fresh form fails validation on exactly the name and the position |
| PlayerForm.SetField | components/admin/player-form.tsx:85-90 | setting one field changes that field and no other |
| PlayerForm.UpdateField | components/admin/player-form.tsx:85-90 | editing a field clears its shown error to "" and leaves the other errors |
| PlayerForm.FixingNameClearsItsError | components/admin/player-form.tsx:46-90 | after a submit fails on a blank name, typing a name clears the name error |
| PlayerForm.UpdateStat | components/admin/player-form.tsx:92-97 | setting one statistic changes that statistic and nothing else in the form |
| PlayerManager.FilteredPlayers | components/admin/player-manager.tsx:36-39 | "all" shows the roster unchanged; any other filter shows exactly the cards on that team, each as often as stored, in order |
| PlayerManager.TeamCount | components/admin/player-manager.tsx:71-85 | a team's count is the number of cards on that team |
| PlayerManager.TeamCountsPartition | components/admin/player-manager.tsx:71-85 | when every card is on one of the four teams, the four counts add up to the roster size |
| PlayerManager.HandleDelete | components/admin/player-manager.tsx:28-34 | a confirmed delete writes the store's delete of that id and reloads a list with no card of that id and every other card kept with its multiplicity, in order; a declined one changes nothing |
| ContentEditor.Load | components/admin/content-editor.tsx:19-25 | loading shows the stored copy with no pending changes |
| ContentEditor.HandleLocalUpdate | components/admin/content-editor.tsx:31-37 | the rows with that id get the field set; all other rows and the saved snapshot are untouched |
| ContentEditor.LocalUpdateIdempotent | components/admin/content-editor.tsx:31-37 | applying the same local edit twice is the same as once |
| ContentEditor.AddNewContent | components/admin/content-editor.tsx:46-55 | one row whose id and key carry the two clock readings and whose value is the placeholder is appended, and nothing else changes |
| ContentEditor.AddMakesChanges | components/admin/content-editor.tsx:46-79 | adding a row to a freshly loaded editor makes it report unsaved changes |
| ContentEditor.DefaultRowsKeepTheirKeys | components/admin/content-editor.tsx:128 | the key of a built-in row cannot be edited |
| ContentEditor.HandleSaveAll | components/admin/content-editor.tsx:39-44 | after saving, the store holds exactly the edited rows and the editor has no pending changes |
| ContentEditor.HandleDelete | components/admin/content-editor.tsx:58-77 | a declined delete changes nothing; a confirmed delete reaches the store only for a row without a "new_" id; the editor then reloads from the store |
| ContentEditor.DeletingNewRowDropsUnsavedEdits | components/admin/content-editor.tsx:58-77 | deleting an unsaved row leaves the store alone and reloads, discarding every local edit |
| UserManager.Flip | components/admin/user-manager.tsx:36 | the new role always differs from the old one |
| UserManager.ToggleRole | components/admin/user-manager.tsx:34-40 | the accounts with that id switch role; all other accounts are untouched |
| UserManager.ToggleTwiceRestores | components/admin/user-manager.tsx:34-40 | toggling the same account twice restores the table |
| UserManager.HandleDelete | components/admin/user-manager.tsx:26-32 | a confirmed delete removes exactly the accounts with that id, keeping every other account with its multiplicity and in order; a declined one changes nothing |
| UserManager.AdminCountIsFilterLength | components/admin/user-manager.tsx:91 | the admin count is the length of the admin filter the button uses |
| UserManager.AllowedDeleteKeepsAnAdmin | components/admin/user-manager.tsx:26-32 | with unique ids, any delete the enabled button allows leaves at least one administrator |
| UserManager.ToggleCanDemoteLastAdmin | components/admin/user-manager.tsx:34-40 | the role toggle has no last-admin guard: it can turn the only administrator into a user |
| NewsManager.InitNewsForm | components/admin/news-manager.tsx:125-133 | a new form is blank with zero views; an edit form carries the article's fields, with "" for missing ones |
| NewsManager.Payload | components/admin/news-manager.tsx:135-142 | the submitted record carries the form's fields, keeps the article's publication date (now for a new one or one whose date is empty) and its archived flag (false for a new one) |
| NewsManager.AsPatch | components/admin/news-manager.tsx:33-38 | spreading the submitted payload over any article gives the payload with that article's id |
| NewsManager.HandleSubmit | components/admin/news-manager.tsx:27-53 | an open article is patched and a new form is created; either way the dialog closes and the list is reloaded |
| NewsManager.CreateShowsOnTop | components/admin/news-manager.tsx:27-31 | a created article appears first in the reloaded list |
| NewsManager.UnchangedEditIsIdentity | components/admin/news-manager.tsx:125-142 | opening an article with a non-empty date and set image and archived fields (possibly "" and false) and submitting unchanged leaves the news list as it was |
| NewsManager.HandleDelete | components/admin/news-manager.tsx:40-45 | a confirmed delete writes the store's delete of that id and reloads a list without that id that keeps every other article with its multiplicity, in order; a declined one changes nothing |
| UpcomingMatchesManager.LoadMatches | components/admin/upcoming-matches-manager.tsx:23-28 | the panel lists exactly the stored fixtures dated after now, each as often as stored, in stored order |
| UpcomingMatchesManager.HomePageShowsHeadOfList | lib/data.ts:76-80 | the home page's fixtures are the head of the admin panel's list |
| UpcomingMatchesManager.InitMatchForm | components/admin/upcoming-matches-manager.tsx:137-144 | a new form is blank with status "scheduled"; an edit form carries the fixture's teams, venue and type, its date in input form or "" when it has none, and its status or "scheduled" |
| UpcomingMatchesManager.EditPatch | components/admin/upcoming-matches-manager.tsx:146-152 | spreading an edit over a fixture replaces the form's fields and keeps the id and both logos |
| UpcomingMatchesManager.HandleSubmit | components/admin/upcoming-matches-manager.tsx:30-41 | an open fixture is patched and a new form is created; the dialog closes and the list is reloaded |
| UpcomingMatchesManager.CreatedShowsIffUpcoming | components/admin/upcoming-matches-manager.tsx:23-34 | a created fixture is listed if and only if its date is after now |
| UpcomingMatchesManager.EditKeepsLogos | components/admin/upcoming-matches-manager.tsx:36-41 | editing a stored fixture keeps its id and logos and sets the chosen status |
| UpcomingMatchesManager.DeleteThenLoad | components/admin/upcoming-matches-manager.tsx:23-48 | reloading after a store delete gives the previous upcoming list with that id filtered out |
| UpcomingMatchesManager.HandleDelete | components/admin/upcoming-matches-manager.tsx:43-48 | a confirmed delete writes the store's delete of that id and reloads a list without that id that keeps every other upcoming fixture with its multiplicity, in order; a declined one changes nothing |
| PersonalManager.NullIfEmpty | components/admin/personal-manager.tsx:51-56 | an empty input becomes null and any other input is kept |
| PersonalManager.OpenModal | components/admin/personal-manager.tsx:79-88 | opening fills the form from the member, or blanks it for a new one, and opens the dialog |
| PersonalManager.UpdateRows | components/admin/personal-manager.tsx:58-60 | the rows with the edited id receive the form's data; other rows are untouched |
| PersonalManager.HandleSave | components/admin/personal-manager.tsx:45-69 | a blank name changes nothing; otherwise the row is updated or inserted when the write succeeds, the dialog closes and the list is fetched again |
| PersonalManager.UnchangedSaveIsIdentity | components/admin/personal-manager.tsx:45-88 | opening a member with no empty field and saving unchanged leaves the table as it was |
| PersonalManager.InsertedMemberIsListed | components/admin/personal-manager.tsx:58-68 | after a successful insert and fetch, the new member appears in the list |
| PersonalManager.HandleDelete | components/admin/personal-manager.tsx:71-77 | a declined delete changes nothing; a successful one removes exactly that id; a failed one keeps the table; the list is fetched again |
| NewsPage.OfferedCategoryShowsSomething | app/news/page.tsx:30-38 | every category the selector offers besides "All" shows at least one article of it when the search is empty |
| NewsPage.FilteredNews | app/news/page.tsx:32-38 | exactly the articles whose category matches (or "All" is selected) and whose title or excerpt contains the search, each as often as stored, in order |
| NewsPage.EmptySearchOnlyCategory | app/news/page.tsx:32-38 | with an empty search only the category decides |
| NewsPage.AllAndEmptyShowsEverything | app/news/page.tsx:14-15 | the initial filters show every article |
| NewsPage.ResetAsWritten | app/news/page.tsx:144-148 | the reset button sets the category to "all", which is not the "All" wildcard |
| NewsPage.ResetAsWrittenHidesAll | app/news/page.tsx:144-148 | after that reset no article shows unless some article's category is literally "all" |
| NewsPage.ResetAsWrittenCounterexample | app/news/page.tsx:144-148 | a one-article list shows that article initially but nothing after that reset |
| NewsPage.Reset | app/news/page.tsx:14-15 | the corrected reset returns to the initial filters |
| NewsPage.ResetShowsAllNews | app/news/page.tsx:144-148 | the corrected reset shows every article |
| GalleryPage.OfferedCategoryShowsSomething | app/gallery/page.tsx:41-76 | every category the selector offers besides the wildcard shows at least one image of it when the search is empty |
| GalleryPage.ByCategory | app/gallery/page.tsx:42-46 | the wildcard keeps every image; any other category keeps exactly its images, each as often as stored, in order |
| GalleryPage.FilterImages | app/gallery/page.tsx:41-57 | exactly the images in the selected category whose alt text or category contains the search, each as often as stored, in order |
| GalleryPage.Reset | app/gallery/page.tsx:201-205 | the reset button selects the wildcard and clears the search |
| GalleryPage.ResetShowsAllImages | app/gallery/page.tsx:201-205 | after the reset every image is shown |

## Left out

- The JSON encoding of the storage keys, the `typeof window` guards and
  `console` logging: the store is modelled as the decoded values.
- Clocks, id generation, date formatting and parsing, and lower-casing:
  these are parameters. The ids are assumed fresh only where a lemma says so.
- ImageStorage.FormatFileSize: the floating-point division and
  `toFixed(2)` enter as the parameter `showScaled`. The exponent is the
  exact integer one. `Math.floor(Math.log(b) / Math.log(1024))` can round
  differently at exact powers of 1024.
- The `File` object and the data URL read from it: only the name, size and
  MIME type are modelled, and the read result is a parameter.
- Rendering, styling and the dialog and loading flags (`isLoading`,
  `isSaving`) except where they gate an action.
- Asynchrony: every `await` is treated as completing before the next step.
- `components/admin/image-manager.tsx`, `components/admin/match-manager.tsx`,
  the login and register forms, the auth provider, and the other public
  pages are not part of this model. They only call the modelled functions.
- The hosted-database backend of the staff panel is an abstract table. It
  is read through the `order` parameter, and the write outcomes are
  booleans.
- `deleteContentItem`, called by the content editor, is not defined in the
  store module. It is the parameter `deleteItem`.
- Passwords: they are compared by equality only, as the source does, with
  no hashing.
- The gallery page's `handleAddImage` and `handleDeleteImage` are the
  modelled `createImage` and `deleteImage` followed by a reload.
- PlayerForm.Validate: `parseInt` on the age input is not modelled. The age
  is an integer, so a `NaN` age is out of scope.
- PlayerManager.TeamCountsPartition: holds only when every card has one of
  the four team values. Cards with no team or another team are counted by
  none of the buttons.
- UserManager.ToggleRole: the account table is a plain sequence. Saving it
  with `saveUsers` and reading it back with `getUsers` is the identity, so
  the result is the table itself.

## Findings

| source | as written | input that shows it | evidently intended | confidence | as-written member | corrected member |
|---|---|---|---|---|---|---|
| app/news/page.tsx:146 | the "View All News" button sets the category to "all" | any article, say one in category "General": the initial filters show it, and after the reset nothing is shown because "all" is neither "All" nor its category | set the category to "All", the wildcard the filter tests at line 33 and the initial state at line 14 | high (not executed) | NewsPage.ResetAsWrittenCounterexample | NewsPage.ResetShowsAllNews |
