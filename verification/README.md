# Monynha Softwares website: a verified model of its decision rules

The Monynha Softwares website is a React single-page site over a hosted database. It has a public
portfolio, a blog, a contact form, GitHub repository listings and an admin area. This project
models the self-contained logic inside its hooks and components, and proves what that logic
promises:

- **Blog.** The Markdown front-matter parser (`parseFrontMatter`) and the post loader's
  selection, skip-on-failure and newest-first ordering (`BlogPosts`).
- **Forms.**
  - The contact form schema and submission (`ContactForm`).
  - The password-reset page's checks and session gate (`PasswordReset`).
- **Admin editors.**
  - The form ⇄ row serialisers for projects, blog posts and experiences (`ProjectsManager`,
    `BlogPostsManager`, `ExperiencesManager`).
  - The settings card: initial text, JSON-or-text payload, dirty tracking and editor choice
    (`SettingsManager`).
  - All of them write through a table of rows keyed by id (`Store`, `AdminForms`).
- **Settings read side.** `useSiteSetting`'s fallback and "JSON if it parses" resolution
  (`SiteSettings`).
- **Lists.**
  - The artwork search filter (`Artworks`).
  - The repository merge, filter, map and in-place sort (`Repositories`).
  - The portfolio's category menu, active link and featured strip (`Portfolio`).
- **Navigation.**
  - The navigation bar's keyboard handling, focus save/restore, scroll lock and mobile menu
    assembly (`GooeyNav`, a class over the menu's state).
  - The full-width menu's edge choice, accent style, active flags and click reporting
    (`FlowingMenu`).
- **Routing.** The `ProtectedRoute` guard and the route table (`AppRoutes`).
- **Home page.** Fallback chains and featured sections (`Home`).

Shared modules:

- `Wrappers`: `Option` and `Result`.
- `Text`: JavaScript whitespace, `trim`, `split`/`join`, ASCII `toLowerCase`, `includes`.
- `Numbers`: `parseInt` and integer `toString`.
- `Json`: JSON values and their truthiness.
- `Sorting`: a stable descending sort standing in for `Array#sort`.

Everything the site hands to a foreign library or service is a parameter of the model:

- the database's answers;
- `fetch`;
- `JSON.parse` and `JSON.stringify`;
- the e-mail format check;
- `new Date(..).getTime()`;
- `marked` and `DOMPurify`;
- the translation function `t`.

Lengths are counted in characters.

## Model

| member | source | states |
|---|---|---|
| BlogPosts.FindFence | src/hooks/useBlogPosts.ts:8-9 | returns the first position at or after `from` holding `---`, or none when there is no such position |
| BlogPosts.MatchFrontMatter | src/hooks/useBlogPosts.ts:8-13 | the front-matter pattern matches iff the text starts with `---` and `---` occurs again from index 3; the rest is everything after the first such closing fence |
| BlogPosts.MatchShape | src/hooks/useBlogPosts.ts:8-15 | on a match, the captured block lies between the opening fence and its following whitespace and the first closing fence, with trailing whitespace left outside the block |
| BlogPosts.MatchFields | src/hooks/useBlogPosts.ts:8-13 | group 1 starts after the whitespace that follows the opening fence and holds the text up to the first closing fence, less its trailing whitespace |
| BlogPosts.MatchIffFences | src/hooks/useBlogPosts.ts:8-13 | the pattern matches exactly when the text opens with a fence that is closed later |
| BlogPosts.ColonAt | src/hooks/useBlogPosts.ts:20 | a line's key/value cut is at its first colon, or at the end when it has none |
| BlogPosts.LineIsSplitAtColon | src/hooks/useBlogPosts.ts:20-21 | key = first piece of `split(":")`; value = the other pieces re-joined with `:` and trimmed |
| BlogPosts.SplitAtColon | src/hooks/useBlogPosts.ts:20 | splitting a line on `:` gives the text before its first colon, then the split of what follows |
| BlogPosts.LineAtFirstColon | src/hooks/useBlogPosts.ts:20-21 | for `a:b` with a colon-free key `a`, the key is `a` and the value is `b` trimmed, inner colons kept |
| BlogPosts.LineWithoutColon | src/hooks/useBlogPosts.ts:20-23 | a line without a colon has an empty value, so it is ignored |
| BlogPosts.ApplyEntry | src/hooks/useBlogPosts.ts:23-31 | an empty key or value leaves the fields as they are; any other key but `tags` is set to its value with every `"` removed; a `tags` value fails iff it does not parse once `'` is replaced by `"`, and otherwise is set to the parsed list |
| BlogPosts.LineEntries | src/hooks/useBlogPosts.ts:19-21 | one (key, value) entry per front-matter line, in order |
| BlogPosts.CollectEntries | src/hooks/useBlogPosts.ts:19-33 | the collected fields are well-kinded (tags a list, others text); the only failure is unparsable tags |
| BlogPosts.FirstMissing | src/hooks/useBlogPosts.ts:36-41 | the index of the first required field that is missing or empty; all fields before it are present |
| BlogPosts.ParseBlock | src/hooks/useBlogPosts.ts:15-43 | a successful parse carries the trimmed rest as content and has every required field present |
| BlogPosts.ParseSpec | src/hooks/useBlogPosts.ts:7-44 | fails with "missing front matter" iff the pattern does not match; a success carries the trimmed rest as content, well-kinded fields and every required field present |
| BlogPosts.ErrorStops | src/hooks/useBlogPosts.ts:19-33 | once a line's tags fail to parse, later lines do not change the outcome |
| BlogPosts.CollectMeta | src/hooks/useBlogPosts.ts:19-33 | the line loop computes exactly the fold of the entries, including the failure |
| BlogPosts.CheckRequired | src/hooks/useBlogPosts.ts:36-41 | reports nothing iff every required field is present, otherwise the first missing one in the order slug, title, date, author, tags, excerpt |
| BlogPosts.ParseFrontMatter | src/hooks/useBlogPosts.ts:7-44 | the imperative parser computes the parse specification |
| BlogPosts.MissingFrontMatterIff | src/hooks/useBlogPosts.ts:8-13 | the error is "missing front matter" iff the text has no fenced block |
| BlogPosts.ContentAfterClosingFence | src/hooks/useBlogPosts.ts:15-16 | the body is everything after the first closing fence, trimmed |
| BlogPosts.MissingFieldIsFirst | src/hooks/useBlogPosts.ts:36-41 | a missing-field error names the first missing required field, all earlier ones being present |
| BlogPosts.LastEntryWins | src/hooks/useBlogPosts.ts:23-31 | a non-tags key's field holds, double quotes removed, the value of its last entry with a non-empty value; later entries with an empty value are ignored |
| BlogPosts.LastLineWins | src/hooks/useBlogPosts.ts:19-31 | the last line with a given non-tags key and a non-empty value decides that field (quotes stripped); later lines with that key and an empty value do not |
| BlogPosts.MakePost | src/hooks/useBlogPosts.ts:66-72 | a produced post's slug is the manifest slug and its HTML is the rendered body |
| BlogPosts.FilePosts | src/hooks/useBlogPosts.ts:64-75 | one fetched file gives one post iff it parses, none otherwise (the error is swallowed) |
| BlogPosts.ReadEntry | src/hooks/useBlogPosts.ts:64-75 | the `try` block yields the file's one post when its front matter parses and none when it does not |
| BlogPosts.LoadPosts | src/hooks/useBlogPosts.ts:46-92 | the manifest loop (skip, continue, break, push, then sort) computes the loader specification |
| BlogPosts.PostsFromManifest | src/hooks/useBlogPosts.ts:52-81 | at most one post per manifest entry, each with a manifest slug |
| BlogPosts.RequestedSlugOnly | src/hooks/useBlogPosts.ts:53-80 | with a slug requested, at most one post, and it has that slug |
| BlogPosts.OnlyRejectionFails | src/hooks/useBlogPosts.ts:57-75 | the query fails only when a fetch rejects; not-ok responses and parse errors are skipped |
| BlogPosts.EveryGoodEntryLoaded | src/hooks/useBlogPosts.ts:52-75 | with no slug requested, every fetched file's post is in the result |
| BlogPosts.GoodFileLoaded | src/hooks/useBlogPosts.ts:64-72 | a file that fetches and parses contributes its post |
| BlogPosts.LoadedNewestFirst | src/hooks/useBlogPosts.ts:84 | the result is a permutation of the gathered posts, ordered newest date first |
| BlogPosts.LoadSpec | src/hooks/useBlogPosts.ts:46-92 | the query fails iff gathering fails; a loaded result is a permutation of the gathered posts, newest date first |
| BlogPosts.RequestedEntryDecides | src/hooks/useBlogPosts.ts:53-80 | with a slug requested, the first entry with that slug whose fetch is not answered "not ok" decides: a rejected fetch fails the query, a body gives exactly that file's posts (none when it does not parse, whatever later entries hold) |
| BlogPosts.RequestedNothing | src/hooks/useBlogPosts.ts:53-80 | with a slug requested and every entry with that slug answered "not ok", nothing is loaded and nothing fails |
| BlogPosts.RequestedPostLoaded | src/hooks/useBlogPosts.ts:46-92 | the exact query result for a requested slug: empty when no entry decides, failed on a rejection, otherwise the deciding file's posts |
| Sorting.SortDesc | src/hooks/useBlogPosts.ts:84 | the sorted list is a permutation of the input and descending by key |
| Sorting.SortDescKeepsElements | src/hooks/useBlogPosts.ts:84 | sorting neither adds nor drops posts |
| ContactForm.TrimFields | src/hooks/useContactForm.ts:7-21 | every field is trimmed before its checks |
| ContactForm.NameIssues | src/hooks/useContactForm.ts:7-11 | the name's too-short issue iff fewer than 2 characters, too-long iff more than 100 |
| ContactForm.EmailIssues | src/hooks/useContactForm.ts:12-16 | the invalid-email issue iff the format check fails; too-long iff more than 255 |
| ContactForm.MessageIssues | src/hooks/useContactForm.ts:17-21 | the message's too-short issue iff fewer than 10 characters, too-long iff more than 2000 |
| ContactForm.EveryFailureReported | src/hooks/useContactForm.ts:6-22 | every failing check's message is in the one error, and no other message is |
| ContactForm.IssuesInSchemaOrder | src/hooks/useContactForm.ts:6-22 | the issues come in schema order (name, then e-mail, then message; short before long, format before length) with no repeats |
| ContactForm.NoIssuesIff | src/hooks/useContactForm.ts:6-22 | no issue iff every trimmed field is within its inclusive bounds |
| ContactForm.Validate | src/hooks/useContactForm.ts:6-22 | success iff all trimmed fields are in bounds, yielding the trimmed fields; otherwise the non-empty list of issues |
| ContactForm.ValidateIdempotent | src/hooks/useContactForm.ts:6-22 | validated data validates again to itself |
| ContactForm.TrimFieldsOfTrimmed | src/hooks/useContactForm.ts:7-21 | trimming already-trimmed fields changes nothing |
| ContactForm.TwoCharacterNamePasses | src/hooks/useContactForm.ts:7-11 | a two-character name passes; `("Jo", "invalid-email", "Short")` reports only the e-mail and message issues |
| ContactForm.RowOf | src/hooks/useContactForm.ts:34-40 | the inserted row holds the validated name, e-mail and message, with status "unread" |
| ContactForm.Submit | src/hooks/useContactForm.ts:28-44 | invalid input reports its issues and reaches no store; valid input hands exactly one row (trimmed fields, status "unread") to the store, and a store error fails with its message |
| PasswordReset.Check | src/pages/PasswordReset.tsx:38-48 | no rejection iff length ≥ 6 and equal to the confirmation; a short password is "too short" whatever the confirmation; "mismatch" iff long enough and different |
| PasswordReset.ResetPage.constructor | src/pages/PasswordReset.tsx:13-16 | the page starts empty, not loading, without a session, so the form is hidden |
| PasswordReset.ResetPage.CheckSession | src/pages/PasswordReset.tsx:18-32 | a session shows the form; none shows the expired-link toast and redirects to /auth |
| PasswordReset.ResetPage.Submit | src/pages/PasswordReset.tsx:34-67 | the update is issued iff both checks pass; a failed check shows its toast and issues nothing; loading is false on every exit; success redirects to /auth |
| AdminForms.OrElse | src/pages/admin/ProjectsManager.tsx:145-159 | `x \|\| fallback`: null or empty gives the fallback, anything else itself |
| AdminForms.NullIfEmpty | src/pages/admin/ProjectsManager.tsx:167-175 | `text \|\| null`: null iff the text is empty, otherwise the text verbatim |
| AdminForms.NullIfEmptyOfOrEmpty | src/pages/admin/ProjectsManager.tsx:145-175 | a nullable column shown and saved again is unchanged, except that an empty string becomes null |
| AdminForms.ListPayload | src/pages/admin/ProjectsManager.tsx:169 | `split(sep).map(trim).filter(Boolean)`: every saved entry is non-empty, trimmed and free of the separator |
| AdminForms.ListRoundTrip | src/pages/admin/ProjectsManager.tsx:151-169 | clean entries joined with the separator and padding spaces and split again come back unchanged; a missing list comes back empty |
| Store.Save | src/hooks/useAdminForm.ts:24-38 | an editor with an id updates that row, one without inserts; exactly one write, with the payload |
| Store.Apply | src/hooks/useAdminForm.ts:27-37 | an update changes only its row (no row when the id is unknown); an insert adds one fresh row; all other rows are kept |
| Store.Delete | src/pages/admin/BlogPostsManager.tsx:37-40 | deleting by id removes exactly that row and keeps every other |
| ProjectsManager.StackPayload | src/pages/admin/ProjectsManager.tsx:169 | every saved stack entry is non-empty, trimmed and comma-free |
| ProjectsManager.YearText | src/pages/admin/ProjectsManager.tsx:158 | the year's text is empty iff there is no year |
| ProjectsManager.YearPayload | src/pages/admin/ProjectsManager.tsx:176 | empty text gives null, otherwise the integer parse |
| ProjectsManager.InitialForm | src/pages/admin/ProjectsManager.tsx:145-159 | a new form is empty, "draft" and "Public"; an edit form shows the project's own fields, its stack joined with `, ` and its year as text |
| ProjectsManager.PayloadOf | src/pages/admin/ProjectsManager.tsx:163-177 | each optional text column is its input or null when that is empty; the year is null for empty text and the integer parse otherwise; the stack is the comma split of its text, every entry clean; the required fields are copied; no id or timestamps |
| ProjectsManager.Submit | src/pages/admin/ProjectsManager.tsx:179-188 | editing updates the row with the project's id, creating inserts, with the form's payload |
| ProjectsManager.StackRoundTrip | src/pages/admin/ProjectsManager.tsx:151-169 | clean stack entries survive `join(", ")` followed by the payload split |
| ProjectsManager.YearRoundTrip | src/pages/admin/ProjectsManager.tsx:158-176 | a year survives `toString` followed by `parseInt` |
| ProjectsManager.NewProjectDefaults | src/pages/admin/ProjectsManager.tsx:145-159 | a new project starts as "draft", "Public", with empty name, stack and year; its payload has no stack, no year and null optional columns |
| ProjectsManager.UntouchedSave | src/pages/admin/ProjectsManager.tsx:145-177 | saving an untouched edit form writes the row's own values back (empty strings become null) |
| ProjectsManager.ShownPayload | src/pages/admin/ProjectsManager.tsx:145-177 | any form that shows a project saves that project's stack, year and optional columns, an empty column as null |
| Numbers.ParseUnsignedOfNatToString | src/pages/admin/ProjectsManager.tsx:176 | the decimal text of a natural number reads back as that number |
| Numbers.ParseIntToString | src/pages/admin/ProjectsManager.tsx:176 | `parseInt` of an integer's decimal text is that integer |
| Numbers.ValueOfNatToString | src/pages/admin/ProjectsManager.tsx:158 | the digits of `toString` denote the number |
| BlogPostsManager.TagsPayload | src/pages/admin/BlogPostsManager.tsx:175 | every saved tag is non-empty, trimmed and comma-free |
| BlogPostsManager.InitialForm | src/pages/admin/BlogPostsManager.tsx:157-166 | a new form is empty, dated today and "draft"; an edit form shows the post's fields, its date formatted (today when it has none), its tags joined with `, ` and its status or "draft" |
| BlogPostsManager.PayloadOf | src/pages/admin/BlogPostsManager.tsx:170-179 | title, slug, date, author, excerpt, HTML and status are copied verbatim; tags are the comma split of their text, every tag clean |
| BlogPostsManager.Submit | src/pages/admin/BlogPostsManager.tsx:181-190 | editing updates the post's row, otherwise inserts |
| BlogPostsManager.TagsRoundTrip | src/pages/admin/BlogPostsManager.tsx:162-175 | clean tags survive `join(", ")` then the split |
| BlogPostsManager.StoredTagsRoundTrip | src/pages/admin/BlogPostsManager.tsx:162-175 | a stored post's clean tags, shown and read back, are unchanged; missing tags come back as an empty list |
| BlogPostsManager.NewPostDefaults | src/pages/admin/BlogPostsManager.tsx:157-166 | a new post is a "draft" dated today with empty title and tags, saving no tags |
| BlogPostsManager.UntouchedSave | src/pages/admin/BlogPostsManager.tsx:157-179 | saving an untouched edit form writes the post's own values back, the date reformatted |
| ExperiencesManager.HighlightsPayload | src/pages/admin/ExperiencesManager.tsx:169 | every saved highlight is non-empty, trimmed and newline-free |
| ExperiencesManager.OrderOf | src/pages/admin/ExperiencesManager.tsx:158 | display order defaults to 0 when missing |
| ExperiencesManager.InitialForm | src/pages/admin/ExperiencesManager.tsx:151-159 | a new form is empty with order 0; an edit form shows the experience's fields, a missing end date as empty, its highlights one per line and a missing order as 0 |
| ExperiencesManager.PayloadOf | src/pages/admin/ExperiencesManager.tsx:163-171 | the end date is null iff empty, otherwise verbatim; other fields copied; highlights are the line split of their text, every entry clean |
| ExperiencesManager.Submit | src/pages/admin/ExperiencesManager.tsx:173-182 | editing updates the experience's row, otherwise inserts |
| ExperiencesManager.EndLabel | src/pages/admin/ExperiencesManager.tsx:102 | the label is "Present" iff the end date is null or empty (or literally "Present") |
| ExperiencesManager.HighlightsRoundTrip | src/pages/admin/ExperiencesManager.tsx:157-169 | clean highlights survive `join("\n")` then the split |
| ExperiencesManager.EmptyEndDateIsPresent | src/pages/admin/ExperiencesManager.tsx:102-168 | an empty end date is saved as null and shown as "Present" |
| ExperiencesManager.UntouchedSave | src/pages/admin/ExperiencesManager.tsx:151-171 | saving an untouched edit form writes the row back, a missing order as 0 |
| SettingsManager.PublicFlag | src/pages/admin/SettingsManager.tsx:92 | a missing is_public counts as false |
| SettingsManager.InitialText | src/pages/admin/SettingsManager.tsx:83-85 | a string value is shown as itself; any other value as its serialisation |
| SettingsManager.JsonWarning | src/pages/admin/SettingsManager.tsx:97-103 | the invalid-JSON toast is shown iff the text looks like JSON and does not parse; otherwise no toast |
| SettingsManager.LooksLikeJsonSkipsSpace | src/pages/admin/SettingsManager.tsx:97 | leading whitespace does not change whether the text looks like JSON |
| SettingsManager.MultilineChoice | src/pages/admin/SettingsManager.tsx:125-126 | null, array and object values always get a text area; strings, numbers and booleans only for text longer than 50 characters |
| SettingsManager.PayloadValue | src/pages/admin/SettingsManager.tsx:94-109 | the saved value is the raw text unless the text looks like JSON and parses, then the parsed value; bad JSON still saves the raw text |
| SettingsManager.SettingCard.constructor | src/pages/admin/SettingsManager.tsx:83-93 | the editor starts with the value itself for a string, its serialisation otherwise, and no changes |
| SettingsManager.SettingCard.HasChanges | src/pages/admin/SettingsManager.tsx:120-123 | no changes iff the text is the initial text and the toggle is the stored flag |
| SettingsManager.SettingCard.UsesTextArea | src/pages/admin/SettingsManager.tsx:125-126 | a text area iff the stored value is object-typed (`typeof` "object") or the text is longer than 50 characters |
| SettingsManager.SettingCard.EditText | src/pages/admin/SettingsManager.tsx:121-123 | after an edit, changes iff the text differs from the initial text or the toggle from the stored flag |
| SettingsManager.SettingCard.Toggle | src/pages/admin/SettingsManager.tsx:121-143 | after toggling, changes iff the toggle differs from the stored flag or the text from the initial text |
| SettingsManager.SettingCard.TransformToPayload | src/pages/admin/SettingsManager.tsx:94-109 | the payload is the resolved value and the toggle as set; the invalid-JSON toast appears iff JSON-looking text fails to parse |
| SettingsManager.SettingCard.Submit | src/pages/admin/SettingsManager.tsx:87-123 | a store error keeps the table and form and shows any invalid-JSON toast then its message; success updates the setting's row, leaves no changes and shows any invalid-JSON toast then "setting updated successfully" |
| SettingsManager.SettingCard.OnSaved | src/pages/admin/SettingsManager.tsx:111-117 | the form is reset to the stored setting, so there are no changes |
| SettingsManager.UneditedSaveReadsTheSame | src/pages/admin/SettingsManager.tsx:83-109 | saving an untouched card and reading it back gives what was read before |
| SettingsManager.NumberSavedAsText | src/pages/admin/SettingsManager.tsx:83-109 | an untouched number setting is saved as its JSON text |
| SiteSettings.Selected | src/hooks/useSettings.ts:12-26 | the rows read are exactly the public rows (with the key when one is given) |
| SiteSettings.SettingsQuery | src/hooks/useSettings.ts:8-35 | no key lists the public rows; a key with no public row gives no row, with exactly one gives that row, with several gives no data (the `maybeSingle` error) |
| SiteSettings.ReadValue | src/hooks/useSettings.ts:44-54 | a non-string value is returned as is; a string parses to its JSON value or stays raw; a `null` value, or a string that parses to `null`, gives the fallback, then `null`; the result is null only when both value and fallback are null |
| SiteSettings.Resolve | src/hooks/useSettings.ts:40-54 | no row or a list gives the fallback (or null); one row gives its resolved value |
| SiteSettings.UseSiteSetting | src/hooks/useSettings.ts:37-55 | the single public row with the key gives its value resolved against the fallback; no key, no row or several rows give the fallback (or null) |
| SiteSettings.SelectedOfPublic | src/hooks/useSettings.ts:16-26 | selecting among public rows is selecting among all rows |
| SiteSettings.OnlyPublicRowsMatter | src/hooks/useSettings.ts:16-26 | private rows never influence the resolved setting |
| Json.Coalesce | src/hooks/useSettings.ts:54 | `x ?? y`: a present non-null value wins, otherwise the fallback |
| Artworks.AnyTagIncludes | src/hooks/useArtworks.ts:37 | true iff some lowercased tag contains the needle |
| Artworks.Filter | src/hooks/useArtworks.ts:33-38 | keeps exactly the rows whose title, description or a tag contains the needle; never more rows than given |
| Artworks.Search | src/hooks/useArtworks.ts:30-41 | an empty search returns the rows unchanged; otherwise the filter with the lowercased search |
| Artworks.FilterAppend | src/hooks/useArtworks.ts:33 | filtering distributes over concatenation (an order-preserving subsequence) |
| Artworks.FilterIdempotent | src/hooks/useArtworks.ts:33-38 | filtering twice is filtering once |
| Artworks.SearchIgnoresCase | src/hooks/useArtworks.ts:32-37 | searches that differ only in case give the same result |
| Repositories.ToRepository | src/hooks/useRepositories.ts:46-55 | each kept entry copies the GitHub fields and the owner's login |
| Repositories.Kept | src/hooks/useRepositories.ts:45-55 | the kept repositories are exactly the mapped entries with a name and a link |
| Repositories.KeptAppend | src/hooks/useRepositories.ts:44-46 | filtering and mapping the concatenation is concatenating the two results |
| Repositories.KeptOfNonEssential | src/hooks/useRepositories.ts:45 | entries without a name or link all disappear |
| Repositories.SortNewestFirst | src/hooks/useRepositories.ts:58 | the in-place sort leaves the array newest first and a permutation of what it was |
| Repositories.Insert | src/hooks/useRepositories.ts:58 | one insertion step extends the newest-first prefix by one element and keeps the array a permutation |
| Repositories.Swap | src/hooks/useRepositories.ts:58 | exchanging two neighbours changes nothing else and keeps the array a permutation |
| Repositories.LoadRepositories | src/hooks/useRepositories.ts:27-58 | succeeds iff both owners' fetches succeed, else reports a failing owner; the result is a permutation of the kept repositories of both owners, newest first |
| Repositories.ListedIffEssential | src/hooks/useRepositories.ts:44-58 | a repository is listed iff it came from an entry of either owner with a name and a link |
| Portfolio.Slug | src/pages/Portfolio.tsx:46 | same length; each whitespace character becomes `-`, every other is lowercased |
| Portfolio.CategoryMenuItems | src/pages/Portfolio.tsx:44-51 | "All" (`#all`) first, then one item per category, in order, linking to its slug |
| Portfolio.SlugIgnoresCase | src/pages/Portfolio.tsx:46 | names that differ only in case have the same slug |
| Portfolio.ClickedItemIsActive | src/pages/Portfolio.tsx:53-55 | after clicking any menu item, the computed active link is that item's link |
| Portfolio.Featured | src/pages/Portfolio.tsx:27 | the featured strip is the first min(4, n) artworks |
| Portfolio.CategoryIsIgnored | src/pages/Portfolio.tsx:22-25 | as written, the listed artworks do not depend on the selected category |
| Portfolio.OtherCategoryStillListed | src/pages/Portfolio.tsx:22-25 | as written, a "3D" artwork is still listed while "Digital" is selected |
| Portfolio.InCategory | src/pages/Portfolio.tsx:22-25 | keeps exactly the artworks of the category |
| Portfolio.ListedInCategory | src/pages/Portfolio.tsx:22-25 | "all" lists the search result; any other category lists exactly the search results in that category |
| Portfolio.Gallery | src/pages/Portfolio.tsx:22-27 | the grid is the category listing; the featured strip is its prefix of length min(4, n) |
| FlowingMenu.ClosestEdgeIsUpperHalf | src/components/reactbits/FlowingMenu.tsx:29-38 | the top edge is chosen iff 2·y < h; a tie goes to the bottom |
| FlowingMenu.AccentStyle | src/components/reactbits/FlowingMenu.tsx:77-91 | no accent gives the default gradient; a `url(` accent becomes a background image; any other is the background verbatim |
| FlowingMenu.ActiveFlags | src/components/reactbits/FlowingMenu.tsx:170-178 | an item is active iff its link equals the active link |
| FlowingMenu.AtMostOneActive | src/components/reactbits/FlowingMenu.tsx:174 | with distinct links at most one item is active |
| FlowingMenu.ItemClick | src/components/reactbits/FlowingMenu.tsx:115-123 | a click reports the item (link, label, accent) to the listener iff there is one, and then always follows the item's link |
| FlowingMenu.AuthClick | src/components/reactbits/FlowingMenu.tsx:155-160 | with an auth action, run it, then report `#` with its label; without one, nothing |
| GooeyNav.Focusable | src/components/reactbits/GooeyNav.tsx:41-58 | the focusable elements are exactly the candidates not marked as focus guards |
| GooeyNav.FocusableAppend | src/components/reactbits/GooeyNav.tsx:41-58 | the focusable elements keep document order: those of a concatenation are those of each part, in turn |
| GooeyNav.FocusableOne | src/components/reactbits/GooeyNav.tsx:57 | a single candidate is focusable by itself iff it is not a focus guard |
| GooeyNav.GuardNeverFocusable | src/components/reactbits/GooeyNav.tsx:57 | a focus guard is never focusable |
| GooeyNav.IndexOf | src/components/reactbits/GooeyNav.tsx:107 | the first index of the element, or -1 when it is absent |
| GooeyNav.ArrowTarget | src/components/reactbits/GooeyNav.tsx:96-121 | no move when focus is not on an item (so none with no items); down goes to (i+1) mod n, up to (i−1+n) mod n |
| GooeyNav.ArrowsUndoEachOther | src/components/reactbits/GooeyNav.tsx:114-119 | with distinct items, down then up (and up then down) returns to the start |
| GooeyNav.TabTarget | src/components/reactbits/GooeyNav.tsx:76-94 | Tab on the last wraps to the first, Shift+Tab on the first to the last; otherwise no intervention |
| GooeyNav.TabWrapUndone | src/components/reactbits/GooeyNav.tsx:82-93 | wrapping forward and then back returns to the last element |
| GooeyNav.Navigation.constructor | src/components/reactbits/GooeyNav.tsx:25-39 | the menu starts closed with nothing saved |
| GooeyNav.Navigation.SetOpen | src/components/reactbits/GooeyNav.tsx:128-154 | opening saves focus and overflow, focuses the first focusable and hides overflow; closing restores both |
| GooeyNav.Navigation.Toggle | src/components/reactbits/GooeyNav.tsx:158 | toggling flips open/closed with the same focus and overflow effects |
| GooeyNav.Navigation.Navigate | src/components/reactbits/GooeyNav.tsx:60-62 | a route change closes the menu, giving focus back to the saved element and restoring the overflow when it was open; the same path changes nothing |
| GooeyNav.Navigation.KeyDown | src/components/reactbits/GooeyNav.tsx:69-126 | when open: Escape closes and restores focus and overflow; Tab wraps; arrows cycle; other keys do nothing. When closed, nothing |
| GooeyNav.OpenThenEscape | src/components/reactbits/GooeyNav.tsx:70-74 | opening then pressing Escape returns focus and overflow to what they were |
| GooeyNav.MobileMenuItems | src/components/reactbits/GooeyNav.tsx:162-188 | translated links, then Admin for a signed-in admin, then Logout when signed in or Login when not |
| GooeyNav.AdminOnlyForAdmins | src/components/reactbits/GooeyNav.tsx:166-188 | without a signed-in admin the menu holds the links and one auth item, never Admin |
| GooeyNav.DesktopActive | src/components/reactbits/GooeyNav.tsx:218-228 | a desktop link is active iff the path equals its link (or `#` when it has none) |
| GooeyNav.LinklessNeverActive | src/components/reactbits/GooeyNav.tsx:170-174 | in the mobile menu an item without a link is never active |
| GooeyNav.Listener | src/components/reactbits/GooeyNav.tsx:301 | the mobile menu's listener only closes the menu |
| GooeyNav.MobileClickAsWritten | src/components/reactbits/GooeyNav.tsx:174-181 | as written, any mobile item's click (its link followed, or none) has the single effect of closing the menu |
| GooeyNav.MobileLogoutDoesNotSignOut | src/components/reactbits/GooeyNav.tsx:174-181 | as written, clicking Logout in the mobile menu only closes the menu |
| GooeyNav.MobileClick | src/components/reactbits/GooeyNav.tsx:174-181 | an item's own action (sign out, then close) runs; other items behave as before |
| GooeyNav.MobileLogoutSignsOut | src/components/reactbits/GooeyNav.tsx:177-180 | corrected, Logout signs out first; every click closes the menu |
| AppRoutes.Protect | src/App.tsx:34-57 | loading gives a spinner; signed out redirects to /auth; a non-admin on an admin route goes to /; renders iff signed in and allowed |
| AppRoutes.DropTrailingEmpty | src/App.tsx:67 | drops exactly the trailing empty segments, keeping everything before them |
| AppRoutes.Segments | src/App.tsx:67 | a path's segments contain no slash and never end in an empty segment |
| AppRoutes.SegmentsRoundTrip | src/App.tsx:67 | a path starting with `/` is its segments joined with `/` behind a leading slash, followed only by slashes |
| AppRoutes.FindRoute | src/App.tsx:68-157 | the first route whose pattern matches, and none before it matches |
| AppRoutes.Navigate | src/App.tsx:34-157 | a path no route matches renders the not-found page; a spinner only while auth is loading |
| AppRoutes.EmptySegmentNotFound | src/App.tsx:67-157 | a path with an empty segment inside it (`//about`) renders the not-found page |
| AppRoutes.RouteDecides | src/App.tsx:34-157 | a route that matches the path supplies its element: its page is rendered, its redirect followed, or its guarded page handed to the route guard |
| AppRoutes.ElementFor | src/App.tsx:68-157 | anything but the not-found page comes from a matching route |
| AppRoutes.AdminRoutesGuarded | src/App.tsx:83-155 | every /admin route of the table is wrapped admin-only |
| AppRoutes.AdminPathsGuarded | src/App.tsx:83-157 | any path under /admin is admin-guarded or not found |
| AppRoutes.AdminPagesOnlyForAdmins | src/App.tsx:34-157 | an admin page is rendered only for a signed-in admin when auth is settled |
| AppRoutes.RegisterRedirects | src/App.tsx:80 | `/register`, in any letter case and with any trailing slashes, always redirects to /auth |
| AppRoutes.PublicPagesNeedNoSignIn | src/App.tsx:68-157 | unguarded routes look the same to everyone |
| AppRoutes.MatchIsCandidate | src/App.tsx:68-157 | a route that matches a path is the one route that the path's length and literal segments single out |
| AppRoutes.AtMostOneRoute | src/App.tsx:68-157 | a path matches at most one route, so first-match equals best-match |
| Home.FirstOf | src/pages/Home.tsx:44-46 | the first truthy source, otherwise the fallback |
| Home.SiteName | src/pages/Home.tsx:44 | the brand name, else the profile's full name, else "Monynha Softwares"; never empty |
| Home.Tagline | src/pages/Home.tsx:45 | the brand tagline, else the profile headline, else the translated default |
| Home.HeroDescription | src/pages/Home.tsx:46 | the narrative block, else the profile bio, else the translated default |
| Home.DisciplineOf | src/pages/Home.tsx:50-54 | title copied; icon defaults to "Sparkles" and description to "" |
| Home.FeaturedDisciplines | src/pages/Home.tsx:49-55 | one discipline per brand value when there are some, otherwise the three defaults |
| Home.Take | src/pages/Home.tsx:149 | `slice(0, n)`: the first min(n, len) elements |
| Home.CardOf | src/pages/Home.tsx:151-167 | a card links to the project, shows its thumbnail or the placeholder, and at most 2 stack badges |
| Home.FeaturedSection | src/pages/Home.tsx:141-196 | loading shows 3 skeletons; projects give at most 3 cards; none give the disciplines |
| Home.FeaturedBounds | src/pages/Home.tsx:149-158 | at most 3 cards, each with at most 2 badges and an image |

## Left out

- Database reads and writes, authentication, `fetch`, the GitHub API, `marked`/`DOMPurify`, `JSON.parse`/`JSON.stringify`, the e-mail pattern, date parsing and translations: they are parameters (or the `Store` table), not modelled.
- Query caching options, gsap and framer-motion animations, purely presentational pages and the generated type declarations are outside the model.
- String lengths are counted in characters rather than UTF-16 code units, and `toLowerCase` is modelled for ASCII letters only.
- `Date#getTime` is a parameter returning an integer, so invalid dates (NaN) and their effect on `Array#sort` comparisons are not modelled.
- Sorting.SortDesc: the blog's `Array#sort` is modelled by an insertion sort on a sequence whose result is stable, as ECMAScript 2019 requires of `Array.prototype.sort`; the engine's own algorithm is not modelled, and only the descending order and the permutation are proved, not the stability.
- A year text that does not start with digits makes `parseInt` return NaN, which the database stores as null; the model gives no year directly.
- ExperiencesManager.OrderOf: the `parseInt` applied to the display-order input field is not modelled; the form holds an integer.
- Repositories.LoadRepositories: `Promise.all` rejects with whichever fetch fails first; the model reports one failing owner and does not model timing.
- BlogPosts.LoadPosts: a fetch that rejects aborts the whole query (its `await` is outside the `try`); the model gives the result as failed without its error value.
- AppRoutes.FindRoute: React Router ranks routes rather than taking the first match; AtMostOneRoute shows that no path matches two of the table's patterns, so the two agree. Percent-decoding of paths and the catch-all's splat value are not modelled.
- The browser's own Tab movement between elements (when the handler does not wrap) is not modelled; the focus stays.
- The order in which React runs effects within a render is not modelled; SetOpen applies the focus and scroll-lock effects together.
- The contact form's test file expects the name "Jo" to fail the two-character minimum; the schema's minimum is inclusive, so the model follows the code (ContactForm.TwoCharacterNamePasses).
- SettingsManager.MultilineChoice: the editor follows `typeof setting.value === "object"`, so a stored `null` and arrays get a text area while numbers and booleans do not; the model states this behaviour rather than a rule of "every non-string value".
- SettingsManager.SettingCard.Submit: the generic form hook inserts a new row when the setting's id is empty; the model always updates the row with the setting's id, as every stored setting has one.
- AppRoutes.Navigate: the contract does not list which redirect targets can occur, nor what a matching route renders; AppRoutes.RouteDecides states the latter, and the guard's redirects are stated by AppRoutes.Protect and AppRoutes.RegisterRedirects.
- AppRoutes.ElementFor: its own contract states only that anything but the not-found page comes from a matching route; that a matching route's element is the one chosen is stated by AppRoutes.RouteDecides, so that the function's callers do not carry a quantified postcondition.
- Numbers.ParseIntToString / ProjectsManager.YearRoundTrip: integers are exact and unbounded here, while JavaScript numbers lose precision beyond 2^53 and `toString` switches to exponent form from 10^21, where `parseInt` no longer reads the number back; the round trip is proved only for the exact integers of the model.
- ProjectsManager.YearRoundTrip: for the same reason, a year of magnitude 10^21 or more would not survive the form in JavaScript; the model does not capture that.
- Auth loading state for hooks other than the route guard, and error and loading screens of the pages, are not modelled.

## Findings

| source | as written | input that shows it | evidently intended | confidence | as-written member | corrected member |
|---|---|---|---|---|---|---|
| src/components/reactbits/GooeyNav.tsx:174-181 | the mobile Logout item's `onClick` (sign out, then close) is passed to the full-width menu, whose items only call the menu-wide `onItemClick`, which is `closeMenu` | a signed-in user clicks Logout in the mobile menu | the click signs the user out and closes the menu | not executed; high | GooeyNav.MobileLogoutDoesNotSignOut | GooeyNav.MobileLogoutSignsOut |
| src/pages/Portfolio.tsx:22-25 | the selected category is passed to `useArtworks`, whose options only know `search` and `featured`, so it is ignored | select "Digital" while an artwork has category "3D": that artwork is still listed | only artworks of the selected category are listed ("all" lists everything) | not executed; high | Portfolio.OtherCategoryStillListed | Portfolio.ListedInCategory |
