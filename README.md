# Portfolio site: blog and project request logic, and the admin pages' state

This project is a Dafny model of the request logic and client-side state of a personal portfolio site built with Next.js. It covers:

- **The blog route.** This covers:
  - listing posts, with the filter chosen by precedence among the `admin`, `unpublished` and `published` flags, newest first;
  - creating a post: schema validation, a slug and a read time derived from the post, and tags stored as JSON text;
  - partially updating a post;
  - deleting a post.
- **The projects route.** This covers:
  - listing projects, with independent `published` and `featured` filters, ordered by `order` and then newest first;
  - decoding the two array columns, one strictly and one fail-soft;
  - creating a project: a required-field gate, removal of the form-only fields, and array encoding that passes strings through.
- **The trending route.** It parses a like threshold with a default, filters on three conditions, sorts on three keys, and returns at most ten posts.
- **The new-post form** (`NewPostForm.Page`). This covers:
  - its form state;
  - the tag editor, which trims, refuses duplicates and removes tags;
  - the body it posts;
  - the alert it shows, including the one-line-per-issue validation message.
- **The admin gate** (`AdminAuth.Gate`). This covers:
  - the password check;
  - the `admin-auth` flag kept in local storage;
  - which screen it renders.
- **The two admin list pages** (`AdminProjects.Page`, `AdminBlog.Page`). Each loads its list and then edits it after the server answers: removing an entry by id, or setting a flag by id.

The database is an in-memory table, a `seq` of rows. Its operations are modelled as follows:

- `findMany` is `Store.FindMany`: a filter, a stable sort on a lexicographic integer key, and an optional `take`.
- `create` appends a row.
- `update` rewrites the first row with the id.
- `delete` removes the first row with the id.

Four things outside the program become parameters of the handlers:

- whether the store answers (`available`);
- the new row's id;
- the clock;
- the URL check of the validation library (`isUrl`).

JSON text is modelled exactly for arrays of strings. `Json.Encode` is `JSON.stringify`, with its escapes. `Json.Decode` is a strict parser for such arrays, and it is proved to invert `Encode`.

## Model

| member | source | states |
|---|---|---|
| `Text.Trim` | src/app/admin/blog/new/page.js:31 | `trim()`: the result neither starts nor ends with whitespace |
| `Text.TrimStart` | src/app/admin/blog/new/page.js:31 | the result starts with no whitespace and is what remains after a leading run of whitespace |
| `Text.TrimEnd` | src/app/admin/blog/new/page.js:31 | the result ends with no whitespace and is what remains before a trailing run of whitespace |
| `Text.TrimIdempotent` | src/app/admin/blog/new/page.js:31-34 | trimming an already trimmed string changes nothing |
| `Text.TrimEmptyIffBlank` | src/app/admin/blog/new/page.js:31 | the trimmed input is empty exactly when every character is whitespace |
| `Text.Lower` | src/app/api/blog/route.js:76 | `toLowerCase()` keeps the length and lower-cases each ASCII letter |
| `Text.Split` | src/app/admin/blog/new/page.js:80 | splitting on a character gives at least one piece, and no piece holds the separator |
| `Text.SplitJoin` | src/app/admin/blog/new/page.js:80 | lines joined with a separator split back into the same lines when none holds the separator |
| `Text.ParseIntOfIntToString` | src/app/api/blog/trending/route.js:8 | `parseInt` reads back any integer written in decimal |
| `Text.ParseInt` | src/app/api/blog/trending/route.js:8 | `parseInt` without a radix: blank text is NaN (`None`), and a negative result needs a leading minus after the whitespace |
| `Json.DecodeEncode` | src/app/api/blog/route.js:89-96 | parsing the stored JSON text of a string array gives the array back, order and escapes included |
| `Json.EncodeInjective` | src/app/api/blog/route.js:89 | different arrays are stored as different texts |
| `Json.Encode` | src/app/api/blog/route.js:89 | `JSON.stringify` of a string array is bracketed text; `Json.DecodeEncode` is its inverse |
| `Json.Stringify` | src/app/api/projects/route.js:84-94 | `JSON.stringify` of a body value: an integer's text parses back to it, a string's quoted text reads back to the string, and an array's text decodes back to the array |
| `Json.Decode` | src/app/api/blog/route.js:55 | `JSON.parse` of a stored column succeeds only on text that, after whitespace, opens with `[`; `Json.DecodeEncode` shows it inverts `Json.Encode` |
| `Json.DecodeColumn` | src/app/api/blog/route.js:55 | a null or empty stored column reads as `[]`; otherwise the text is parsed |
| `Json.ColumnRoundTrip` | src/app/api/blog/route.js:89-96 | a column written from an array reads back as that array |
| `Store.Select` | src/app/api/blog/route.js:47-48 | `where`: each row is kept as often as the table holds it when it matches, and never otherwise |
| `Store.SortBy` | src/app/api/blog/route.js:49 | `orderBy`: the result is sorted by the key and is a permutation of the input |
| `Store.Take` | src/app/api/blog/trending/route.js:24 | `take: n`: the first `min(n, length)` rows |
| `Store.FindMany` | src/app/api/blog/route.js:47-50 | `findMany`: only matching rows, sorted by the key, exactly the matching rows when there is no `take`, and `min(n, matches)` of them under `take: n` |
| `Store.FindManyKeepsTop` | src/app/api/blog/trending/route.js:19-24 | a matching row that `take` cut off ranks no higher than any row kept |
| `BlogApi.Collapse` | src/app/api/blog/route.js:77 | replacing each run of characters outside `[a-z0-9]` by one hyphen never lengthens the text, and leaves the empty string exactly when the input was empty |
| `BlogApi.CollapseWellFormed` | src/app/api/blog/route.js:77 | after that replacement, only `[a-z0-9-]` remain, no two hyphens are adjacent, and the first character is a hyphen exactly when the input starts with a separator |
| `BlogApi.TrimHyphens` | src/app/api/blog/route.js:78 | dropping one leading and one trailing hyphen removes at most one character at each end, and leaves text that neither starts nor ends with a hyphen unchanged |
| `BlogApi.Slug` | src/app/api/blog/route.js:75-78 | the slug is never longer than the title; its shape is stated by the next three rows |
| `BlogApi.SlugWellFormed` | src/app/api/blog/route.js:75-78 | a slug uses only `[a-z0-9-]`, has no two hyphens in a row, and neither starts nor ends with a hyphen |
| `BlogApi.SlugKeepsLettersAndDigits` | src/app/api/blog/route.js:75-78 | the slug keeps every letter and digit of the lower-cased title, in order |
| `BlogApi.EmptySlugIffNoLettersOrDigits` | src/app/api/blog/route.js:75-78 | the slug is empty exactly when the title has no ASCII letter or digit, for example a title of punctuation only |
| `BlogApi.SlugExample` | src/app/api/blog/route.js:75-78 | "Getting Started: Next.js 14!" gives "getting-started-next-js-14" |
| `BlogApi.Pieces` | src/app/api/blog/route.js:81 | `split(/\s+/)` always gives at least one piece |
| `BlogApi.PiecesCount` | src/app/api/blog/route.js:81 | the number of pieces is one more than the number of maximal whitespace runs |
| `BlogApi.PiecesSplitOnRuns` | src/app/api/blog/route.js:81 | no piece holds whitespace, only the first and last pieces may be empty, and the pieces put together are the content's non-space characters |
| `BlogApi.Minutes` | src/app/api/blog/route.js:82 | `Math.ceil(words / 200)`: the least whole number of 200-word minutes that covers the words |
| `BlogApi.ReadTime` | src/app/api/blog/route.js:81-82 | the read time is at least 1 and is the ceiling of the number of pieces over 200 |
| `BlogApi.ViewAll` | src/app/api/blog/route.js:53-56 | the posts are answered with their tags decoded, and the answer exists exactly when every post's tags parse |
| `BlogApi.ViewAllRows` | src/app/api/blog/route.js:53-56 | decoding the tags keeps every other column: the answered posts are the stored rows, in the same order |
| `BlogApi.ListingFilter` | src/app/api/blog/route.js:26-45 | no filter exactly when `admin=true`; otherwise drafts only when `unpublished=true` or `published=false`, else published posts only |
| `BlogApi.NewestFirstDescending` | src/app/api/blog/route.js:49 | rows sorted by the listing key have non-increasing `createdAt` |
| `BlogApi.Get` | src/app/api/blog/route.js:23-66 | answers 200 exactly when the store answers and every listed post's tags parse; the answer holds each listed row as often as the table does, newest first, with its tags decoded; any failure is 500 "Failed to fetch blog posts" |
| `BlogApi.FieldIssue` | src/app/api/blog/route.js:5-19 | a field has an issue exactly when it breaks its schema rule, and the issue's path names the field |
| `BlogApi.IssuesFor` | src/app/api/blog/route.js:100-111 | every reported issue belongs to a failing field, and every failing field's issue is reported |
| `BlogApi.IssuesNameFailingFields` | src/app/api/blog/route.js:100-111 | each issue's path is one field, that field is a schema field, and it fails its rule |
| `BlogApi.FailingFieldHasIssue` | src/app/api/blog/route.js:100-111 | a failing field has an issue naming it |
| `BlogApi.NoIssuesIffValid` | src/app/api/blog/route.js:72 | there are no issues exactly when every field keeps its rule |
| `BlogApi.Validate` | src/app/api/blog/route.js:5-19 | the schema parse succeeds exactly when every field keeps its rule, with `title` and `content` non-empty, `imageUrl` empty or a URL, and defaults `false`, "Admin" and `[]`; a failure lists every issue |
| `BlogApi.ValidatePatch` | src/app/api/blog/route.js:122 | the same rules on a partial schema: absent fields are allowed and get no defaults, and supplied `title` and `content` are non-empty |
| `BlogApi.Create` | src/app/api/blog/route.js:69-119 | an invalid body gets 400 with the issues and no write; a store failure gets 500; otherwise the row is appended with the computed slug and read time, encoded tags, zero counters and the new id, and the 201 reply's tags equal the input tags |
| `BlogApi.BuildUpdate` | src/app/api/blog/route.js:133-159 | the update carries a slug exactly when a non-empty title gives a non-empty slug. A supplied non-empty content replaces `readTime` with the computed one. Tags are re-encoded exactly when supplied and decode back to them. Every other supplied field passes through unchanged |
| `BlogApi.ApplyUpdate` | src/app/api/blog/route.js:161-164 | an update never changes the id, counters, trending flag or creation time |
| `BlogApi.IndexOf` | src/app/api/blog/route.js:162 | the position of the first row with the id, or none when no row has it |
| `BlogApi.Patch` | src/app/api/blog/route.js:125-187 | an invalid body gets 400 with details and no write; a missing id or a store failure gets 500; otherwise only the row with the id changes, field by field as the update says, and the reply is 200 with the decoded tags, or 500 when the stored tags do not parse |
| `BlogApi.Delete` | src/app/api/blog/route.js:189-207 | succeeds exactly when the store answers and the id exists, then removes that row; otherwise 500 "Failed to delete blog post" and the table unchanged |
| `BlogApi.DeleteRemovesExactly` | src/app/api/blog/route.js:193-195 | with unique ids, a delete removes one row, and the rows left are exactly those with other ids |
| `ProjectsApi.ListingFilter` | src/app/api/projects/route.js:10-16 | each flag constrains its column exactly when present in the query, to `value == "true"`, independently of the other flag |
| `ProjectsApi.DisplayOrder` | src/app/api/projects/route.js:18-21 | the sort key `[order, -createdAt]`; its meaning is stated by `ProjectsApi.DisplayOrderMeaning` |
| `ProjectsApi.DisplayOrderMeaning` | src/app/api/projects/route.js:20 | sorted rows have ascending `order`, and newer first among equal `order` |
| `ProjectsApi.DecodeTechnologies` | src/app/api/projects/route.js:27 | `technologies` is read strictly, exactly as the blog's `tags` column: a null or empty column is `[]`, and any other text must parse |
| `ProjectsApi.DecodeFeatures` | src/app/api/projects/route.js:30-39 | `features` is the parsed array when the text parses, and `[]` otherwise: it never fails |
| `ProjectsApi.ArrayColumnsRoundTrip` | src/app/api/projects/route.js:84-94 | both decoders read an encoded array back |
| `ProjectsApi.ViewAll` | src/app/api/projects/route.js:24-42 | the projects are answered with both arrays decoded, and the answer exists exactly when every `technologies` column parses |
| `ProjectsApi.ViewAllRows` | src/app/api/projects/route.js:24-42 | decoding the array columns keeps every other column: the answered projects are the stored rows, in the same order |
| `ProjectsApi.Get` | src/app/api/projects/route.js:3-52 | answers 200 exactly when the store answers and every shown project's technologies parse; it holds each row the flags allow as often as the table does, ordered by `order` then newest first, with both arrays decoded; otherwise 500 "Failed to fetch projects" |
| `ProjectsApi.EncodeArrayField` | src/app/api/projects/route.js:86-93 | a string is stored unchanged, an array is stored as text that parses back to it, and a falsy value is stored as text that reads as `[]` |
| `ProjectsApi.Truthy` | src/app/api/projects/route.js:64 | JavaScript truthiness of a body field: absent, null, `false`, `0` and `""` are falsy, arrays are truthy |
| `ProjectsApi.HasRequiredFields` | src/app/api/projects/route.js:64-69 | the gate before any write: `title`, `description` and `category` all truthy; `ProjectsApi.Create` answers 400 exactly when it fails |
| `ProjectsApi.CreateData` | src/app/api/projects/route.js:72-94 | `techInput` and `featureInput` never reach the store, both array fields are encoded, and every other field passes through unchanged |
| `ProjectsApi.ToRow` | src/app/api/projects/route.js:99-101 | a created row has only column keys, the new id and the clock's time, and the encoded array texts as given |
| `ProjectsApi.Create` | src/app/api/projects/route.js:54-119 | a falsy title, description or category gets 400 "Missing required fields: title, description, category" with no write; a store refusal gets 500; otherwise the row is appended, and the reply is 201 with both arrays decoded, or 500 after the write when one does not parse |
| `ProjectsApi.StringFieldStoredAsIs` | src/app/api/projects/route.js:87-88 | a string sent for `technologies` is stored as sent, never encoded twice |
| `ProjectsApi.CreateRoundTrip` | src/app/api/projects/route.js:104-111 | arrays sent for both fields (or left out) come back in the 201 reply as sent (or as `[]`) |
| `TrendingApi.MinLikes` | src/app/api/blog/trending/route.js:8 | the threshold is never 0: an absent, non-numeric or zero parameter gives 10, and otherwise it is the parsed integer |
| `TrendingApi.MinLikesOfDecimal` | src/app/api/blog/trending/route.js:8 | a parameter written as a non-zero integer is that threshold, and "0" gives 10 |
| `TrendingApi.PopularityMeaning` | src/app/api/blog/trending/route.js:19-23 | the sort key orders by likes descending, then views descending, then newest |
| `TrendingApi.Trending` | src/app/api/blog/trending/route.js:11-18 | the `where`: published, marked trending, and at least the threshold in likes |
| `TrendingApi.Popularity` | src/app/api/blog/trending/route.js:19-23 | the sort key `[-likes, -viewCount, -createdAt]`; its meaning is stated by `TrendingApi.PopularityMeaning` |
| `TrendingApi.Top` | src/app/api/blog/trending/route.js:11-25 | the query's result: at most 10 rows, each trending |
| `TrendingApi.RankedInOrder` | src/app/api/blog/trending/route.js:19-23 | rows sorted by that key rank in that order pairwise |
| `TrendingApi.TopFacts` | src/app/api/blog/trending/route.js:11-24 | the selection holds at most 10 rows, each trending, ranked by popularity, drawn from the trending rows, and `min(10, matches)` of them |
| `TrendingApi.Answer` | src/app/api/blog/trending/route.js:27-36 | `count` equals the number of posts, each post has its tags decoded, and any failure is 500 "Failed to fetch trending posts" |
| `TrendingApi.Get` | src/app/api/blog/trending/route.js:5-44 | on success: at most 10 posts, each published, trending and liked at least the threshold; ranked by popularity; tags decoded; `count` equal to the number of posts; and `min(10, matches)` of them |
| `TrendingApi.TopTen` | src/app/api/blog/trending/route.js:11-25 | a trending row left out of the answer ranks no higher than any post in it |
| `NewPostForm.Changed` | src/app/admin/blog/new/page.js:22-28 | the named field takes the checkbox's `checked` or the input's `value`, and every other field keeps its value |
| `NewPostForm.WithTagAdded` | src/app/admin/blog/new/page.js:30-37 | a non-blank, unlisted trimmed input is appended at the end of the tags and the input is cleared; a blank or duplicate input changes nothing; no other field changes |
| `NewPostForm.Without` | src/app/admin/blog/new/page.js:43 | the filter keeps exactly the tags different from the removed one |
| `NewPostForm.WithTagRemoved` | src/app/admin/blog/new/page.js:40-45 | the removed tag is gone and no other field changes |
| `NewPostForm.WithoutAppend` | src/app/admin/blog/new/page.js:43 | removal distributes over concatenation, so the other tags keep their order |
| `NewPostForm.WithoutAbsent` | src/app/admin/blog/new/page.js:43 | removing a tag that is not listed changes nothing |
| `NewPostForm.AddKeepsClean` | src/app/admin/blog/new/page.js:31-34 | adding keeps the tags trimmed, non-blank and free of duplicates |
| `NewPostForm.WithoutKeepsClean` | src/app/admin/blog/new/page.js:40-45 | removing keeps the tags trimmed, non-blank and free of duplicates |
| `NewPostForm.RemoveUndoesAdd` | src/app/admin/blog/new/page.js:30-45 | removing the tag just added gives the previous tag list back |
| `NewPostForm.FormAcceptedIff` | src/app/admin/blog/new/page.js:64-67 | the server accepts the posted form exactly when the title and the content are filled in and the image URL is empty or a URL, and it then keeps the form's values and tags |
| `NewPostForm.Body` | src/app/admin/blog/new/page.js:64-67 | the posted body never carries `readTime`, which the server computes, and does carry the tag input, which the schema drops |
| `NewPostForm.IssueLines` | src/app/admin/blog/new/page.js:80 | one line per issue, each its dotted path, ": " and its message |
| `NewPostForm.Alert` | src/app/admin/blog/new/page.js:70-88 | success and network failure give their fixed texts; a failed reply without details gives "Error: " and then the reply's `error`, else its `message`, else "Unknown error" |
| `NewPostForm.ValidationAlertLines` | src/app/admin/blog/new/page.js:78-81 | split at line breaks, the validation alert is the heading and then one line per issue, in order, when no issue holds a line break |
| `NewPostForm.RejectedFormAlert` | src/app/admin/blog/new/page.js:78-81 | for any form the server rejects, the alert is the heading and then exactly one line per reported issue |
| `NewPostForm.Page.constructor` | src/app/admin/blog/new/page.js:10-20 | the form starts blank, with author "Admin", not published, and with no tags |
| `NewPostForm.Page.HandleInputChange` | src/app/admin/blog/new/page.js:22-28 | the state becomes the changed form, and the tag invariant holds |
| `NewPostForm.Page.AddTag` | src/app/admin/blog/new/page.js:30-37 | the state becomes the form with the tag added, and the tag invariant holds |
| `NewPostForm.Page.RemoveTag` | src/app/admin/blog/new/page.js:40-45 | the state becomes the form with the tag removed, and the tag invariant holds |
| `NewPostForm.Page.HandleTagKeyPress` | src/app/admin/blog/new/page.js:47-52 | Enter adds the tag, and any other key changes nothing |
| `NewPostForm.Page.HandleSubmit` | src/app/admin/blog/new/page.js:54-92 | posts the form's body, shows the alert for the reply, navigates only on success, and ends with loading false |
| `AdminAuth.Gate.constructor` | src/components/AdminAuth.js:6-8 | not authenticated, empty password, loading |
| `AdminAuth.Gate.View` | src/components/AdminAuth.js:46-57 | the screen rendered: the spinner while loading, then the login form until authenticated, then the admin pages |
| `AdminAuth.Gate.Mount` | src/components/AdminAuth.js:13-23 | authenticated when local storage holds `admin-auth` = "true", and loading ends |
| `AdminAuth.Gate.TypePassword` | src/components/AdminAuth.js:77 | only the password field changes |
| `AdminAuth.Gate.Login` | src/components/AdminAuth.js:25-37 | `admin123` authenticates and stores the flag; any other password alerts and changes neither; the field is cleared either way |
| `AdminAuth.Gate.Logout` | src/components/AdminAuth.js:39-44 | logged out, with the stored flag removed |
| `AdminAuth.MountedView` | src/components/AdminAuth.js:46-57 | the spinner shows before the mount effect, and afterwards the admin pages show exactly when a login is remembered |
| `AdminAuth.LoginThenReload` | src/components/AdminAuth.js:25-32 | after a login attempt and a reload, the admin pages show exactly when the password was right or a login was already remembered |
| `AdminAuth.LogoutThenReload` | src/components/AdminAuth.js:39-44 | after a logout and a reload, the login form shows |
| `AdminList.Remove` | src/app/admin/projects/page.js:40 | the filter keeps exactly the entries with another id |
| `AdminList.RemoveAppend` | src/app/admin/projects/page.js:40 | removal distributes over concatenation, so the entries kept keep their order |
| `AdminList.RemovePresent` | src/app/admin/blog/page.js:40 | with the id held by one entry only, removal drops just that entry |
| `AdminList.Update` | src/app/admin/projects/page.js:62-66 | entries with the id are rewritten, every other entry is kept, and the length is unchanged |
| `AdminList.UpdateIdempotent` | src/app/admin/projects/page.js:62-66 | an edit that keeps ids and settles after one application settles the list the same way |
| `AdminProjects.ToggleTwice` | src/app/admin/projects/page.js:51-93 | a toggle sets the flag to the opposite of the shown value, so answering the same click twice equals answering it once |
| `AdminProjects.ToggleChangesOneFlag` | src/app/admin/projects/page.js:62-88 | a toggle changes only its flag, and only on entries with the id |
| `AdminProjects.Page.constructor` | src/app/admin/projects/page.js:8-9 | an empty list, loading |
| `AdminProjects.Page.FetchProjects` | src/app/admin/projects/page.js:15-27 | an ok reply replaces the list, anything else keeps it, and loading ends |
| `AdminProjects.Page.DeleteProject` | src/app/admin/projects/page.js:29-49 | no request without confirmation; on success the entries with the id leave the list with a success alert; on failure the list is kept and the failure is alerted |
| `AdminProjects.Page.TogglePublished` | src/app/admin/projects/page.js:51-71 | asks for the opposite of the shown value, and on success shows it on the entries with the id; otherwise the list is kept |
| `AdminProjects.Page.ToggleFeatured` | src/app/admin/projects/page.js:73-93 | the same for `featured` |
| `AdminProjects.Open` | src/app/admin/projects/page.js:11-27 | with the store answering and every column readable, the page holds every project of the table, published or not |
| `AdminBlog.AdminQueryListsAll` | src/app/admin/blog/page.js:17 | the `admin=true` listing lets every post through, drafts included |
| `AdminBlog.ToggleTwice` | src/app/admin/blog/page.js:50-63 | answering the same toggle twice equals answering it once |
| `AdminBlog.ToggleChangesOneFlag` | src/app/admin/blog/page.js:61-63 | a toggle changes only `published`, and only on posts with the id |
| `AdminBlog.DeleteDropsOne` | src/app/admin/blog/page.js:39-40 | with unique ids, a successful delete drops exactly that post and keeps the others in order |
| `AdminBlog.Page.constructor` | src/app/admin/blog/page.js:8-9 | an empty list, loading |
| `AdminBlog.Page.FetchPosts` | src/app/admin/blog/page.js:15-27 | requests `admin=true`; an ok reply replaces the list, anything else keeps it, and loading ends |
| `AdminBlog.Page.DeletePost` | src/app/admin/blog/page.js:29-48 | no request without confirmation; on success the posts with the id leave the list; on failure the list is kept and the failure is alerted |
| `AdminBlog.Page.TogglePublished` | src/app/admin/blog/page.js:50-71 | asks for the opposite of the shown value, and on success shows it on the posts with the id; on failure the list is kept and the failure is alerted |
| `AdminBlog.ToggleBody` | src/app/admin/blog/page.js:57 | the toggle's body holds `published` alone, set to the opposite of the shown value |
| `AdminBlog.FullSchemaRefusesToggle` | src/app/admin/blog/page.js:52-57 | the full post schema refuses the toggle's body for every value, and the refusal names `title` |
| `AdminBlog.ToggleThroughPut` | src/app/admin/blog/page.js:50-71 | sent as written, the toggle never changes the list and always alerts "Failed to update blog post" |
| `AdminBlog.PartialSchemaAcceptsToggle` | src/app/api/blog/route.js:122 | the partial schema accepts the toggle's body and sets only `published` |
| `AdminBlog.ToggleThroughPatch` | src/app/api/blog/route.js:125-187 | sent to the partial-update handler, the toggle sets that post's `published` and nothing else when the store answers and the post exists, and the page shows the new value without an alert; otherwise nothing changes and the failure is alerted |
| `AdminBlog.Open` | src/app/admin/blog/page.js:11-27 | with the store answering and every post's tags readable, the page holds every post of the table, drafts included, newest first |

## Left out

- **Async code and the browser.** The following become inputs or outputs of the modelled methods:
  - awaiting, rendering and markup;
  - `alert`, `confirm` and router navigation;
  - the server's answer to a page's request: `None` when the request throws, otherwise the reply or whether it was ok.
- **Local storage.** It is a map held in `AdminAuth.Gate`, shared by every mount through its constructor argument.
- **Logging.** `console.log` and `console.error` calls have no effect in the model.
- **JSON beyond arrays of strings.**
  - Request bodies are maps from keys to null, booleans, integers, strings and arrays of strings.
  - Floating-point numbers and nested objects are not modelled.
  - A body that is not a JSON object, or is malformed, is not modelled either; the code answers 500 for it.
  - `Json.Decode` parses only arrays of strings. Valid JSON of another shape, such as `"5"`, counts as a parse failure. The code would parse it, so a stored `technologies` or `tags` text of that kind is a 500 in the model.
- **Unicode.**
  - Lower-casing changes only ASCII letters.
  - `\s` is the ASCII whitespace together with the common Unicode spaces that `Text.IsSpace` lists.
  - Strings are sequences of code points, not UTF-16 units, so `\u` escapes of surrogate halves are rejected.
- **The URL check of the validation library.** It is the parameter `isUrl` and is not interpreted.
- **Columns the code does not use.**
  - The database schema file is not part of this model.
  - The blog row leaves out `priority`.
  - `ProjectsApi.ToRow` assumes the project table's columns and defaults: `published` and `featured` are false, `order` is 0, and every other column is optional text. A key outside those columns, or a value of the wrong type, counts as a store refusal, which is 500.
- **Tie order.**
  - `Store.FindMany` sorts stably, so rows equal on every sort key keep their table order.
  - The real database does not promise this order, and the contracts do not depend on it.
- **The `id` of `PATCH` and `DELETE`.**
  - The id is a parameter of `BlogApi.Patch` and `BlogApi.Delete`.
  - These handlers sit in the collection route file, which has no `[id]` segment. How the framework fills `params` there is outside the model.
  - `BlogApi.Patch` and `BlogApi.Delete` act on the first row with that id.
- **The `[id]` routes.** The single-item routes `src/app/api/blog/[id]/route.js` and `src/app/api/projects/[id]/route.js` are not part of this model. The admin pages' deletes and toggles are sent there. The blog toggle uses `PUT`, which only that route exports. The pages' model takes only whether that request succeeded. For the blog toggle, that handler's schema is the one `BlogApi.Validate` models; see Findings.
- **Differences between the repository's design description and its code.** The model follows the code:
  - Only `features` fails soft on malformed JSON. A malformed `tags` or `technologies` text makes the whole request answer 500.
  - A create always computes the slug and read time, overriding any supplied values.
  - A missing id on update or delete answers 500, not 404.
  - A malformed request body answers 500, not 400.
  - Projects check only that `category` is truthy, not that it is from a fixed set.
  - Non-array values sent for the project array fields are stringified and stored, not refused.
- **Other files.** The priority listing and the other pages are not part of this model.
- `TrendingApi.MinLikes`: keeps the parsed threshold as an exact integer. JavaScript's `parseInt` gives a double, so a `minLikes` beyond 2^53 is compared after rounding in the program, and not in the model. `Text.ParseInt` is exact for the same reason.
- `ProjectsApi.ToRow`: states only the id, the time and the two array columns of the new row. The other columns follow the assumed schema above.

## Findings

| source | as written | input that shows it | evidently intended | confidence | as-written member | corrected member |
|---|---|---|---|---|---|---|
| src/app/admin/blog/page.js:52-57 | the publish toggle sends `{ published }` alone by `PUT` to the single-post handler, which parses it with the full post schema (`src/app/api/blog/[id]/route.js:53`); `title` and `content` are required there, so every toggle is answered 400 and the page alerts "Failed to update blog post" | any post, with either value of `published` | a partial update of `published`, as the partial schema of the collection route's `PATCH` handler accepts | high (not executed) | `AdminBlog.ToggleThroughPut` | `AdminBlog.ToggleThroughPatch` |

`AdminBlog.ToggleTwice`, `AdminBlog.ToggleChangesOneFlag` and `AdminBlog.Page.TogglePublished` describe the successful toggle, which happens only when the request goes through the partial-update handler.
