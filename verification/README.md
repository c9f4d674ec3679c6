# InfinityX training site: a Dafny model of its server core and two page derivations

The site is a small training-academy website. A tRPC API over a Firestore document store
serves and edits page texts, courses, programs, blog posts, job listings, student
applications, contact messages and site settings. Two upload endpoints accept images: an
Express route storing to disk, and a serverless handler answering with a `data:` URL. The
public pages derive what they show from the API's lists.

This project models that core as pure Dafny functions over immutable values and proves what
the code promises about it:

- **Store** (`store.dfy`): the document store as a value. It has one `map<Id, Doc>` per
  collection and the five operations the entity layer uses: add, merge-update, delete,
  equality lookup and ordered listing.
- **Entities** (`entities.dfy`): `server/db.ts`. This covers the three query-then-upsert
  operations keyed by open id, page key and setting key; the role default; partial-merge
  updates; `create*` results without timestamps; and the active-only job filter.
- **Inputs** (`inputs.dfy`) and **Decimal** (`decimal.dfy`): how `server/routers.ts` shapes a
  validated input into the document it passes on. Omitted fields are absent. Prices become
  the text `String(n)` gives: Number::toString of ECMA-262 (section 6.1.6.1.20), with its
  five layouts. A number is a finite decimal, sign, digits and exponent, kept in shortest
  form. `isActive`, `publishedAt` and `messageType` get their defaults.
- **Context** (`context.dfy`): `server/_core/context.ts`. The caller is the verified user,
  the development-mode local administrator, or nobody.
- **Router** (`router.dfy`): the procedures of `server/routers.ts`. Each has its admin-role
  guard, its public or protected status, and its effect on the store. `Router.Handle` chains
  the context into the router to give the end-to-end property: outside development mode, an
  unverified caller cannot change any admin-owned collection.
- **UploadRules**, **DiskUpload**, **ServerlessUpload**: the two upload endpoints. This covers
  the MIME whitelist, the 20 MiB bound, the generated file name, and the mapping from each
  failure to its status and message.
- **BlogPage** (`blog.dfy`): the blog page's newest-first copy, the featured post, the
  remaining posts, and the excerpt rule.
- **ProgramsPage** (`programs.dfy`), with **Text** (`text.dfy`: JavaScript's `indexOf`,
  `split`, `join` and `trim`) and **Uri** (`uri.dfy`: `encodeURIComponent` and its inverse):
  the programs page's search filter, its skill chips and its Apply link.

The clock, the store's fresh ids, the random integer in upload names, `path.extname`, the
base64 encoder and the session verification are all parameters.

Where the written description of the system and the code differ, the model follows the code:

- Deleting a missing id is not an error. `doc(id).delete()` succeeds on an absent document, so
  `Entities.Delete` and `Router.Remove` have no failure case. Updating a missing id fails with
  `NotFound`.
- `setSiteSetting` changes only `value` on an existing setting. It writes no `updatedAt`
  (server/db.ts:407), although every mutation is described as refreshing it.
- Applications and contact messages get `createdAt` only, never `updatedAt`.
- The serverless upload handler's replies carry a `success` flag and, on success, a `message`.
  This is more than the `{ url, filename, size, mimetype }` response described for uploads.

## Model

| member | source | states |
|---|---|---|
| Store.FindFirst | server/db.ts:32 | `where(field, "==", v).limit(1)`: no result exactly when no document has `v` in `field`; otherwise the matching document with the least id, as the store orders an unordered query |
| Store.Matching | server/db.ts:101 | the ids of an equality query are exactly the documents carrying that value in that field |
| Store.Add | server/db.ts:155-159 | `add` under a new id: one more document holding exactly the data; every other document unchanged |
| Store.Merge | server/db.ts:164-167 | `update` merges: supplied fields take the patch's values, the document's other fields keep theirs, other documents are untouched |
| Store.Update | server/db.ts:164 | `update` fails with NotFound exactly when the id is absent, and otherwise is the merge |
| Store.Delete | server/db.ts:171 | `delete` removes exactly that id; the other documents are kept as they were |
| Store.WithId | server/db.ts:68 | `{ id: doc.id, ...doc.data() }`: the document's fields plus `id`, whose value is the document id unless the data has its own |
| Store.Materialize | server/db.ts:151 | the listed documents, in the order of the ids, each with its id merged in |
| Store.NewestFirst | server/db.ts:150 | `orderBy(field, "desc")`: each document with a timestamp in `field` appears once, newer before older, and documents with equal timestamps by descending id |
| Store.AllMatching | server/db.ts:279 | an unordered equality query returns every matching document once and nothing else, by ascending id |
| Store.SameFieldQueries | server/db.ts:101 | rewriting documents without touching a field changes no equality lookup on that field |
| Store.FindFirstUnique | server/db.ts:64 | when a field is unique across the collection, the lookup finds the one document holding the value |
| Store.AddedIsFound | server/db.ts:113-120 | adding the first document with a value makes it the one the lookup finds |
| Store.RewriteKeepsFound | server/db.ts:122-125 | rewriting a document without touching the lookup field keeps every lookup's answer |
| Decimal.Normal | server/routers.ts:87-88 | a number is kept in its shortest form: an already shortest number is itself, and the sign of a non-zero number is kept |
| Decimal.NormalValue | server/routers.ts:87-88 | the shortest form denotes the same real number |
| Decimal.NumberText | server/routers.ts:97-98 | `String(n)`: a non-empty text, starting with `-` exactly for negative numbers |
| Decimal.ExponentRoundTrip | server/routers.ts:97-98 | the `e+`/`e-` suffix of the exponent layouts reads back as the exponent |
| Decimal.MagnitudeRoundTrip | server/routers.ts:97-98 | each of the five Number::toString layouts reads back as the digits and exponent it was printed from |
| Decimal.ParseNumberText | server/routers.ts:97-98 | the text a number is stored as reads back as that number, so distinct prices are stored as distinct texts |
| Entities.Put | server/db.ts:155 | writing one collection leaves every other collection as it was |
| Entities.ResolveRole | server/db.ts:35 | the role is the explicit one if given; otherwise `admin` exactly when the open id is the owner's |
| Entities.SignIn | server/db.ts:40-47 | the sign-in fields are written, `lastSignedIn` defaulting to now; open id, `createdAt` and all other fields are kept |
| Entities.RefreshUser | server/db.ts:37-47 | the update branch rewrites only user `id`'s sign-in fields; no user is added and `createdAt` and the open id are kept |
| Entities.RegisterUser | server/db.ts:48-59 | the create branch adds exactly one user with the open id, the sign-in fields and `createdAt == updatedAt == now` |
| Entities.UpsertUser | server/db.ts:30-61 | an open id already stored is refreshed in place and nothing is added; an unknown one is registered as a single new user |
| Entities.UpsertUserKeepsOpenIdUnique | server/db.ts:30-61 | `upsertUser` never gives two users the same open id |
| Entities.UpsertUserThenFind | server/db.ts:63-69 | after `upsertUser`, `getUserByOpenId` finds a user carrying the written sign-in fields |
| Entities.RefreshUserThenFind | server/db.ts:37-47 | in the update branch the refreshed user is still the one found by its open id |
| Entities.RegisterUserThenFind | server/db.ts:48-59 | in the create branch the new user is the only one with its open id |
| Entities.SignedInWithId | server/db.ts:68 | merging the id into a user document keeps its sign-in fields |
| Entities.FindBy | server/db.ts:100-106 | the secondary-key lookups give `undefined` exactly when no document matches, else a matching document |
| Entities.MergePage | server/db.ts:121-126 | the merge branch of `updatePageContent`: the data's fields are set, `updatedAt` is now, other fields (`createdAt` too) and documents are kept, nothing is added |
| Entities.AddPage | server/db.ts:110-120 | the create branch adds one document holding the data, the page key and both timestamps set to now |
| Entities.UpdatePageContent | server/db.ts:108-127 | an existing page key is merged into and nothing is added; an absent one gets exactly one new document |
| Entities.UpdatePageContentMatches | server/db.ts:108-127 | afterwards the page key names the same document as before, or the new one if it had none |
| Entities.MergedPageKeepsKey | server/db.ts:121-126 | the merge branch leaves every page key as it was |
| Entities.AddedPageHasKey | server/db.ts:113-118 | the create branch stores the queried page key in the new document |
| Entities.UpdatePageContentKeepsUnique | server/db.ts:108-127 | used one call at a time, `updatePageContent` keeps at most one document per page key |
| Entities.UpdatePageContentTwice | server/db.ts:108-127 | two calls on a new page key leave one document for it, holding the second call's data |
| Entities.ChangeSetting | server/db.ts:405-408 | the update branch of `setSiteSetting` changes only `value`, writing no timestamp |
| Entities.AddSetting | server/db.ts:399-404 | the create branch adds exactly `{ key, value, createdAt }` |
| Entities.SetSiteSetting | server/db.ts:396-409 | a stored key has its value changed in place; an absent one gets one new setting |
| Entities.SetSiteSettingKeepsUnique | server/db.ts:396-409 | `setSiteSetting` never leaves two settings for one key |
| Entities.SetSiteSettingThenGet | server/db.ts:388-394 | after `setSiteSetting(key, value)`, `getSiteSetting(key)` finds a setting with that value |
| Entities.ChangeSettingThenGet | server/db.ts:405-408 | in the update branch the changed setting is still the one found for its key |
| Entities.AddSettingThenGet | server/db.ts:399-404 | in the create branch the added setting is the one found for its key |
| Entities.ListNewestFirst | server/db.ts:149-152 | the `get*` listings hold every document of the collection that has the timestamp, each once with its id, newest first |
| Entities.ActiveJobListings | server/db.ts:278-281 | `getJobListings` lists only active listings, and every active listing |
| Entities.ListedIffActive | server/db.ts:278-281 | a stored listing is offered exactly when its `isActive` is true |
| Entities.Create | server/db.ts:154-161 | `create*` stores the data with both timestamps under the new id, and returns the data with the id and no timestamps |
| Entities.Stamped | server/db.ts:155-159 | the data with `createdAt` and `updatedAt` set to now and every other field as given |
| Entities.Submit | server/db.ts:329-335 | applications and messages are stored with `createdAt` only, and returned with the id and without it |
| Entities.Update | server/db.ts:163-168 | `update*` on a missing id fails and changes nothing; otherwise it sets the supplied fields and `updatedAt`, keeping every other field and `createdAt` |
| Entities.Delete | server/db.ts:170-172 | `delete*` removes exactly that id from the collection, with no error for a missing one |
| Entities.CreateThenList | server/db.ts:149-161 | a created record is listed afterwards by its kind's newest-first listing |
| Entities.DeleteTwice | server/db.ts:170-172 | deleting twice is deleting once |
| Inputs.DecimalTextReadsBack | server/routers.ts:123-124 | a supplied number, integral or not, is written as text that reads back as that number |
| Inputs.Compact | server/routers.ts:37-62 | the object an input schema yields: each supplied field with its value; omitted ones absent |
| Inputs.PageDoc | server/routers.ts:68 | the whole page input is passed on: the page key and exactly the supplied fields, no id or timestamp |
| Inputs.CourseDoc | server/routers.ts:95-99 | the course stored has the supplied fields, and both prices as text; a missing price becomes the text of 0 |
| Inputs.CoursePricesReadBack | server/routers.ts:87-98 | both stored prices read back as the numbers given, fractions included; 0 for an omitted one |
| Inputs.CoursePatchDoc | server/routers.ts:121-125 | the course patch drops the id, has a price exactly when one is supplied, and passes every other supplied field unchanged |
| Inputs.CoursePatchPricesReadBack | server/routers.ts:113-124 | a supplied price in a patch reads back as the number given, fractions included |
| Inputs.ProgramDoc | server/routers.ts:144-159 | the program stored is the input as given |
| Inputs.ProgramPatchDoc | server/routers.ts:161-179 | the program patch is the supplied fields without the id |
| Inputs.BlogDoc | server/routers.ts:212-214 | a post is always stored with a date: the supplied one, else now |
| Inputs.BlogPatchDoc | server/routers.ts:217-236 | a post patch carries `publishedAt` exactly when one is supplied, and never the id |
| Inputs.JobDoc | server/routers.ts:275 | a created listing is always active, whatever the caller sends |
| Inputs.JobPatchDoc | server/routers.ts:278-298 | a listing patch sets `isActive` exactly when it is supplied, with that value |
| Inputs.ApplicationDoc | server/routers.ts:320-332 | the application stored is the input as given |
| Inputs.MessageDoc | server/routers.ts:354-367 | the message stored has the supplied type, else `"contact"` |
| Context.CreateContext | server/_core/context.ts:11-40 | never fails; `req` and `res` pass through; the user is the verified one, the local admin in development, or none |
| Context.AdminIff | server/_core/context.ts:16-33 | the admin guard passes exactly for a verified administrator, or for anyone when verification failed in development mode |
| Router.PublicTargets | server/routers.ts:320-367 | the procedures without a role check write only applications and messages |
| Router.Query | server/routers.ts:382-385 | queries do not change the store; `me` is the caller, `getSiteSettings` is empty, a page lookup is the first page with the key and is empty exactly when none has it, `getJobListings` is the active listings, and each other listing is its collection newest first |
| Router.Change | server/routers.ts:102-127 | an update procedure returns `{ success: true }` after the merge, or NotFound for a missing id, changing nothing then |
| Router.SavePage | server/routers.ts:68-69 | `updatePageContent` is the entity upsert of the shaped page: it touches no other collection, and the key names the page it named before, or the new one |
| Router.SaveSetting | server/routers.ts:393-394 | `updateSiteSetting` is the entity upsert of the key and value: it touches no other collection, and the key then finds a setting with the value |
| Router.MakeCourse | server/routers.ts:95-99 | `createCourse` is the entity create of the shaped course: one course with prices as text that reads back and both timestamps, and a reply without timestamps |
| Router.MakeProgram | server/routers.ts:158 | `createProgram` is the entity create of the program as given: exactly one program more, and the created record as the reply |
| Router.MakePost | server/routers.ts:212-215 | `createBlogPost` is the entity create of the post dated with the given date or else now |
| Router.MakeJob | server/routers.ts:275 | `createJobListing` is the entity create of the listing, stored as active so `getJobListings` offers it |
| Router.Apply | server/routers.ts:330-331 | `createApplication` is the write-once submit of the application as given, stamped `createdAt` only, and replies with it |
| Router.Contact | server/routers.ts:365-366 | `createMessage` is the write-once submit of the message, whose type is the supplied one, else `"contact"` |
| Router.ReviseCourse | server/routers.ts:121-126 | `updateCourse` on an existing course is the entity update with the shaped patch, storing supplied prices as text; a missing course fails, changing nothing |
| Router.ReviseJob | server/routers.ts:295-297 | `updateJobListing` is the entity update with the shaped patch: a supplied `isActive` is stored, and the listing keeps its flag when it is omitted |
| Router.RevisePost | server/routers.ts:233-235 | `updateBlogPost` is the entity update with the shaped patch, replacing `publishedAt` only when a date is supplied |
| Router.Revise | server/routers.ts:176-178 | `updateProgram` on an existing program is the entity update with the patch: the supplied fields and `updatedAt` are written, no program is added or removed; a missing id fails |
| Router.Remove | server/routers.ts:135-136 | the delete procedures are the entity delete: that id alone goes, only from its collection, and the other documents keep their data |
| Router.TargetClasses | server/routers.ts:37-395 | every procedure that writes creates, updates, deletes or upserts |
| Router.MutateCreate | server/routers.ts:77-100 | a create procedure stores and returns what the entity create (or write-once submit) of its shaped input gives, adding exactly the new id to its collection |
| Router.MutateUpdate | server/routers.ts:102-127 | an update procedure fails exactly when the record is missing, leaving the store as it was; otherwise it is the entity update with its shaped patch |
| Router.MutateUpsert | server/routers.ts:37-70 | the two keyed upserts are the entity upserts of their shaped input and touch only their own collection |
| Router.MutateDelete | server/routers.ts:129-137 | a delete procedure is the entity delete of the named id from its collection |
| Router.Mutate | server/routers.ts:37-395 | every writing procedure changes only its target collection, a failure changes nothing, and each class of procedure does what its entity operation does |
| Router.Lift | server/routers.ts:125 | a store error is passed to the caller unchanged |
| Router.Dispatch | server/routers.ts:65-67 | a guarded procedure called by a non-admin is FORBIDDEN before any store access, and FORBIDDEN arises only that way; an allowed query gives its reply, and an allowed write does what its entity operation does |
| Router.Handle | server/_core/context.ts:29-32 | outside development mode a failed verification makes every guarded procedure FORBIDDEN, and only applications and messages can change |
| UploadRules.UniqueName | server/routes/upload.ts:21-23 | the generated name ends with the original extension and is longer than it |
| UploadRules.ParseName | server/routes/upload.ts:22 | reading a name back yields an extension that the name ends with |
| UploadRules.NameRoundTrip | server/routes/upload.ts:21-23 | a generated name reads back as the clock reading, the random integer and the extension |
| UploadRules.NamesDistinct | server/routes/upload.ts:22 | two uploads get the same name only with the same clock reading, random integer and extension |
| DiskUpload.FileFilter | server/routes/upload.ts:33-49 | a file passes the filter exactly when its type is one of the six image types; any other is refused with the invalid-type error |
| DiskUpload.Upload | server/routes/upload.ts:52-87 | 200 exactly for one image part in field `file` within 20 MiB, with `url == "/uploads/" + filename`; everything else is 400; too large gives the route's own message; other errors pass their message |
| DiskUpload.StoredNameReadsBack | server/routes/upload.ts:59-66 | the reply's URL names the stored file, and the name reads back as clock reading, random integer and extension |
| ServerlessUpload.Parse | api/upload.ts:24-35 | parsing fails exactly for a malformed body or a file over 20 MiB, and otherwise yields the entry |
| ServerlessUpload.Pick | api/upload.ts:38-39 | the first file of an array, the file itself, none for an empty array or no entry |
| ServerlessUpload.ErrorText | api/upload.ts:94 | the thrown message when it is non-empty; "Upload failed" when it is missing or empty |
| ServerlessUpload.Handle | api/upload.ts:13-97 | 405 exactly for a non-POST; 500 for a parse failure; 400 for no file or a non-image type; 200 exactly for an image, with its `data:` URL; the picked temp file is unlinked on both 400-type and 200 |
| ServerlessUpload.ImageTypesHaveNoSemicolon | api/upload.ts:49-56 | no whitelisted type contains `;` |
| ServerlessUpload.DataUrlRoundTrip | api/upload.ts:76 | a `data:` URL reads back as its media type and payload |
| ServerlessUpload.StoredReadsBack | api/upload.ts:69-88 | a success reply's URL reads back as the file's type and base64 content, and its name as clock reading, random integer and extension |
| ServerlessUpload.OnlyFirstRemoved | api/upload.ts:39 | of several files only the first is looked at and removed; the rest stay behind |
| BlogPage.Insert | client/src/pages/Blog.tsx:11-13 | one insertion step keeps every post and adds the new one |
| BlogPage.SortNewestFirst | client/src/pages/Blog.tsx:11-13 | the sorted copy is a permutation of the posts |
| BlogPage.InsertKeepsOrder | client/src/pages/Blog.tsx:11-13 | inserting into a newest-first list keeps it newest first |
| BlogPage.SortIsNewestFirst | client/src/pages/Blog.tsx:11-13 | the sorted copy is newest first |
| BlogPage.InsertAt | client/src/pages/Blog.tsx:11-13 | an insertion puts the post ahead of the posts published at the same time |
| BlogPage.SortIsStable | client/src/pages/Blog.tsx:11-13 | posts published at the same time keep their relative order |
| BlogPage.NewestFirstTail | client/src/pages/Blog.tsx:15-16 | the head of a newest-first list is newest, and its tail is newest first |
| BlogPage.SortOfSorted | client/src/pages/Blog.tsx:11-13 | a list already newest first (as the server returns it) comes back unchanged |
| BlogPage.Derive | client/src/pages/Blog.tsx:11-16 | the featured post is absent exactly for no posts; otherwise featured followed by the remaining posts is the sorted copy, and together they are the posts |
| BlogPage.FeaturedIsNewest | client/src/pages/Blog.tsx:15 | the featured post is one of the posts and none is newer; the remaining posts are newest first |
| BlogPage.Units | client/src/pages/Blog.tsx:67 | a character is one UTF-16 unit below U+10000 and two above |
| BlogPage.PairOf | client/src/pages/Blog.tsx:67 | the two units of a character above U+FFFF are a high and a low surrogate that recombine to it |
| BlogPage.Utf16 | client/src/pages/Blog.tsx:67 | a text has at least as many UTF-16 units as characters |
| BlogPage.Utf16Append | client/src/pages/Blog.tsx:67 | the units of a joined text are the units of its parts, joined |
| BlogPage.Utf16Basic | client/src/pages/Blog.tsx:67 | a text without characters above U+FFFF has one unit per character, each equal to it |
| BlogPage.Prefix | client/src/pages/Blog.tsx:67 | `substring(0, n)` is the first n UTF-16 units, or all of a shorter text; the cut may split a surrogate pair |
| BlogPage.PrefixAtBoundary | client/src/pages/Blog.tsx:67 | when the first n units are whole characters, the prefix is exactly those characters |
| BlogPage.Excerpt | client/src/pages/Blog.tsx:117 | a non-empty summary is shown; otherwise the first n UTF-16 units of the content, all of it when short enough |
| BlogPage.FeaturedShowsMore | client/src/pages/Blog.tsx:67 | without a summary, a card's 150-unit excerpt is a prefix of the featured 200-unit one |
| Text.IndexOf | client/src/pages/Programs.tsx:147 | the position of the first occurrence, or the length when there is none |
| Text.IndexOfPrefix | client/src/pages/Programs.tsx:147 | the first occurrence after a part without the character is where that part ends |
| Text.Count | client/src/pages/Programs.tsx:147 | the count of a character is 0 exactly when it does not occur |
| Text.CountAppend | client/src/pages/Programs.tsx:147 | the occurrences in a concatenation add up |
| Text.Split | client/src/pages/Programs.tsx:147 | `split` always yields at least one piece |
| Text.JoinSplit | client/src/pages/Programs.tsx:147 | joining the pieces with the separator gives the text back |
| Text.SplitJoin | client/src/pages/Programs.tsx:147 | splitting a join of separator-free pieces gives the pieces back |
| Text.SplitCount | client/src/pages/Programs.tsx:147 | there is one piece more than there are separators |
| Text.SplitNoSeparator | client/src/pages/Programs.tsx:147 | no piece contains the separator |
| Text.Lead | client/src/pages/Programs.tsx:152 | the leading white-space run, up to the first non-space |
| Text.Trail | client/src/pages/Programs.tsx:152 | the trailing white-space run, back to the last non-space |
| Text.Trim | client/src/pages/Programs.tsx:152 | `trim` is the middle of the text with only white space cut off either side, and neither end of the result is white space |
| Text.TrimWithin | client/src/pages/Programs.tsx:152 | trimming adds no character |
| Text.TrimmedIsKept | client/src/pages/Programs.tsx:152 | a text without white space at its ends is unchanged by `trim` |
| Text.TrimTwice | client/src/pages/Programs.tsx:152 | trimming twice is trimming once |
| Uri.Hex | client/src/pages/Programs.tsx:163 | a hex digit is an unreserved character |
| Uri.HexRoundTrip | client/src/pages/Programs.tsx:163 | every hex digit reads back as its value |
| Uri.Utf8 | client/src/pages/Programs.tsx:163 | a character encodes to one to four UTF-8 bytes |
| Uri.Encode | client/src/pages/Programs.tsx:163-165 | `encodeURIComponent`: only unreserved characters and `%XX` escapes; a text of unreserved characters is unchanged |
| Uri.UnescapeEncode | client/src/pages/Programs.tsx:163-165 | the escapes of an encoded text read back as the text's UTF-8 bytes |
| Uri.AssembleUnits | client/src/pages/Programs.tsx:163-165 | the UTF-8 bytes of a text assemble back into the text |
| Uri.DecodeEncode | client/src/pages/Programs.tsx:163-165 | decoding undoes `encodeURIComponent` for every text |
| ProgramsPage.LowerChar | client/src/pages/Programs.tsx:31 | `toLowerCase` of a letter A-Z is its lower-case letter; every other character is unchanged |
| ProgramsPage.Lower | client/src/pages/Programs.tsx:31 | lower-casing works character by character and keeps the length |
| ProgramsPage.LowerTwice | client/src/pages/Programs.tsx:31 | lower-casing twice is lower-casing once |
| ProgramsPage.IncludesIff | client/src/pages/Programs.tsx:31 | `includes` holds exactly when the query occurs at some position |
| ProgramsPage.Filter | client/src/pages/Programs.tsx:30-32 | the filter never yields more programs than it is given |
| ProgramsPage.FilterMembers | client/src/pages/Programs.tsx:30-32 | a program is kept exactly when its lower-cased title contains the lower-cased query |
| ProgramsPage.FilterIsSubsequence | client/src/pages/Programs.tsx:30-32 | the kept programs are in their listed order |
| ProgramsPage.EmptyQueryKeepsAll | client/src/pages/Programs.tsx:90 | the empty query, as after Reset, keeps every program |
| ProgramsPage.FilterIgnoresCase | client/src/pages/Programs.tsx:30-32 | the case of the query's letters does not matter |
| ProgramsPage.Chips | client/src/pages/Programs.tsx:141-157 | a missing or empty skills text gives no chips |
| ProgramsPage.ChipsOf | client/src/pages/Programs.tsx:147-152 | one chip more than commas, each a comma-separated piece trimmed |
| ProgramsPage.ChipsClean | client/src/pages/Programs.tsx:147-152 | no chip contains a comma, and none starts or ends with white space |
| ProgramsPage.ChipsRejoin | client/src/pages/Programs.tsx:147 | the pieces rejoined with commas are the skills text, one piece per chip |
| ProgramsPage.ApplyLinkRoundTrip | client/src/pages/Programs.tsx:162-166 | the Apply link carries the program's id and its title intact, for any title and any id without `?` |

## Left out

- The `auth.logout` procedure (server/routers.ts:18-23) is left out. It only clears the
  session cookie, which is HTTP response I/O.
- The `system` router and the `protectedProcedure` middleware (`server/_core/trpc.ts`) are not
  part of this model. The middleware is taken to pass every call through to the role check. If
  it refuses unauthenticated callers itself, the refusal would be UNAUTHORIZED rather than
  FORBIDDEN, but the store would still stay unchanged.
- zod's schema checks are left out. Procedures receive already-validated input records.
- Firestore is left out as a service: network failures, indexes, the non-atomic
  query-then-write of the upserts, and concurrent requests. The properties about upserts hold
  for one call at a time.
- Ordering follows Firestore's rules: a query without `orderBy` returns documents by ascending
  id, so `limit(1)` picks the least matching id. `orderBy(field, "desc")` breaks ties by
  descending id. Ids are compared character by character, which matches Firestore's byte
  order on UTF-8 ids.
- The upsert writes `null` for an omitted optional name, email or login method. Firestore by
  default rejects the `undefined` the code writes.
- Each call reads the clock once. The code calls `new Date()` separately for `createdAt` and
  `updatedAt`.
- Session verification (`sdk.authenticateRequest`) is an input, either a verified user or a
  rejection. `process.env.NODE_ENV` is an input string.
- multer's and formidable's multipart parsing is left out:
  - multer is taken to report the body's own failure first, then the first part.
  - formidable's size fault is a parameter; its bound is applied to each file.
- The uploads' file-system work is left out: creating the upload directory, writing the file,
  `readFileSync`, and `unlinkSync` failures.
- The disk route's `try`/`catch` 500 (server/routes/upload.ts:67-70) is left out. Nothing in
  the modelled handler can throw.
- The serverless handler's 500 is modelled only for parse failures. It is not modelled for
  read or unlink failures.
- `path.extname`, the base64 encoder, `Date.now()` and `Math.random()` are parameters.
- ProgramsPage.LowerChar: covers ASCII letters only, because full Unicode case mapping is a
  library table not modelled here.
- Text and Uri count code points, while JavaScript strings count UTF-16 units. Lone surrogates
  cannot occur in a Dafny `char`, so `encodeURIComponent`'s `URIError` is not modelled.
  BlogPage's excerpts do count UTF-16 units.
- Decimal.JsNumber: every finite decimal counts as a number. Rounding to IEEE 754 binary64
  and the 17-significant-digit limit are not modelled, because they are floating point.
- Non-finite numbers are left out: `Infinity` and `-Infinity`, which `String` writes as
  `"Infinity"` and `"-Infinity"`, and `NaN`. Whether they can reach `z.number()` depends on
  the tRPC transformer and the zod version. `server/_core/trpc.ts`, where the transformer is
  set, is not part of this model.
- Decimal.NumberText: `-0` is not distinct from `0`. It prints as `0`, as `String(-0)` does,
  and reads back as `0`.
- Decimal.ParseNumber: reads only the layouts Number::toString writes, with an optional `-`.
  It is the inverse used to state the round trip, not a model of `Number(text)`.
- BlogPage.SortNewestFirst: assumes every `publishedAt` is a valid date. An invalid date makes
  the comparator return `NaN`, and the order is then left to the engine.
- Rendering, React state and navigation are left out: the pages' JSX, the Apply page that
  reads the link, the admin dashboard and the client-side login.
- Seed and diagnostic scripts are left out.
