# SchoolNet feed ledger, modelled in Dafny

SchoolNet is a small Flask social network for a school. Its feed is a JSON array of post
records in `feeds.json`. The process also keeps a global `posts` list, loaded from that file
once at import time. The model covers:

- the two copies of the ledger;
- the four request handlers that change them;
- the pure helpers those handlers use.

Modules:

- `Wrappers` (`wrappers.dfy`): `Option`, for form fields and dictionary keys that may be absent.
- `Text` (`text.dfy`): `str.strip()`, ASCII `lower()`/`upper()`, and the substring test `w in s`.
  The main lemma, `StripPadded`, says that `strip` is fixed by its shape.
- `Moderation` (`moderation.dfy`): the verdict check of `moderate_content`. The classifier's
  reply is an input: `NoApiKey`, `CallFailed`, or `Answered(text)`.
- `Attachments` (`attachments.dfy`): the image-extension allow-list.
- `Fallback` (`fallback.dfy`): `get_fallback_response`, written twice. `FallbackResponse`
  copies the handler's chain of tests. `FirstMatch` is a table-driven reference, and a lemma
  proves the two equal.
- `Ledger` (`ledger.dfy`): the post record and the pure list edits (unpin all, filter by id),
  with their lemmas.
- `Feed` (`feed.dfy`): class `FeedStore`. Its field `file` is the state of `feeds.json`, `mem`
  is the global `posts` list, and `blobs` holds the names saved in the upload folder.
  - `Load` is the import-time load. A missing or unreadable file gives an empty `mem`.
  - `AddAnnouncement` and `CreatePost` (the POST branch of `home`) re-read and rewrite `file`.
    They never touch `mem`.
  - `Upload` and `DeletePost` edit `mem` and then dump it over `file`.
  - `HomePostLostOnUpload` is a client scenario. A post created through `home` reaches only
    the file, and the next successful `upload` overwrites the file with `mem`, so the post is lost.

These become parameters:

- the caller's identity and role;
- the timestamp-derived ids and stored filenames;
- the classifier's reply;
- whether the file write succeeds.

## Model

| member | source | states |
|---|---|---|
| `Text.StripPadded` | app.py:194 | `strip` returns exactly the trimmed word, whatever white space surrounds it (`strip` is determined by its shape) |
| `Text.LStripPadded` | app.py:194 | leading white space in front of a word that does not start with white space is exactly what is dropped |
| `Text.RStripPadded` | app.py:194 | trailing white space after a word that does not end with white space is exactly what is dropped |
| `Text.LStripShape` | app.py:194 | `lstrip` keeps a suffix of the input and drops only white space |
| `Text.RStripShape` | app.py:194 | `rstrip` keeps a prefix of the input and drops only white space |
| `Text.LStrip` | app.py:194 | the result is no longer than the input and does not start with white space (`LStripShape` adds that it is a suffix preceded only by white space) |
| `Text.RStrip` | app.py:194 | the result is no longer than the input and does not end with white space (`RStripShape` adds that it is a prefix followed only by white space) |
| `Text.Strip` | app.py:486-488 | the stripped text has no white space at either end, is no longer than the input, and is empty iff the input is all white space |
| `Text.StripIdempotent` | app.py:492 | stripping already-stripped text changes nothing |
| `Text.ToLower` | app.py:711 | lower-casing keeps the length, leaves no `A`-`Z` behind and keeps every other character; `ToLowerIdempotent` and `FallbackIgnoresCase` state what it is for |
| `Text.ToUpper` | app.py:112 | upper-casing keeps the length, leaves no `a`-`z` behind and keeps every other character; `FlaggedPadded` and `FlaggedShape` state the verdict test built on it |
| `Text.Contains` | app.py:714 | Python's `w in s`: a hit needs `w` to fit in `s`, and the empty word is in every string; `ContainsIff` gives the full meaning; `HiInsideWordGreets` and `MathBeforeHelp` use it on literals |
| `Text.ContainsFromIff` | app.py:714 | the scan from index `i` succeeds exactly when `w` occurs at some index `k >= i` |
| `Text.ContainsIff` | app.py:714 | `Contains(s, w)` holds exactly when `w` occurs at some index of `s`, as Python's `w in s` |
| `Text.ToLowerIdempotent` | app.py:711 | lower-casing twice equals lower-casing once |
| `Moderation.IsFlagged` | app.py:112-114 | only an answered reply at least as long as `INAPPROPRIATE` can flag; `FailOpen`, `FlaggedPadded` and `FlaggedShape` characterise it in both directions |
| `Moderation.FailOpen` | app.py:81-119 | a missing API key or a failed call never flags content |
| `Moderation.FlaggedPadded` | app.py:112-114 | `INAPPROPRIATE` in any casing, surrounded by any white space, is flagged |
| `Moderation.FlaggedShape` | app.py:112-114 | conversely, a flagged reply is white space, then the 13-letter token in some casing, then white space |
| `Moderation.NearMissesNotFlagged` | app.py:114 | `APPROPRIATE` and `INAPPROPRIATE.` are not flagged (exact comparison, not substring) |
| `Moderation.PaddedLowerCaseFlagged` | app.py:112-114 | `" inappropriate\n"` is flagged |
| `Attachments.AfterLastDot` | app.py:501 | the result contains no `'.'`, is preceded by a `'.'` in the name, and is the tail of the name |
| `Attachments.Extension` | app.py:501 | the extension never contains `'.'`, and is shorter than the name or empty; `ExtensionOfSplit` and `NoDotRejected` give its value |
| `Attachments.IsAllowedImage` | app.py:500-503 | an accepted name contains a `'.'` and has an extension of at least three letters; `AllowedIgnoresCase` and the example lemmas below fix which names pass |
| `Attachments.AfterLastDotOfSplit` | app.py:501 | for `stem + "." + ext` with no `'.'` in `ext`, `rsplit('.', 1)[1]` is exactly `ext` |
| `Attachments.ExtensionOfSplit` | app.py:500-503 | the extension of `stem + "." + ext` is `ext` lower-cased |
| `Attachments.NoDotRejected` | app.py:501-503 | a name without `'.'` has the empty extension and is rejected |
| `Attachments.AfterLastDotLower` | app.py:501 | lower-casing the name lower-cases the text after its last dot |
| `Attachments.AllowedIgnoresCase` | app.py:500-503 | acceptance does not depend on the casing of the name |
| `Attachments.UpperCaseAccepted` | app.py:351-354 | `X.JPG` is accepted |
| `Attachments.DoubleExtensionRejected` | app.py:500-503 | `a.tar.gz` is rejected: only the last extension counts |
| `Attachments.TrailingDotRejected` | app.py:500-503 | `a.` is rejected: its extension is empty |
| `Attachments.NonImagesRejected` | app.py:500-503 | `noext` and `setup.exe` are rejected |
| `Fallback.FallbackResponse` | app.py:709-737 | the reply is one of the eight fixed answers; `FallbackIsFirstMatch` ties the chain of tests to the `FirstMatch` table lookup |
| `Fallback.FirstMatchIs` | app.py:709-735 | topic `k` answers when one of its keywords occurs and no earlier topic's does |
| `Fallback.FirstMatchNone` | app.py:736-737 | when no keyword of any topic occurs, the default reply is given |
| `Fallback.GreetingWords` | app.py:733 | the greeting test is the keyword search over `hello` and `hi` |
| `Fallback.FallbackIsFirstMatch` | app.py:709-737 | the handler's chain of tests equals the first-match lookup over the ordered topic table (math, science, study, English, history, help, greeting) on the lower-cased message |
| `Fallback.FallbackIgnoresCase` | app.py:711 | the reply does not depend on the casing of the message |
| `Fallback.HiInsideWordGreets` | app.py:733-734 | `this` gets the greeting reply, because `hi` matches inside a word |
| `Fallback.MathBeforeHelp` | app.py:714-715 | `MATH help` gets the mathematics reply: earlier topics win |
| `Ledger.Key` | app.py:623 | no contract: `str(post.get('id', ''))` for string ids; `RemoveById` and its lemmas state what filtering by it does |
| `Ledger.Announcement` | app.py:210-217 | the announcement record is pinned and keyed by the id it is given; `AnnouncementIsOnlyPinned` says it is the only pinned entry after `add_announcement` |
| `Ledger.Unpinned` | app.py:206-207 | same length and order; each entry has `pinned` false and every other field unchanged |
| `Ledger.AnnouncementIsOnlyPinned` | app.py:205-219 | after the unpin and the prepend, an entry is pinned iff it is at index 0 |
| `Ledger.UnpinnedIdempotent` | app.py:206-207 | unpinning twice equals unpinning once, so repeated announcements leave only the newest pinned |
| `Ledger.RemoveById` | app.py:623 | an entry survives iff it was in the list and its `str(id)` differs from the requested id |
| `Ledger.RemoveByIdLength` | app.py:623 | exactly the entries with the requested id are dropped (length drops by their count) |
| `Ledger.RemoveByIdAppend` | app.py:623 | filtering distributes over concatenation, so the survivors keep their relative order |
| `Ledger.RemoveByIdAbsent` | app.py:623 | an unknown id leaves the list unchanged |
| `Ledger.RemoveByIdIdempotent` | app.py:623 | repeating a delete is a no-op |
| `Ledger.RemoveByIdCommutes` | app.py:623 | deleting two ids in either order gives the same list |
| `Ledger.DeleteUndoesPrepend` | app.py:623 | deleting the id of a freshly prepended entry whose id is new restores the previous list |
| `Feed.MayAnnounce` | app.py:190 | no contract: the role test (`teacher` or `admin`); `AddAnnouncement` states that any other role gets `Forbidden` and changes nothing |
| `Feed.HomePost` | app.py:249-254 | the record the POST branch of `home` creates is unpinned and keyed by its id; `CreatePost` states where it goes |
| `Feed.UploadPost` | app.py:511-518 | the record `upload` creates is unpinned and keyed by its id; `Upload` states where it goes |
| `Feed.ScreenedText` | app.py:492 | the screened text has no white space at either end and is at most the two stripped fields plus one space long; `ScreenedTextEmpty` says when it is empty |
| `Feed.UploadOutcome` | app.py:491-528 | the outcome is one of rejected, unsupported media, done or write failed, and never a rejection without a classifier answer; `UploadGuards` and `EmptyTextNeverRejected` give each case |
| `Feed.ScreenedTextEmpty` | app.py:492-493 | the screened text `strip(title + ' ' + description)` is empty iff both stripped fields are empty |
| `Feed.EmptyTextNeverRejected` | app.py:492-495 | with a blank title and a blank description (empty after `strip`), moderation is skipped and the request is never rejected, whatever the reply |
| `Feed.UploadGuards` | app.py:491-505 | rejection happens iff some text is present and flagged; unsupported media only for a non-empty name with a bad extension, and such a name is always refused (rejected or unsupported media); with no classifier answer and an acceptable attachment the request always gets to the write |
| `Feed.UnpinAll` | app.py:206-207 | the in-place loop yields `Unpinned` of its input |
| `Feed.FeedStore.Load` | app.py:311-318 | `mem` is the file's entries, or empty when the file is missing or unreadable; the file is untouched |
| `Feed.FeedStore.AddAnnouncement` | app.py:188-225 | non-teacher/admin, blank content, an unreadable file or a failed write leave the file unchanged; otherwise the file is the pinned announcement (`type` `announcement`, `filename` `''`, stripped content, caller's email) followed by every old entry in order, unpinned, and exactly one entry (index 0) is pinned; `mem` is never changed |
| `Feed.FeedStore.CreatePost` | app.py:228-267 | without a session or with blank content nothing changes; otherwise the image (if any) is saved whatever its extension, and on a readable file and successful write the file is the new post (stripped content, image name or `''`, caller's email) followed by the old entries in order; `mem` is never changed |
| `Feed.FeedStore.Upload` | app.py:485-528 | the outcome is `UploadOutcome`; on rejection or a bad extension nothing changes; otherwise the post is at index 0 of `mem` (even when the write then fails) and the file becomes `mem` on a successful write, discarding file-only entries |
| `Feed.FeedStore.DeletePost` | app.py:615-637 | non-admins change nothing; otherwise `mem` becomes `RemoveById` of the old `mem` (even if the write fails) and the file becomes `mem` on a successful write |
| `Feed.NonImageUploadChangesNothing` | app.py:498-505 | an `upload` of `setup.exe` is refused (by moderation or by the extension test), and `mem`, the file and the upload folder are left as `Load` made them |
| `Feed.HomePostLostOnUpload` | app.py:257-264 | starting from no file, a post made through `home` followed by a successful upload leaves a file holding only the uploaded post: the `home` post is lost because `upload` dumps `mem`, which never saw it (app.py:519-522) |

## Left out

- Flask routing, templates, `flash`/`redirect` and file serving (`send_from_directory`) are
  web plumbing. A handler's flash message or error page is the `Outcome` value.
- Sessions and password hashing (flask_login, werkzeug) are left out. The caller is a plain
  `Caller` value. `CreatePost` takes an `Option<Caller>` for the `is_authenticated` test. The
  other handlers sit behind `@login_required` and always receive a caller.
- The SQLAlchemy tables are left out: users, events and comments. Also left out are signup
  uniqueness, author enrichment by email on read, and the comment cascade in `delete_post`.
  These are database calls.
- The OpenRouter HTTP calls are network I/O: the reply, or its failure, is the `Reply`
  parameter. `get_ai_response` itself is left out. Only its fallback responder is modelled.
- JSON serialisation is left out: the file is a `FeedFile` value, either missing, unreadable
  (content that `json.load` rejects) or an array of post objects. Valid JSON of any other shape
  is also modelled as `Unreadable`, and `Load` turns it into an empty `mem`. The source keeps
  such a value as it is, so it behaves differently in the cases below. The list follows
  each kind of value through the start-up load and the four handlers that change the ledger;
  a non-array value in the file makes `home` and `add_announcement` fail before writing, which
  agrees with their `ReadFailed`. The read-only feed display is not covered.
  - A file holding an array with a non-object element, such as `[1]`: the POST branch of
    `home` inserts in front of it and writes it back (app.py:257-264), so it succeeds.
    `CreatePost` returns `ReadFailed` instead. `add_announcement` raises an uncaught error at
    `p['pinned']` (app.py:206-207) before writing, which agrees with `AddAnnouncement`
    returning `ReadFailed` with the file unchanged.
  - The same `[1]` (or `[{...}, 1]`) at start-up: the source loads it into `posts`
    (app.py:314), and `upload` writes `[post, 1]` (app.py:519-522), while `Upload` writes
    `[post]`. `delete_post` then fails in the comprehension (`1` has no `get`); the `except`
    at app.py:634-635 catches it and nothing is written, while `DeletePost` writes `[]`.
  - Any non-array value at start-up (`{}`, `""`, `null`, a number, a boolean): `upload` calls
    `posts.insert` at app.py:519, outside the `try` at app.py:520, so the request fails with a
    server error. Nothing is written, but the attachment was already saved (app.py:509).
    `Upload` returns `Done` and writes `[post]`.
  - `{}` or `""` at start-up: the comprehension in `delete_post` (app.py:623) yields `[]` and
    the write succeeds, as `DeletePost` does.
  - A non-empty object or string, `null`, a number or a boolean at start-up: in `delete_post`
    the comprehension fails (no `get` on a key or character, or the value is not iterable).
    The `except` at app.py:634-635 catches the error and nothing is written, while `DeletePost`
    writes `[]`.
- Text encodings are left out. `home` and `add_announcement` read the file with the
  platform's default encoding (app.py:202, 259), while the start-up load reads UTF-8
  (app.py:313) and `upload` writes UTF-8 with `ensure_ascii=False` (app.py:521-522). On a
  locale that is not UTF-8 the same file can be readable in one handler and unreadable in
  another; the model has a single readability per `FeedFile` value.
- Entry fields read back from the file are modelled as strings. A non-string `id` is
  represented by its `str()` text, and a missing `description`, `filename` or `author` cannot
  be represented.
- `datetime` formatting, `secure_filename`, `os.path.splitext` and the attachment save are
  library calls. Generated ids and stored names are parameters. The save is recorded only as
  the name added to `blobs`.
- Write failures take a `writeOk` flag. A failed write is modelled as leaving the file as it
  was: the model assumes `open(..., 'w')` fails before truncating. A crash in the middle of a
  write is not modelled.
- Upload-folder creation, the backup-rename loop and the start-up `.env` printing are
  import-time filesystem and console I/O.
- `upload_profile_picture`, `setup_profile`, `login`, the comment, event, chat and admin-listing
  routes are outside the feed ledger. Only their shared extension rule is modelled.
- Concurrency is left out. Each handler runs to completion, so the lost update between
  concurrent requests is not represented. The lost update between the two copies is
  represented.
- `Text.ToLower`, `Text.ToUpper`: only ASCII letters change case. Python's full Unicode case
  mapping is not modelled. It can turn some non-ASCII letters into ASCII ones: `'ı'.upper()`
  is `'I'`, and the Kelvin sign lower-cases to `k`.
