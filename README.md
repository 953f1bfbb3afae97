# LAN file-sharing server: verified model of its core

The repository is a small LAN file-sharing server with two parts:

- `generate_index.py` builds a static `index.html` for a directory. It
  publishes every regular file except hidden and system files. Each file
  gets a card with an icon and category, derived from its lower-cased
  extension, and an upper-cased extension label. Above the cards is a
  stats bar with the total, video and code counts.
- `auth.py` is a Flask service. It keeps a user table (`users.json`), a
  per-client session slot and an access log (`access_log.json`). The log
  is newest entry first and capped at 1000 entries. The handlers are
  `/login`, `/logout`, `/check_auth` and the admin-only `/access_logs`.

The Dafny project models both parts:

- `wrappers.dfy`, module `Wrappers`: `Option` and `Min`.
- `pytext.dfy`, module `PyText`: the Python primitives the listing relies on.
  - `os.path.splitext` in its POSIX form, built on `str.rfind`;
  - `str.lower` and `str.upper`;
  - `str.replace(c, '')`.
- `listing.dfy`, module `Listing`:
  - the file filter and blocklist;
  - `get_file_icon`;
  - the `file_types` counting loop, a method with a loop invariant;
  - the two stat counters and the card label;
  - the per-file card loop, a method;
  - the whole of `generate_index` as a method over a directory listing. The listing is given as (name, is-regular-file) pairs.
- `auth.dfy`, module `Auth`: the service as the class `AuthService` with fields `users`, `session` and `log`, and one method per handler.
  - Loading a JSON file is reading a field, and saving one is assigning it.
  - The clock and the client address are an opaque `RequestContext` passed to each handler.
  - Submitted form fields are `Option<string>`, because `request.form.get` may yield nothing.

## Model

| member | source | states |
|---|---|---|
| `Auth.MakeEntry` | auth.py:34-41 | an entry carries the given user, action and file name and the request's time, time string and address |
| `Auth.CredentialsMatch` | auth.py:76 | the login test: the submitted name is a key of the table and the stored password equals the submitted one (a missing field is `None`, which equals a stored null) |
| `Auth.NullPasswordAdmitsMissingField` | auth.py:70-77 | a user stored with a null password is admitted by a request without a password field |
| `Auth.IsAdmin` | auth.py:121-128 | the `/access_logs` gate: a session user that is a key of the table with role `"admin"` |
| `Auth.Take` | auth.py:131 | `s[:n]` has `min(n, len(s))` elements and is a prefix of `s` |
| `Auth.Capped` | auth.py:47-48 | truncation keeps `min(len, 1000)` entries, and they are a prefix of the input (only the oldest are dropped) |
| `Auth.Record` | auth.py:43-48 | after one `log_access` the new entry is at index 0, the rest is the old log in order, the length is `min(old + 1, 1000)`, and the result is a prefix of `[entry] + old log` |
| `Auth.RecentPage` | auth.py:129-131 | the admin page has `min(50, len(log))` entries, equal position by position to the head of the log |
| `Auth.Replay` | auth.py:31-50 | the log after several `log_access` calls, oldest call first: the last call's entry is at index 0 and the log is within the cap |
| `Auth.NewestFirst` | auth.py:44 | the history with the last call first: position `i` holds the entry of the `i`-th most recent call |
| `Auth.CapAbsorbs` | auth.py:44-48 | capping before an insertion and again after it is the same as capping once |
| `Auth.ReplayIsCappedHistory` | auth.py:31-50 | any run of `log_access` calls on a log within the cap yields the newest 1000 entries of the whole history, newest first, of length `min(calls + old, 1000)` |
| `Auth.AuthService.LogAccess` | auth.py:31-50 | the new log is `Record(old log, entry)`, with the entry built from the arguments and the request context; the 1000 cap holds afterwards |
| `Auth.AuthService.Login` | auth.py:64-86 | succeeds iff the name is a key of the table and the stored password equals the submitted one; on success the session holds the name and a `login_success` entry is logged; on failure the session is unchanged and one `login_failed` entry with the submitted name is logged; the table never changes; the messages are the source's |
| `Auth.AuthService.Logout` | auth.py:88-100 | the session is empty afterwards; a `logout` entry for the previous user is prepended iff someone was logged in, otherwise the log is unchanged; the reply always succeeds |
| `Auth.AuthService.CheckAuth` | auth.py:102-112 | authenticated iff the session holds a name, and then it reports that name; changes nothing (no `modifies`) |
| `Auth.AuthService.GetAccessLogs` | auth.py:114-135 | returns a page iff the session user is in the table with role `"admin"`, and the page is exactly `log[:min(50, len)]`; otherwise "未登录" without a session and "权限不足" with one; changes nothing |
| `Auth.LoginLogoutRoundTrip` | auth.py:64-100 | logging in with the stored password and then logging out leaves the session empty, and the log is the old one with a `login_success` and then a `logout` entry recorded (capped as always); when the log has room for two entries, those two sit above the whole old log |
| `PyText.RFind` | generate_index.py:70 | the index of the last occurrence, or -1 when there is none |
| `PyText.SplitExt` | generate_index.py:70 | `root + ext == path`; `ext` is empty or one dot followed by no dot and no `/`; `ext` is non-empty iff the last dot follows the last `/` and a non-dot precedes it in the last component |
| `PyText.Ext` | generate_index.py:29 | the extension `splitext` gives: a suffix of the name, empty or one leading dot followed by no dot |
| `PyText.Lower` | generate_index.py:71 | `str.lower`, keeping the length |
| `PyText.Upper` | generate_index.py:529 | `str.upper`, keeping the length |
| `PyText.LowerPointwise` | generate_index.py:71 | `lower` maps every character on its own (ASCII letters shifted) and keeps the length |
| `PyText.UpperPointwise` | generate_index.py:529 | `upper` maps every character on its own (ASCII letters shifted) and keeps the length |
| `PyText.Without` | generate_index.py:529 | `replace(c, '')` leaves no `c`, keeps the other characters as a subsequence in their order, is shorter by exactly the number of `c`s (so it is exactly the input with the `c`s deleted), and is the identity when `c` is absent |
| `PyText.SplitExtLower` | generate_index.py:29 | splitting a lower-cased path is splitting the path and lower-casing both parts |
| `PyText.ExtCaseInsensitive` | generate_index.py:29 | names equal up to ASCII case have the same lower-cased extension |
| `Listing.ListFiles` | generate_index.py:61-65 | a name is listed iff it is a regular file of the directory, does not start with `.`, is not `index.html` and is not on the blocklist; never more files than entries |
| `Listing.Listable` | generate_index.py:63-65 | the name filter: not dot-prefixed, not `index.html`, not on the blocklist |
| `Listing.ListingIsSubsequence` | generate_index.py:61-65 | the listed files keep directory order: a subsequence of the entry names |
| `Listing.Classify` | generate_index.py:30-41 | the elif chain on a lower-cased extension; its meaning is stated by `Listing.ClassifyExact` |
| `Listing.FileIcon` | generate_index.py:27-41 | `get_file_icon`: the icon class and category name of the category of the lower-cased extension; its meaning is stated by `Listing.FileIconExact` |
| `Listing.ClassifyExact` | generate_index.py:30-41 | the five extension lists are disjoint, so each category holds exactly when the extension is on its list, and `Other` exactly when it is on none |
| `Listing.FileIconExact` | generate_index.py:27-41 | `get_file_icon` returns one of the six pairs; `('fas fa-file', '其他文件')` iff the lower-cased extension is on no list; the video and code pairs iff it is on their list |
| `Listing.IconIgnoresCase` | generate_index.py:29 | names differing only in ASCII case get the same icon and category |
| `Listing.CountIn` | generate_index.py:491-495 | a stat counter is at most the number of files |
| `Listing.VideoCount` | generate_index.py:491 | the number of files with a video extension, at most the number of files |
| `Listing.CodeCount` | generate_index.py:495 | the number of files with a code extension, at most the number of files |
| `Listing.StatCountersDisjoint` | generate_index.py:487-495 | video and code counters count disjoint files, so their sum is at most `len(files)` |
| `Listing.OccurrencesPositive` | generate_index.py:68-72 | a per-extension count is positive iff some file has that lower-cased extension |
| `Listing.TallyStep` | generate_index.py:69-72 | one loop iteration turns an exact tally of the files so far into one of the files including the next |
| `Listing.TallyOf` | generate_index.py:68-72 | the dictionary after the loop has visited the given files; its meaning is stated by `Listing.TallyOfExact` |
| `Listing.TallyOfExact` | generate_index.py:68-72 | the dictionary the loop builds counts, for each extension, exactly the files carrying it, and has no other key |
| `Listing.TallyTotal` | generate_index.py:68-72 | the counts of an exact tally sum to the number of files |
| `Listing.CountFileTypes` | generate_index.py:68-72 | `file_types` has exactly the lower-cased extensions of the files as keys; each value is the number of files with that extension; the values sum to `len(files)` |
| `Listing.ExtLabel` | generate_index.py:529 | `file_ext`: never empty and never contains a dot; its exact value is stated by `Listing.ExtLabelExact` |
| `Listing.ExtLabelExact` | generate_index.py:529 | the label has no dot; it is "文件" when the extension is empty or a bare dot, and otherwise the upper-cased extension without its dot |
| `Listing.DotlessUpper` | generate_index.py:529 | upper-casing an extension and deleting its dots gives the upper-cased text after the leading dot |
| `Listing.CardFor` | generate_index.py:526-529 | a card carries the file's own name, next to its icon, category and label |
| `Listing.MapSeq` | generate_index.py:525 | one result per element, in order |
| `Listing.RenderCards` | generate_index.py:525-548 | exactly one card per listed file, in listing order, the card of that file |
| `Listing.CardsNameFiles` | generate_index.py:525-548 | every card names one of the files it was rendered from |
| `Listing.GenerateIndex` | generate_index.py:43-555 | the total and the footer's shared count both equal the number of listed files; the cards are exactly one per listed file, in order; the video and code counters are the stat sums; every card names a published file; video + code ≤ total; the file-type tally sums to the total |

## Left out

- `get_local_ip` (generate_index.py:6-16) is socket I/O with a fallback address and has no logic to state.
- `get_file_size` (generate_index.py:18-25) uses floating-point division and `%.1f` formatting. Cards therefore carry no size text.
- The HTML, CSS and browser JavaScript text of the page is presentation. The JavaScript runs in the browser, so the model keeps only the values the page shows.
- Writing `index.html` and the console output (generate_index.py:759-765) are not modelled.
- The JSON file reads and writes (auth.py:19-29, 52-62) are modelled as reading and assigning the fields of `AuthService`. A missing file is the empty table or log given to the constructor.
- A null password or role in `users.json` is modelled as `None`. So, as in the source, a user stored with a null password is logged in by a request that sends no password field (auth.py:71, 76).
- Some malformed `users.json` data is not modelled:
  - a record without a `password` key, on which the source raises at auth.py:76;
  - a record that is not an object, on which the source raises at auth.py:76 and auth.py:128;
  - a password or role that is neither a string nor null, which never equals a submitted field or `"admin"`.
- Flask routing, the OPTIONS preflight replies and the CORS header helpers (auth.py:137-150) are framework plumbing.
- Cookie signing, session expiry and the secret key belong to Flask.
- One client's session slot is modelled. Different clients have independent slots.
- Concurrent requests, and the lost updates they can cause to the JSON files, are outside this sequential model.
- `time.time()`, `time.strftime` and `request.remote_addr` are opaque fields of `RequestContext`.
- A `file_access` action and a `/log_file_access` endpoint are called from the page's script, but `auth.py` defines neither, so they are not modelled. `auth.py` never logs anything except login, login failure and logout.
- Logging only on logout when someone is logged in follows the code (auth.py:94-98). The same goes for never logging on `check_auth` or `/access_logs`.
- `PyText.Lower`: only ASCII letters change case, as stated by `PyText.LowerPointwise` below.
- `PyText.Upper`: only ASCII letters change case, as stated by `PyText.UpperPointwise` below.
- `PyText.LowerPointwise`: only ASCII letters change case. Python's `str.lower` also maps non-ASCII letters.
- `PyText.UpperPointwise`: only ASCII letters change case. Python's `str.upper` also maps non-ASCII letters and can lengthen a string (`'ß'` becomes `'SS'`).
- `os.path.isfile` (which follows symbolic links) is the `isFile` flag of each entry. The order of `os.listdir` is the order of the input sequence.
