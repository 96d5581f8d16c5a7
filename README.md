# Job-card backend, modelled in Dafny

This project models the core of a FastAPI backend used by field technicians.
A technician submits a job card: client details, arrival and departure times,
a drawn signature and three lists of photos. The backend stores the files,
gives the card a daily job number `DC-YYYYMMDD-NNN`, stores the row and
schedules a PDF render and an email. The other routes are:

- company administration;
- user, client and task (booking) management scoped to the caller's company;
- login and password reset;
- the layout arithmetic of the rendered PDF.

The model does what the source does, except in the two handlers listed under
"## Findings", which are modelled as corrected (see "## Left out"):

- **Tables** are one `Database` class (`models.dfy`). Its `seq` fields are the
  tables and its per-table counters are the ids. The insert methods refuse what
  the schema's `nullable=False` and `unique=True` columns refuse.
- **The upload volume** is a `Disk` class holding a map from path to bytes.
- **Route handlers that change state** are methods with `modifies` clauses.
  Each states its whole new state and every error it returns.
- **Read-only routes** are functions whose contracts state exactly the rows
  they select, in which order.
- **Status codes** use `HttpError(status, detail)` for an `HTTPException` and
  `Crash(name)` for an exception that escapes as a server error.
- **Oracles become parameters.** The following are passed in by the caller:
  - base64 decoding
  - bcrypt hashing and verification
  - JWT encoding and decoding
  - the image library's "decodes / has alpha" outcome
  - `uuid4` names
  - the clock
  - the set of existing files

Times are whole seconds. Hours worked are integer hundredths of an hour.

Modules, one per file:

| module | models |
|---|---|
| `Common` | `Option`, `Result`, errors, splitting, joining, first-match and filter helpers |
| `Decimal` | `int()` and `str()` of integers, `:03d` padding |
| `Lex` | code-point string order and its laws |
| `Sorting` | a stable insertion sort on a total preorder (`ORDER BY`) |
| `SqlPattern` | `LIKE`/`ILIKE` with `%` and `_` |
| `Utf8` | UTF-8 encoding and decoding (RFC 3629 section 3) |
| `Claims` | the JWT payload and the claims the handlers read |
| `Models` | `backend/models.py`: rows, constraints, the tables, the volume |
| `JobNumber` | `backend/services/job_number.py` |
| `JobCards` | `backend/routes/jobcards.py` |
| `PdfService` | the pre-layout logic of `backend/services/pdf_service.py` |
| `Auth` | `backend/auth.py` |
| `AuthRoutes` | login and password reset of `backend/routes/auth.py` |
| `Admin` | `backend/routes/admin.py` |
| `Users` | `backend/routes/users.py` |
| `Clients` | `backend/routes/clients.py` |
| `Tasks` | `backend/routes/tasks.py` |

## Model

| member | source | states |
|---|---|---|
| `JobNumber.DateStampRoundTrip` | backend/services/job_number.py:12 | for a four-digit year the date stamp is eight digits that read back as year, month and day |
| `JobNumber.DayPrefixTagged` | backend/services/job_number.py:13 | the day prefix `DC-<date>-` has no `LIKE` wildcard and ends in `-` |
| `JobNumber.SameDay` | backend/services/job_number.py:15-17 | the query selects exactly the stored numbers that `LIKE 'prefix%'` matches |
| `JobNumber.SameDayMembers` | backend/services/job_number.py:17 | for a wildcard-free prefix, `LIKE 'prefix%'` selects exactly the numbers starting with the prefix |
| `JobNumber.AllocateAsWritten` | backend/services/job_number.py:15-28 | as written, the result starts with the prefix, and the only failure is `ValueError` from `int()` |
| `JobNumber.NextJobNumberAsWritten` | backend/services/job_number.py:6-28 | as written, the result starts with `DC-` plus the date stamp plus `-` |
| `JobNumber.MaxSeq` | backend/services/job_number.py:22-24 | the greatest sequence number among the day's numbers, and one of them carries it (0 if none) |
| `JobNumber.Allocate` | backend/services/job_number.py:22-28 | the corrected allocator's result starts with the prefix |
| `JobNumber.NextJobNumber` | backend/services/job_number.py:12-28 | the corrected number starts with today's prefix |
| `JobNumber.SequenceRoundTrip` | backend/services/job_number.py:23-28 | the text after the last `-` of a formatted number is the padded sequence, and `int()` of it is the sequence |
| `JobNumber.FormatShape` | backend/services/job_number.py:23 | after a tagged prefix, the digits are the last `-` piece |
| `JobNumber.SuffixWidth` | backend/services/job_number.py:28 | `:03d` gives exactly three digits up to 999 and more beyond |
| `JobNumber.SameDayNone` | backend/services/job_number.py:15-20 | with no matching number the query result is empty |
| `JobNumber.FirstOfTheDay` | backend/services/job_number.py:22-28 | with no number of the day, both allocators give `<prefix>001` |
| `JobNumber.AllocateFresh` | backend/services/job_number.py:22-28 | the corrected number is not stored yet, and its sequence exceeds that of every number of the day |
| `JobNumber.AsWrittenTakesGreatest` | backend/services/job_number.py:15-24 | as written, the result is one past `int()` of the last piece of the text-greatest number of the day, or `ValueError` |
| `JobNumber.MaxSeqMembers` | backend/services/job_number.py:15-20 | the greatest sequence depends only on which numbers are stored, not on table order |
| `JobNumber.OnlySameDayMatters` | backend/services/job_number.py:15-19 | numbers of other days have no effect on either allocator, and no company filter applies |
| `JobNumber.ThreeDigitMember` | backend/services/job_number.py:23 | a number of the day is the prefix followed by its digits, and its sequence is their value |
| `JobNumber.ThreeDigitOrder` | backend/services/job_number.py:18 | between three-digit numbers of the day, text order is numeric order |
| `JobNumber.ThreeDigitGreatest` | backend/services/job_number.py:18-23 | when every number of the day has three digits, the text-greatest one carries the greatest sequence |
| `JobNumber.ThreeDigitParse` | backend/services/job_number.py:23 | on such a day, `int()` of the text-greatest number's last piece is the greatest sequence |
| `JobNumber.AsWrittenFreshOnThreeDigitDays` | backend/services/job_number.py:15-28 | on such a day the code as written gives the corrected number, which is not yet stored |
| `JobNumber.Thousand` | backend/services/job_number.py:28 | `:03d` renders 1000 and 1001 with four digits |
| `JobNumber.SmallValues` | backend/services/job_number.py:23 | `"999"` and `"1000"` are digit strings with those values |
| `JobNumber.AsWrittenRepeatsAfter999` | backend/services/job_number.py:17-28 | with `-999` and `-1000` stored, the code as written gives `-1000` again |
| `JobNumber.MaxSeqAfter999` | backend/services/job_number.py:22-24 | the numerically greatest sequence of that table is 1000 |
| `JobNumber.IntendedAfter999` | backend/services/job_number.py:22-28 | the corrected allocator gives `-1001` for that table |
| `JobCards.ParseClock` | backend/routes/jobcards.py:104-105 | a time parses only if it has exactly two `:` fields and `int()` accepts both; otherwise `ValueError` |
| `JobCards.ClockRoundTrip` | backend/routes/jobcards.py:104-105 | `str(h) + ":" + str(m)` parses back to `(h, m)` |
| `JobCards.ColonFree` | backend/routes/jobcards.py:104 | text that `int()` accepts holds no `:` |
| `JobCards.ClockOfDigits` | backend/routes/jobcards.py:104-105 | two digit strings around a colon parse as their values |
| `JobCards.MinutesBetween` | backend/routes/jobcards.py:107-109 | the minute difference, with 1440 added when it is negative |
| `JobCards.Hundredths` | backend/routes/jobcards.py:111 | the result is the hundredth of an hour nearest to `m / 60` hours |
| `JobCards.NearestIsUnique` | backend/routes/jobcards.py:111 | that nearest hundredth is unique: `m / 60` is never half-way between two of them |
| `JobCards.CalculateHours` | backend/routes/jobcards.py:103-111 | a `ValueError` exactly when a time does not parse; otherwise the rounded hours of the wrapped difference |
| `JobCards.ClockOfChars` | backend/routes/jobcards.py:104-105 | `hh:mm` of four digits parses as its two two-digit numbers |
| `JobCards.TwoDigitValue` | backend/routes/jobcards.py:104 | the value of a two-digit string |
| `JobCards.HoursOfEqualTimes` | backend/routes/jobcards.py:107-111 | equal times give 0 hours, not 24 |
| `JobCards.HoursPastMidnight` | backend/routes/jobcards.py:107-111 | 23:30 to 00:15 gives 0.75 hours |
| `JobCards.HoursBeyondADay` | backend/routes/jobcards.py:104-111 | fields are not range-checked: 00:00 to 30:00 gives 30 hours |
| `JobCards.HoursBelowZero` | backend/routes/jobcards.py:107-111 | 48:00 to 00:00 gives -24 hours |
| `JobCards.HoursWithinADay` | backend/routes/jobcards.py:103-111 | for clock times of one day the result lies in [0, 24) hours |
| `JobCards.StoredUnderPublicPath` | backend/routes/jobcards.py:63-77 | a file's volume path is `/data` followed by the public path the handler returns |
| `JobCards.Base64Part` | backend/routes/jobcards.py:84-87 | the part after the first comma is a tail of the URL, and the whole URL when it has no comma |
| `JobCards.Base64PartOfDataUrl` | backend/routes/jobcards.py:84-85 | a header without a comma is dropped, and the payload is kept whole, commas included |
| `JobCards.SaveBase64Image` | backend/routes/jobcards.py:80-100 | an empty or missing URL gives `None` and writes nothing; an undecodable payload raises and writes nothing; otherwise exactly one `.png` file is written and its public path returned |
| `JobCards.SplitExt` | backend/routes/jobcards.py:66 | a non-empty extension starts with a dot |
| `JobCards.SplitExtShape` | backend/routes/jobcards.py:66 | the extension is a proper tail of the name, holds exactly one dot (its first character) and no `/` |
| `JobCards.SplitExtExamples` | backend/routes/jobcards.py:66 | `photo.JPG` has `.JPG`, `.hidden`, `..` and `notes` have none, `scan.` has `.` |
| `JobCards.Compress` | backend/routes/jobcards.py:33-60 | an image is re-encoded; anything else keeps its bytes and extension |
| `JobCards.StoredExtension` | backend/routes/jobcards.py:41-68 | `.png` for an image with alpha, `.jpg` for another image, else the name's extension or `.bin` |
| `JobCards.SaveUploadFile` | backend/routes/jobcards.py:62-77 | one file is written under a fresh name, and its public path `/uploads/<sub>/<hex><ext>` is returned |
| `JobCards.PhotoPaths` | backend/routes/jobcards.py:154-161 | one path per upload |
| `JobCards.PhotoPathShape` | backend/routes/jobcards.py:70-77 | each photo path is `/uploads/<sub>/` followed by the fresh name and an extension starting with a dot |
| `JobCards.WriteFirstKeeps` | backend/routes/jobcards.py:73-74 | with distinct paths, every file written is still there at the end |
| `JobCards.JoinRelative` | backend/routes/jobcards.py:71 | `os.path.join` of a relative name appends it after one separator |
| `JobCards.DistinctNamesDistinctPaths` | backend/routes/jobcards.py:70-71 | different fresh names give different volume paths, whatever the extensions |
| `JobCards.PhotoFilesDistinct` | backend/routes/jobcards.py:70-71 | distinct fresh names give distinct files |
| `JobCards.SavePhotos` | backend/routes/jobcards.py:154-161 | the paths list holds one path per upload, in upload order, and the volume holds each upload's bytes written in that order |
| `JobCards.StoredPhotosKept` | backend/routes/jobcards.py:154-161 | after a category's loop, every upload's file holds that upload's bytes |
| `JobCards.NewCard` | backend/routes/jobcards.py:163-184 | the row has status `submitted`, the allocated number, the caller's company and id, the hours and the stored paths |
| `JobCards.CompanyById` | backend/routes/jobcards.py:190 | the company with that id, or `None` when there is none or the id is `NULL` |
| `JobCards.DeferredFor` | backend/routes/jobcards.py:192-197 | the background task gets the card id and the company's email and name, or `None` and `""` |
| `JobCards.Planned` | backend/routes/jobcards.py:150-161 | a signature path exactly when a signature was sent; one path per photo of each category |
| `JobCards.SaveAttachments` | backend/routes/jobcards.py:150-161 | an undecodable signature raises and writes nothing; otherwise the planned paths are returned and the volume is the old one with the signature, then the before, after and material photos written in that order |
| `JobCards.CreateJobCard` | backend/routes/jobcards.py:146-202 | claim errors, then the hours' `ValueError`, with no file written; then an undecodable signature raises `binascii.Error` with no file written; past that the volume holds every attachment, and a form that is not storable (no signature, contact number or materials, since those columns are non-null) gets `IntegrityError`; success exactly when the row is storable, then one row appended, the response and the deferred arguments |
| `JobCards.SubmissionNumberIsFresh` | backend/routes/jobcards.py:164 | the corrected job number is never one a stored card carries |
| `JobCards.PdfPathsAgree` | backend/routes/jobcards.py:264-267 | `JobCardPdfPath`, the path the task renders to, is `PdfDiskPath`, the path the admin download reads, unless the job number starts with `/` |
| `JobCards.ProcessJobCard` | backend/routes/jobcards.py:255-279 | an unknown card does nothing; otherwise the PDF comes first, an email only after a successful render and only to a non-empty address |
| `JobCards.GetJobCardPdf` | backend/routes/jobcards.py:285-316 | 404 "Job card not found" exactly when no card has that id and the caller's company; 404 "PDF missing" exactly when the first such card's file is absent; success exactly when it is present, with that file as `application/pdf` named after the job number |
| `JobCards.GetJobCardPdfTenantBlind` | backend/routes/jobcards.py:291-301 | other companies' cards do not change the answer |
| `Models.JobNumbers` | backend/models.py:57 | the job-number column, in table order |
| `Models.JobNumbersTaken` | backend/models.py:57 | a number is in that column exactly when a stored card carries it |
| `Models.Database.constructor` | backend/models.py:21-130 | empty tables satisfy every constraint |
| `Models.Database.InsertCompany` | backend/models.py:21-32 | the company gets the next id, and nothing else changes |
| `Models.Database.InsertUser` | backend/models.py:40 | `IntegrityError` exactly when the email is taken; otherwise one row with the next id |
| `Models.Database.InsertJobCard` | backend/models.py:57-83 | `IntegrityError` exactly when a non-null column is missing or the job number is taken |
| `Models.Database.InsertClient` | backend/models.py:115 | `IntegrityError` exactly when the company is `NULL` |
| `Models.Database.InsertTask` | backend/routes/tasks.py:54-56 | the task gets the next id, and nothing else changes |
| `Models.Disk.Write` | backend/routes/jobcards.py:73-74 | the file at that path now holds the data; other files are unchanged |
| `PdfService.Strip` | backend/services/pdf_service.py:30 | the result neither starts nor ends with a space |
| `PdfService.StripSurrounding` | backend/services/pdf_service.py:30 | stripping removes exactly the surrounding spaces |
| `PdfService.ReplaceChar` | backend/services/pdf_service.py:33 | each backslash becomes `/` and every other character stays |
| `PdfService.LStrip` | backend/services/pdf_service.py:34 | the leading `/` run is removed and nothing else |
| `PdfService.ResolvePath` | backend/services/pdf_service.py:33-34 | an entry with `:` is taken as it is; any other lies under the base |
| `PdfService.StripAll` | backend/services/pdf_service.py:30 | every piece is stripped, in order |
| `PdfService.RawPaths` | backend/services/pdf_service.py:27-30 | an empty field names nothing, a list is used as it is, a text is split on `,` |
| `PdfService.Kept` | backend/services/pdf_service.py:32-36 | at most one path per entry |
| `PdfService.NormalizePhotoPaths` | backend/services/pdf_service.py:24-38 | the loop returns exactly the kept resolved entries |
| `PdfService.KeepExisting` | backend/services/pdf_service.py:32-36 | the loop keeps, in entry order, the resolved path of each entry that exists |
| `PdfService.KeptMembers` | backend/services/pdf_service.py:32-36 | a path is returned exactly when some entry resolves to it and it exists |
| `PdfService.KeptAppend` | backend/services/pdf_service.py:32-36 | entry order is kept |
| `PdfService.KeptAll` | backend/services/pdf_service.py:32-36 | when every named file exists, one path is returned per entry |
| `PdfService.TextFieldPieces` | backend/services/pdf_service.py:30 | a comma-separated text names its pieces, stripped |
| `PdfService.DriveEntry` | backend/services/pdf_service.py:33-34 | `C:\p\a.jpg` becomes `C:/p/a.jpg` and is not put under the base |
| `PdfService.RelativeEntry` | backend/services/pdf_service.py:34 | a plain relative entry is `base/entry` |
| `PdfService.LeadingSlashIgnored` | backend/services/pdf_service.py:34 | a leading `/` of an entry without `:` has no effect |
| `PdfService.StoredPhotoResolves` | backend/services/pdf_service.py:34 | the public path of an uploaded photo resolves under `/data` to the file written for it |
| `PdfService.PerRow` | backend/services/pdf_service.py:58-61 | the number of thumbnails in a row: the first one that would cross the right edge starts a new row |
| `PdfService.DefaultRowHoldsThree` | backend/services/pdf_service.py:41-61 | with the default width of 500 a row holds three thumbnails |
| `PdfService.Loaded` | backend/services/pdf_service.py:49-64 | the drawn photos are those that open, in order |
| `PdfService.DrawPhotoGrid` | backend/services/pdf_service.py:41-66 | the k-th loaded thumbnail is at x = start + 130·(k mod per-row) and top y = start − 90·(k div per-row); a photo that fails is skipped without moving the cursor; the result is start − 90·(n div per-row) − 100 |
| `PdfService.FracText` | backend/services/pdf_service.py:153 | the one or two decimals of a printed hours value |
| `PdfService.FloatTextRoundTrip` | backend/services/pdf_service.py:153 | the printed hours read back as the stored hundredths |
| `PdfService.FloatText` | backend/services/pdf_service.py:153 | `str()` of the hours is non-empty and starts with `-` exactly for negative hours |
| `PdfService.UnsignedText` | backend/services/pdf_service.py:153 | the unsigned part starts with a digit |
| `PdfService.Shown` | backend/services/pdf_service.py:153 | empty exactly for a falsy value (`None`, `""`, `0.0`); a text prints as itself, hours print so that they read back |
| `PdfService.MetaOf` | backend/services/pdf_service.py:132-143 | ten fields, in print order |
| `PdfService.LayoutMeta` | backend/services/pdf_service.py:145-153 | two texts per field; even fields on the left, odd ones on the right; y drops 14 before each even field after the first; label at x, value at x + 110 |
| `Auth.HashPassword` | backend/auth.py:16-20 | `ValueError` exactly when the UTF-8 form exceeds 72 octets, checked before hashing |
| `Auth.PasswordLimitCountsBytes` | backend/auth.py:18 | 36 two-octet characters pass, 37 fail, 72 ASCII letters pass, 73 fail |
| `Auth.TokenPayload` | backend/auth.py:28-32 | the claims plus `exp` a number of minutes after now; the other claims are kept |
| `Auth.BearerToken` | backend/auth.py:58 | the token is the text after `Bearer ` up to the next space |
| `Auth.BearerRoundTrip` | backend/auth.py:58 | a header made from a space-free token gives that token back |
| `Auth.BearerTokenEmpty` | backend/auth.py:58 | nothing after `Bearer `, or a second space there, gives the empty token |
| `Auth.BearerTokenCut` | backend/auth.py:58 | a space after the token cuts off what follows: `Bearer a b` gives `a` |
| `Auth.GetCurrentUser` | backend/auth.py:49-67 | 401 "Not authenticated" exactly for a missing or non-`Bearer ` header; 401 "Invalid token" exactly when decoding fails; otherwise exactly the decoded payload |
| `Auth.BearerSchemeIsCaseSensitive` | backend/auth.py:50-56 | `Bearer <t>` is accepted; `bearer <t>`, an empty header and no header are not |
| `Auth.RequireAdmin` | backend/auth.py:39-48 | the payload unchanged for an admin; 403 for any other role or no role; authentication errors pass through |
| `Auth.NoRoleIsNotAdmin` | backend/auth.py:42 | a payload without `role` is not an admin |
| `Claims.Get` | backend/routes/admin.py:78 | `.get(key)` gives the claim when present and `None` otherwise |
| `Claims.IntClaim` | backend/routes/admin.py:83 | `payload[key]` raises `KeyError` when the claim is absent |
| `Claims.CompanyOf` | backend/routes/admin.py:83 | `current_user["company_id"]`: `KeyError` when absent, `None` for a `null` claim |
| `Claims.CallerIdAsWritten` | backend/routes/jobcards.py:147 | `current_user["id"]` raises `KeyError` when there is no `id` claim |
| `Claims.CallerId` | backend/routes/auth.py:63-64 | the caller's id read from the `user_id` claim that login issues |
| `AuthRoutes.FindActive` | backend/routes/auth.py:54-57 | the first user with that email who is active |
| `AuthRoutes.LoginClaims` | backend/routes/auth.py:63-67 | exactly the claims `user_id`, `role` and `company_id` |
| `AuthRoutes.Login` | backend/routes/auth.py:51-72 | 401 "Invalid credentials" unless an active user has the email and the password verifies; otherwise the token of that user's claims and its role |
| `AuthRoutes.InactiveCannotLogIn` | backend/routes/auth.py:54-61 | an inactive user cannot log in, whatever the password |
| `AuthRoutes.IssuedClaims` | backend/routes/auth.py:63-67 | the issued payload yields the caller's id, company and role, but `current_user["id"]` raises `KeyError` on it |
| `AuthRoutes.LoginTokenAuthenticates` | backend/routes/auth.py:63-72 | the login token, sent back as a bearer header, authenticates as its user |
| `AuthRoutes.IssueReset` | backend/routes/auth.py:89-91 | only that user's token and expiry change; the expiry is one hour after now |
| `AuthRoutes.ResetTarget` | backend/routes/auth.py:105-108 | the first user holding the token with an expiry strictly after now |
| `AuthRoutes.ClearedNeverRedeems` | backend/routes/auth.py:105-108 | a user with no stored token or a `NULL` expiry is matched by no token |
| `AuthRoutes.RedeemsBeforeExpiry` | backend/routes/auth.py:105-108 | a stored token matches exactly while the clock is strictly before its expiry |
| `AuthRoutes.ApplyReset` | backend/routes/auth.py:114-116 | only that user changes: the new hash, and both token fields cleared |
| `AuthRoutes.KeepsUserKeys` | backend/models.py:37-40 | rewriting users without touching ids and emails keeps the table's constraints |
| `AuthRoutes.ForgotPassword` | backend/routes/auth.py:80-97 | an unknown or inactive email changes nothing and sends nothing; otherwise the first active match gets the token and a mail is sent; nothing else changes |
| `AuthRoutes.ResetPassword` | backend/routes/auth.py:99-121 | 400 "Invalid or expired token" with nothing changed, or the target gets the new hash and loses its token |
| `AuthRoutes.IssuedTokenWindow` | backend/routes/auth.py:91-107 | an issued token redeems exactly before an hour has passed |
| `AuthRoutes.ReissueRevokes` | backend/routes/auth.py:89-91 | issuing a new token revokes the user's earlier one |
| `AuthRoutes.ResetIsSingleUse` | backend/routes/auth.py:105-116 | after a reset the token redeems for no one |
| `Admin.GetCompany` | backend/routes/admin.py:24-31 | the first company, or a new `New Company` when there is none; other tables unchanged |
| `Admin.GetCompanyTwice` | backend/routes/admin.py:24-31 | two calls return the same row, and at most one company is created |
| `Admin.Named` | backend/routes/admin.py:55 | the named parts of a path: no empty part and no `.` |
| `Admin.PathSuffix` | backend/routes/admin.py:55 | a suffix is a dot followed by dot-free text, a proper tail of the name |
| `Admin.PlainPathName` | backend/routes/admin.py:55 | a single part other than `.` is its own name |
| `Admin.NestedPathName` | backend/routes/admin.py:55 | under one directory, the name is the last part |
| `Admin.SuffixAt` | backend/routes/admin.py:55 | the suffix runs from the last dot of the name, unless that dot is first or last |
| `Admin.DottedSuffix` | backend/routes/admin.py:55 | a name whose last dot is inside it has that dot and what follows as suffix |
| `Admin.PathSuffixOfPlainName` | backend/routes/admin.py:55 | `stem.ext` has suffix `.ext` (`logo.png` has `.png`) |
| `Admin.PathSuffixOfNestedName` | backend/routes/admin.py:55 | the directory plays no part and only the last suffix counts (`dir/archive.tar.gz` has `.gz`) |
| `Admin.PathSuffixOfDotFile` | backend/routes/admin.py:55 | a dot-file such as `.bashrc` has no suffix |
| `Admin.PathSuffixOfTrailingDot` | backend/routes/admin.py:55 | a name ending in a dot has no suffix |
| `Admin.Overwrite` | backend/routes/admin.py:49-63 | name, address, email and phone are overwritten; the logo path changes only when a logo is given |
| `Admin.UpdateCompany` | backend/routes/admin.py:35-66 | the first company (created if none) is overwritten; a logo is written under a fresh name; other tables unchanged |
| `Admin.LogoFileName` | backend/routes/admin.py:55-56 | the fresh name followed by the upload's suffix, or `.png` when it has none |
| `Admin.LogoNamesDistinct` | backend/routes/admin.py:55-57 | logos stored under different fresh names never overwrite each other |
| `Admin.PdfLinkReadsBack` | backend/routes/admin.py:97 | the link holds the card's id |
| `Admin.NewestFirstIsPreorder` | backend/routes/admin.py:84 | newest-first is a total preorder |
| `Admin.CompanyCardsNewestFirst` | backend/routes/admin.py:81-86 | exactly the company's cards, each once, newest first |
| `Admin.Summary` | backend/routes/admin.py:89-98 | a card's list row, with its PDF link |
| `Admin.Summaries` | backend/routes/admin.py:88-100 | one row per card, in order |
| `Admin.ListJobCards` | backend/routes/admin.py:72-100 | 403 for a non-admin; otherwise the company's cards, newest first, each with link `/admin/jobcards/<id>/pdf` |
| `Admin.ListJobCardsExactlyTheCompany` | backend/routes/admin.py:81-100 | one row per card of the company; no row for any other card |
| `Admin.OrEmpty` | backend/routes/admin.py:140-142 | an absent or empty photo list reads as `[]`, any other is kept |
| `Admin.View` | backend/routes/admin.py:125-147 | every photo list is present, and the PDF link names the card |
| `Admin.FindCard` | backend/routes/admin.py:113-120 | the card with that id and company, or none exactly when there is no such card |
| `Admin.FindCardStep` | backend/routes/admin.py:113-120 | the lookup takes the first matching row |
| `Admin.FindCardTenantBlind` | backend/routes/admin.py:113-120 | other companies' cards do not change the lookup |
| `Admin.GetJobCard` | backend/routes/admin.py:104-147 | 404 "Jobcard not found" exactly for a missing card and for another company's card alike; success exactly otherwise, with the view of the first card with that id in the caller's company |
| `Admin.GetJobCardTenantBlind` | backend/routes/admin.py:113-123 | the answer is the same with other companies' cards removed |
| `Admin.CountUsers` | backend/routes/admin.py:163-165 | the number of users whose company matches |
| `Admin.CompaniesWithUserCount` | backend/routes/admin.py:153-181 | every company once, in order, with its user count, 0 included |
| `Admin.UpdateJobCardStatus` | backend/routes/admin.py:187-204 | 404 for an unknown id, checked first; 422 for a status outside the three, with nothing changed; success exactly for a known id and one of the three values, whatever the old status; then only that card's status changes, the id counters stay, and valid statuses stay valid |
| `Admin.AdminGetJobCardPdf` | backend/routes/admin.py:210-231 | 404 exactly for an unknown id; 404 "PDF missing" exactly when the first card with that id has no file; success exactly when it has one, with that file; no tenant check |
| `Admin.PdfDiskPathsDistinct` | backend/routes/admin.py:222 | different job numbers name different PDF files |
| `Models.DefaultStatusIsStatus` | backend/models.py:83 | the default status `submitted` is one of the three that admin.py:198 accepts |
| `Users.ListUsers` | backend/routes/users.py:27-30 | every user, in table order, without password or reset fields |
| `Users.CreateUser` | backend/routes/users.py:40-66 | the checks in order (email 400, company 404, 72-octet `ValueError`, length 400); success exactly when all pass; then one row appended |
| `Users.CompanyZeroSkipsCheck` | backend/routes/users.py:46-49 | `None` and `0` skip the company check; any other id passes only when such a company exists |
| `Users.NewUser` | backend/routes/users.py:52-58 | the new row is active, has no reset token, and carries the email, role, company and the hash |
| `Users.ShortPasswordFitsBcrypt` | backend/routes/users.py:55-60 | a password under six characters is never over 72 octets |
| `Users.OverlongIsLong` | backend/routes/users.py:55-60 | a password over 72 octets has at least 19 characters |
| `Users.CreatedEmailIsTaken` | backend/routes/users.py:42-44 | after a creation that email is taken, so repeating the request gives 400 |
| `Clients.CreateClient` | backend/routes/clients.py:13-38 | the company comes from the caller; a caller without one gets `IntegrityError`; on success one row appended and its id returned |
| `Clients.NewClient` | backend/routes/clients.py:24-32 | the new row carries the caller's company, the name and the client code |
| `Clients.ByNameIsPreorder` | backend/routes/clients.py:54 | name order is a total preorder |
| `Clients.NameMatches` | backend/routes/clients.py:52 | exactly the clients whose name the pattern `ILIKE`-matches |
| `Clients.Selected` | backend/routes/clients.py:47-52 | the company's clients, narrowed by the search only when it is truthy |
| `Clients.ListClients` | backend/routes/clients.py:41-54 | exactly the selected clients, each once, ordered by name |
| `Clients.SearchIsSubstring` | backend/routes/clients.py:51-52 | a wildcard-free search keeps exactly the names containing it, ignoring ASCII case |
| `Clients.UnderscoreSearch` | backend/routes/clients.py:52 | `_` acts as a wildcard: searching `_` keeps every non-empty name |
| `Clients.FindClient` | backend/routes/clients.py:62-65 | the client with that id and company, or none exactly when there is no such client |
| `Clients.GetClient` | backend/routes/clients.py:56-70 | 404 exactly for a missing client and for another company's client alike; success exactly otherwise, with the first client with that id in the caller's company |
| `Clients.FindClientTenantBlind` | backend/routes/clients.py:62-65 | other companies' clients do not change the lookup |
| `Clients.GetClientTenantBlind` | backend/routes/clients.py:62-68 | the answer is the same with other companies' clients removed |
| `Tasks.CreateTask` | backend/routes/tasks.py:13-58 | claim errors first; 404 unless the client is the caller company's; then 400 unless end is after start; success exactly then, one task with status `open`, the caller's company and id |
| `Tasks.NewTask` | backend/routes/tasks.py:43-52 | the new row has status `open`, the caller's company and id, the client and the times |
| `Tasks.GetTasksForClient` | backend/routes/tasks.py:61-79 | exactly the client's tasks in the caller's company, each once, ascending start |
| `Tasks.CreatedTaskIsListed` | backend/routes/tasks.py:43-77 | a task just created is listed for its client |
| `Tasks.OtherCompanyNeverSees` | backend/routes/tasks.py:69-77 | a task of another company never changes a caller's listing |
| `Utf8.Encode` | backend/auth.py:18 | `password.encode("utf-8")` (RFC 3629 section 3): one to four octets per character, by code point |
| `Utf8.DecodeEncode` | backend/auth.py:18 | decoding the encoding gives the string back |
| `Utf8.LengthBounds` | backend/auth.py:18 | a string of n characters encodes to between n and 4n octets |
| `Utf8.LengthAppend` | backend/auth.py:18 | the octet count of a concatenation is the sum of the counts |
| `Utf8.LengthRepeat` | backend/auth.py:18 | n copies of one character take n times its width |
| `Utf8.DecodeEncodeChar` | backend/auth.py:18 | one encoded character decodes back, consuming exactly its width |

## Left out

- The image library, bcrypt, JWT, base64, `uuid4`, the clock and file existence are parameters of the operations, not computed. So are rendered bytes and sending mail.
- SQLAlchemy sessions and database collation: `ORDER BY name` uses code-point order, and ties keep table order (a stable sort).
- `ORDER BY job_number DESC` for the allocator is code-point order as well.
- `int()` is modelled on an optional sign followed by ASCII digits. Surrounding whitespace and `_` separators, which Python also accepts, are not modelled.
- `uuid4().hex` names are reduced to their length and a first hexadecimal digit, which is all the path reasoning uses.
- `hours_worked` is a float in the source; the model keeps integer hundredths of an hour. `PdfService.FloatText` assumes `str()` of the rounded float prints the short two-decimal form.
- `PdfService.Strip`: only ASCII whitespace is stripped, not the other Unicode spaces `str.strip()` removes.
- `pathlib` normalisation of `.`/`..` parts in photo paths is left out. Paths are joined as text.
- The photo-section loop of `generate_jobcard_pdf` and the rest of the canvas drawing (header, logo, description, materials, signature, footer) are drawing side effects and are not modelled.
- Background scheduling and concurrency: every call runs alone, so the read-then-insert race of the job numbers is not modelled.
- Email delivery and its exceptions (`backend/services/email_service.py` is not part of this model).
- The `JobCardItem` and `Admin` tables are used by no modelled route.
- The route handlers depend on the `get_current_user` of `backend/routes/auth.py`, which reads the token through FastAPI's `HTTPBearer`. That front end is left out: the handlers take the decoded payload as a parameter. `Auth.GetCurrentUser` models the header parser of `backend/auth.py` instead. `backend/routes/admin.py` imports that module's `require_admin`, but none of its routes depends on it. `HTTPBearer` differs from the modelled parser in these ways:
  - it matches the `Bearer` scheme case-insensitively;
  - it takes everything after the first space as the token, not the text up to the next space;
  - it refuses a missing or non-bearer header with its own status and detail, not 401 "Not authenticated".
- The `require_admin` of `backend/routes/auth.py` and `logout` are left out. No route depends on the former, and `logout` only clears a server session.
- `list_companies` in `backend/routes/users.py` returns the companies table as stored. It is left out because there is nothing in it to state.
- Pydantic applies a request's defaults (the `technician` role) before the handler runs, so `UserCreate` already holds them.
- Runtime breakage is modelled as the evidently intended logic and not reproduced:
  - the indentation error in the logo block of `pdf_service.py`
  - the missing imports in `backend/routes/auth.py`
  - the `Task` model missing from `backend/models.py`
  - the `TaskCreate` and `TaskOut` schemas that `backend/routes/tasks.py` imports and `backend/schemas.py` does not define
  - the routers `backend/main.py` does not mount
- Code after the `return` in `create_jobcard` is unreachable and is not modelled.
- `JobNumber.DateStampRoundTrip`: covered only for four-digit years, because longer years widen the stamp.
- `JobCards.CreateJobCard` reads the creator with the corrected `Claims.CallerId` (the `user_id` claim) and numbers the card with the corrected `JobNumber.NextJobNumber`. As written, `backend/routes/jobcards.py:147` reads `current_user["id"]`, which raises `KeyError` for every token login issues. As written, line 164 takes the text-order maximum, which repeats `-1000` once `-999` and `-1000` are stored. Both are Findings rows, and each as-written behaviour is modelled beside its correction.
- `Tasks.CreateTask` reads the creator with the corrected `Claims.CallerId`. As written, `backend/routes/tasks.py:20` reads `current_user["id"]` and raises `KeyError` for every token login issues.
- PDF page coordinates are floats in the source, for example the A4 `height - 40` and `right_x = width / 2 + 10`, about 307.64 points. The model keeps whole points, and `start_y` and `right_x` are parameters. The layout formulas are the same over reals.
- `int()` also accepts non-ASCII Unicode decimal digits. `Decimal.ParseInt` accepts only ASCII digits.
- `SqlPattern` has no escape character: `%` and `_` are always wildcards and `\` is an ordinary character. A database whose `LIKE` escapes with `\` by default, as PostgreSQL does, reads `\_` in a search as a literal `_`.
- Foreign keys are not enforced. For example, `create_user` skips the company check for `company_id = 0` (`backend/routes/users.py:46`), and the model then stores a user in company 0.

## Findings

| source | as written | input that shows it | evidently intended | confidence | as-written member | corrected member |
|---|---|---|---|---|---|---|
| backend/services/job_number.py:18 | the day's greatest number is taken in text order, plus one | a table holding `DC-<d>-999` and `DC-<d>-1000`: the next number is `DC-<d>-1000` again, which the unique `job_number` column refuses | one past the numerically greatest sequence of the day | not executed | `JobNumber.AsWrittenRepeatsAfter999` | `JobNumber.AllocateFresh` |
| backend/routes/jobcards.py:147 | the creator is read as `current_user["id"]`, also in `backend/routes/tasks.py:20` | any token that login issues holds `user_id` and no `id`, so every submission and task creation raises `KeyError` | read the `user_id` claim that login issues | not executed | `AuthRoutes.IssuedClaims` | `Claims.CallerId` |
