# Careers back end: a Dafny model

This project models the server side of a company website's jobs board: the
SQLite-backed careers store (`lib/careers-db.ts`) and the request handlers
that sit in front of it — the admin job API with its cookie check, the
public application form, the admin login, the `/admin` page middleware and
the contact form.

- `CareersDb` — the two tables (`jobs`, `applications`) as a class
  `CareersStore` whose map fields the methods update in place, with
  AUTOINCREMENT counters and a ghost record of every id ever handed out.
  `created_at` is a time the caller supplies. Whether the engine enforces
  the `FOREIGN KEY(job_id) … ON DELETE SET NULL` clause is a setting of the
  connection that the schema alone does not fix, so the store carries it as
  the constant `enforceForeignKeys`, and every contract that touches job
  references states both cases.
- `AdminJobs`, `Applications`, `AdminLogin`, `Middleware`, `Contact` — one
  module per handler file. Each decision (status, message, cookie, mail,
  which store call) is a pure function; handlers that touch the store are
  methods that carry the decision out against a `CareersStore`.
- `Strings` — ECMAScript `trim`, truthiness, `||`, `join`, `split` and
  decimal rendering; `Forms` — the required-field filter shared by the
  three form handlers; `Http` — environment, responses and mails;
  `Wrappers` — `Option`.

Environment variables, the `admin_session` cookie and JSON properties are
`Option<string>` (`None` is `undefined`); JavaScript truthiness of a string
is "present and non-empty". A body that fails to parse is `None`; whether
`sendMail` resolves is a boolean parameter.

Points where the code's behaviour is easy to misread, and which the model
follows as written:

- The listing is ordered by `created_at` alone, a timestamp with one-second
  resolution, so jobs created within the same second have no defined order.
  "J1, J2, J3 are listed J3, J2, J1" holds only when their creation times
  differ; `ThreeJobsListed` proves it for increasing times.
- An application's `jobId` is passed to the store exactly as sent
  (`?? null`), 0 and negative numbers included; nothing in the handler
  checks it. Without foreign-key enforcement the row keeps it as given;
  with enforcement, a `jobId` that names no stored job makes the insert
  throw, and the request ends in an uncaught error (500) with no row and no
  mail.
- The login handler answers 500 unless both ADMIN_PASSWORD and ADMIN_TOKEN
  are set, before it reads the body.
- The middleware's own test is a raw prefix test (`/administrator` would be
  gated), but the exported matcher `/admin/:path*` never routes such paths
  to it; `Middleware.Route` models the two together.

## Model

| member | source | states |
|---|---|---|
| `Strings.Trim` | app/api/admin/jobs/route.ts:40 | the result is a slice of the input with only whitespace cut from either end, has no whitespace at either end, and is empty exactly when the input is all whitespace |
| `Strings.TrimIdempotent` | app/api/admin/jobs/route.ts:63-69 | trimming an already trimmed value changes nothing |
| `Strings.Or` | app/api/applications/route.ts:23 | `a \|\| b` is truthy iff either operand is; it is `a` when `a` is truthy and `b` otherwise |
| `Strings.SplitJoin` | app/api/applications/route.ts:88 | joining lines with a line break and splitting again gives the lines back when none contains a line break |
| `Strings.SplitJoinLast` | app/api/contact/route.ts:62-71 | joining lines and splitting again gives every line but the last back, then the split of the last line, when only the last may contain line breaks |
| `Strings.OrElse` | app/api/applications/route.ts:73-76 | `x \|\| fallback` in a template literal: an absent or empty value renders as the fallback, any other as itself |
| `Strings.Blank` | app/api/admin/jobs/route.ts:40 | `!x?.trim()` holds exactly when the property is absent or all whitespace |
| `Strings.Truthy` | app/api/applications/route.ts:25 | a string is truthy when present and non-empty; a falsy one is always blank |
| `Strings.NatToString` | app/api/applications/route.ts:70 | a template literal renders an id as a non-empty run of decimal digits |
| `Strings.JoinSplit` | app/api/contact/route.ts:71 | splitting a text at a character and joining with it gives the text back |
| `Strings.Join` | app/api/applications/route.ts:88 | `join` adds exactly one separator between each two pieces: the length is the pieces' total plus that many separators, the text starts with the first piece, and no pieces give the empty string |
| `Strings.ParseNatToString` | app/api/applications/route.ts:70 | the decimal text of an id reads back as that id |
| `Strings.NatToStringInjective` | app/api/applications/route.ts:70 | distinct ids render as distinct texts |
| `Forms.MissingFields` | app/api/applications/route.ts:17-18 | the reported names keep the order of the field list, every blank field is reported, and only blank fields are |
| `Forms.MissingExactly` | app/api/contact/route.ts:14-15 | with distinct field names, a field is reported iff it is absent or whitespace only |
| `Forms.NoneMissing` | app/api/admin/jobs/route.ts:55-56 | nothing is reported iff every field is non-blank |
| `Forms.MissingMessage` | app/api/admin/jobs/route.ts:58 | the 400 message is `Missing fields: `, then the names joined by `, `, then a full stop |
| `CareersDb.NullIfEmpty` | lib/careers-db.ts:128-130 | absent and empty optional columns are stored as NULL, anything else as given |
| `CareersDb.ApplicationRow` | lib/careers-db.ts:124-132 | the inserted row keeps the id, jobId, required columns and time as given; an optional column is NULL exactly when absent or empty, and never stored empty |
| `CareersDb.SetNullReferences` | lib/careers-db.ts:53 | `ON DELETE SET NULL`: afterwards no application refers to the deleted job, those that did refer to no job, and nothing else in any row changes |
| `CareersDb.InsertNewestFirst` | lib/careers-db.ts:76 | placing a row by creation time keeps a list newest first and only inserts that row |
| `CareersDb.CareersStore.constructor` | lib/careers-db.ts:32-55 | a new database has empty tables, counters at 1, and the given foreign-key setting |
| `CareersDb.CareersStore.ListJobs` | lib/careers-db.ts:72-80 | every stored job appears exactly once, as stored, ordered by non-increasing creation time |
| `CareersDb.CareersStore.GetJobById` | lib/careers-db.ts:82-90 | `null` iff no row has that id, otherwise the row with that id |
| `CareersDb.CareersStore.CreateJob` | lib/careers-db.ts:92-99 | inserts and returns a row with the five given fields under an id above every id ever assigned, deleted ones included; nothing else changes |
| `CareersDb.CareersStore.UpdateJob` | lib/careers-db.ts:101-108 | on an existing id replaces the five fields, keeps id and creation time, leaves other rows alone and returns the new row; on an absent id changes nothing and returns `null` |
| `CareersDb.CareersStore.DeleteJob` | lib/careers-db.ts:110-114 | returns true iff a row with that id existed; afterwards there is none and other jobs are unchanged; with foreign keys enforced the applications that referred to it are kept with a NULL reference (line 53), otherwise the applications table is untouched |
| `CareersDb.CareersStore.CreateApplication` | lib/careers-db.ts:116-134 | appends one row under a fresh id (returned), jobId as given, empty optional fields as NULL; with foreign keys enforced, a jobId naming no stored job is refused and nothing changes; the jobs table is untouched |
| `CareersDb.DeleteTwice` | lib/careers-db.ts:110-114 | a second delete of the same id returns false |
| `CareersDb.NoReuseAfterDelete` | lib/careers-db.ts:34 | on any store, a job created after a stored job was deleted gets a larger id than the deleted job |
| `CareersDb.ThreeJobsListed` | lib/careers-db.ts:76 | three jobs created at increasing times are listed last-created first |
| `AdminJobs.RequireAdmin` | app/api/admin/jobs/route.ts:14-30 | unset token gives 500 whatever the cookie; a cookie not equal to the token gives 401; passes iff the token is set and the cookie equals it |
| `AdminJobs.ValidatePayload` | app/api/admin/jobs/route.ts:32-41 | the reported names follow the order title, department, location, type, description; none are reported iff all five are non-blank |
| `AdminJobs.ValidatePayloadNames` | app/api/admin/jobs/route.ts:32-41 | each of the five names is reported iff that field is absent or whitespace only |
| `AdminJobs.TrimmedInput` | app/api/admin/jobs/route.ts:63-69 | each of the five fields passed to the store is the payload's value trimmed, hence non-empty and without surrounding whitespace |
| `AdminJobs.MissingId` | app/api/admin/jobs/route.ts:86 | `!payload.id`: an absent id or 0 counts as missing |
| `AdminJobs.PostAction` | app/api/admin/jobs/route.ts:43-72 | an unauthorized request gets the auth error whatever its body; then 400 for an unreadable body, 400 `Missing fields: …` for blank fields; otherwise, and only then, a create whose five fields are the payload's trimmed |
| `AdminJobs.PutAction` | app/api/admin/jobs/route.ts:74-107 | as POST, but an absent or zero id gives 400 `Job ID is required.` before the fields are checked; an update is made only with a non-zero id, and its five fields are the payload's trimmed |
| `AdminJobs.DeleteAction` | app/api/admin/jobs/route.ts:109-127 | auth error first, then 400 for an unreadable body or a falsy id; otherwise a delete of that id |
| `AdminJobs.EmptyTitleRejected` | app/api/admin/jobs/route.ts:55-61 | an authorized POST with an empty title is answered 400 naming title, with no store call |
| `AdminJobs.Perform` | app/api/admin/jobs/route.ts:63-126 | at most one store call; `{ job }` is the created or updated row or `null` for an absent id; `{ ok }` is whether a row was deleted; only a create moves the job counter, by one, and records its id as issued; the application counters never change, and the applications table changes only on a delete with foreign keys enforced; stored jobs stay clean |
| `AdminJobs.HandlePost` | app/api/admin/jobs/route.ts:43-72 | an unauthorized or invalid request leaves the store and its counters unchanged; a valid one adds exactly the new row with the trimmed fields and moves the job counter by one; stored jobs stay clean |
| `AdminJobs.HandlePut` | app/api/admin/jobs/route.ts:74-107 | an unknown id gives 200 with `job: null` and no change; a known id is replaced in place; counters and applications never change |
| `AdminJobs.HandleDelete` | app/api/admin/jobs/route.ts:109-127 | `{ ok }` equals whether the row existed, and the row is gone afterwards; counters and issued ids are unchanged, so the id is never handed out again |
| `AdminJobs.PostThenGet` | app/api/admin/jobs/route.ts:63-71 | a job created through POST reads back by its id as the payload's five fields trimmed |
| `AdminJobs.DeleteThenPost` | app/api/admin/jobs/route.ts:63-71 | a job created through POST after a DELETE gets an id above the deleted one |
| `Applications.Recipient` | app/api/applications/route.ts:23 | the recipient is CAREERS_TO, else CONTACT_TO, else SMTP_USER |
| `Applications.MailConfigured` | app/api/applications/route.ts:25 | the mail is configured when SMTP_USER, SMTP_PASS and the recipient are all truthy |
| `Applications.ConfiguredIffCredentials` | app/api/applications/route.ts:21-30 | the configuration check passes iff SMTP_USER and SMTP_PASS are both set |
| `Applications.MissingApplicationFields` | app/api/applications/route.ts:15-18 | reported names follow fullName, email, coverLetter; none iff all three are non-blank |
| `Applications.MissingApplicationFieldNames` | app/api/applications/route.ts:15-18 | each required name is reported iff that field is blank |
| `Applications.Rejection` | app/api/applications/route.ts:20-46 | 500 without mail configuration before the body is read, 400 for an unreadable body or missing fields; the application goes ahead exactly otherwise |
| `Applications.TrimOptional` | app/api/applications/route.ts:53-55 | an optional field stays absent or present, and a present one is its value trimmed |
| `Applications.StoredInput` | app/api/applications/route.ts:49-57 | the stored jobId is the payload's; name, email and cover letter are the payload's trimmed (so non-empty); each optional field is the payload's, trimmed if present |
| `Applications.LooksUpJob` | app/api/applications/route.ts:48 | the job is looked up only for a truthy jobId, so never for 0 |
| `Applications.TitleOf` | app/api/applications/route.ts:76 | `job?.title`: absent exactly without a job, otherwise that job's title |
| `Applications.InsertRefused` | lib/careers-db.ts:53 | the store refuses the row exactly when foreign keys are enforced and the jobId names no stored job |
| `Applications.JobFor` | app/api/applications/route.ts:48 | a job is named only for a non-zero jobId with a matching row, and it is that row |
| `Applications.IdReadsBack` | app/api/applications/route.ts:70 | the first body line is `Application ID: ` followed by digits that read back as the stored id |
| `Applications.MessageLines` | app/api/applications/route.ts:69-80 | the body has ten lines in fixed order: the id, name and email as received (untrimmed), phone, portfolio and resume URL each falling back to `Not provided` when falsy, the job title or `General Application`, an empty line, `Cover Letter:` and the cover letter as received |
| `Applications.Subject` | app/api/applications/route.ts:87 | the subject is `New Application: `, the job's title (or `General` without a job or with an empty title), ` - ` and the applicant's name as received |
| `Applications.ApplicationMail` | app/api/applications/route.ts:83-89 | the mail goes to the configured recipient, with the applicant's email as reply-to and the subject above |
| `Applications.BodySplitsIntoLines` | app/api/applications/route.ts:69-88 | when the one-line values hold no line break, the sent text splits into the nine lines before the cover letter, in order, then the lines of the cover letter |
| `Applications.GeneralApplication` | app/api/applications/route.ts:76-87 | without a job the body says `General Application` and the subject says `General` |
| `Applications.Submit` | app/api/applications/route.ts:20-98 | a rejected request stores nothing and sends nothing; an insert the store refuses ends in an uncaught 500 with nothing stored or sent; otherwise one row is stored before the mail, whose text uses the untrimmed payload; the response carries the stored id on delivery and is 500 otherwise with the row kept |
| `Applications.GeneralApplicationStored` | app/api/applications/route.ts:48-91 | an application without jobId adds one row with a NULL job reference and a `General` subject |
| `Contact.ContactRecipient` | app/api/contact/route.ts:20 | the recipient is CONTACT_TO, else SMTP_USER |
| `Contact.ContactConfigured` | app/api/contact/route.ts:22 | the mail is configured when SMTP_USER, SMTP_PASS and the recipient are all truthy |
| `Contact.MissingContactFields` | app/api/contact/route.ts:4-15 | reported names follow fullName, email, message; none iff all three are non-blank |
| `Contact.MissingContactFieldNames` | app/api/contact/route.ts:14-15 | each required name is reported iff that field is blank |
| `Contact.ContactLines` | app/api/contact/route.ts:55-63 | the body has seven lines in fixed order: name and email as received, phone and company each falling back to `Not provided` when falsy, an empty line, `Message:` and the message as received |
| `Contact.ContactMail` | app/api/contact/route.ts:66-72 | the mail goes to the configured recipient with the sender's email as reply-to and subject `New Contact Request from ` + name |
| `Contact.Post` | app/api/contact/route.ts:17-81 | 500 without configuration, 400 for an unreadable body or missing fields, and no mail in those cases; otherwise exactly the contact mail (sender, recipient, reply-to, subject, body lines) is handed over; `ok: true` iff it was delivered, else 500 |
| `Contact.ContactBodySplitsIntoLines` | app/api/contact/route.ts:55-71 | when the one-line values hold no line break, the sent text splits into the six lines before the message, in order, then the lines of the message |
| `Middleware.Gate` | middleware.ts:3-18 | paths without the `/admin` prefix and the login page pass; other `/admin…` paths pass iff cookie and token are set and equal; a redirect always goes to `/admin/login` |
| `Middleware.NoRedirectLoop` | middleware.ts:6-13 | following a redirect never redirects again, whatever the cookie |
| `Middleware.Route` | middleware.ts:20-22 | the gate runs only on paths the `/admin/:path*` matcher selects |
| `Middleware.MatcherApplies` | middleware.ts:20-22 | `/admin/:path*` selects `/admin` itself and every path under `/admin/` |
| `Middleware.MatchedPathsArePrefixed` | middleware.ts:6-22 | every matched path passes the gate's own prefix test |
| `Middleware.AdministratorPath` | middleware.ts:6 | the gate alone would redirect `/administrator`, but the matcher never sends it there |
| `AdminLogin.SessionCookie` | app/api/admin/login/route.ts:26-33 | the cookie is `admin_session` = ADMIN_TOKEN, httpOnly, sameSite lax, path `/`, maxAge 28800, secure iff NODE_ENV is production |
| `AdminLogin.LoginConfigured` | app/api/admin/login/route.ts:7 | login is configured when ADMIN_PASSWORD and ADMIN_TOKEN are both truthy |
| `AdminLogin.Login` | app/api/admin/login/route.ts:3-36 | 500 unless both secrets are set, 400 for an unreadable body, 401 and no cookie unless the password is non-empty and equal to ADMIN_PASSWORD; otherwise `ok: true` and the session cookie |
| `AdminLogin.LoginOpensGates` | app/api/admin/login/route.ts:26-27 | the cookie a login issues passes both `requireAdmin` and the middleware |
| `AdminLogin.OnlyTheTokenOpens` | middleware.ts:7-10 | a cookie accepted by either gate is exactly the configured, non-empty token |

## Left out

- Storage plumbing: the WAL pragma, creating the data directory, the lazily opened connection, the SQL text and engine failures (no `StorageError` path; apart from an application insert refused by foreign-key enforcement, every statement succeeds in the model).
- Which foreign-key setting the deployed connection uses: it is not fixed by the schema, so the store's `enforceForeignKeys` constant is left free and both behaviours are modelled.
- `created_at` is a natural number supplied by the caller, not `datetime('now')` text; its one-second resolution is not modelled beyond allowing equal times.
- The 64-bit rowid limit: ids are unbounded integers, so the store never runs out of ids.
- `CareersDb.CareersStore.ListJobs`: the order among jobs with equal creation times is not specified by the source; the contract promises only non-increasing times.
- JSON parsing: a body is either parsed into the payload's properties or not parsed at all; property values of other JSON types (numbers where strings are expected, a string `jobId`, fractional ids, a `null` body), which the source would coerce or fail on at run time, are not modelled.
- The mail transport: host, port and credentials passed to nodemailer, and the `from` header's use beyond its text; sending is the `delivered` parameter.
- `cookies()` and `NextResponse`: the cookie is read as an optional string; the redirect keeps the rest of the request URL, of which only the pathname is modelled.
- `app/api/jobs/route.ts` (a wrapper around `listJobs`), the pages and components, the chatbot and the client forms; the logout endpoint is not part of this model.
