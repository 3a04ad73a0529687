# TechZone complaint system: a Dafny model of its core

The application is a Streamlit form. A customer files a complaint. The
form fields are checked, a hosted language model classifies the complaint
into one of five departments with a confidence, and a staff member may
override the department. The administrator is e-mailed when the
confidence is below 0.70. The complaint is then stored in a SQLite table,
which can be listed and searched.

This project models that core in six modules, one per concern:

- `Options` (`options.dfy`): the `Option` type used for SQL NULLs, `float()` failures and the outcome of the validation checks.
- `Text` (`text.dfy`): the Python `str` operations the source relies on.
  - `strip()` uses Python's full whitespace set.
  - `split("\n")` and `startswith`.
  - The first-colon split of `line.split(":", 1)`.
  - Substring containment.
- `Validation` (`validation.dfy`): the two regular expressions of `is_valid_email` and `is_valid_mobile`.
  - Each is written as a small anchored pattern.
  - `FullMatch` is the meaning of `re.match` with `^…$`.
  - Lemmas state in plain character terms which strings each pattern accepts.
- `Classifier` (`classifier.dfy`): what `classify_complaint_llm` does with the model's reply.
  - `ParseReply` is a declarative definition of the line loop.
  - The loop is the method `ScanReply`, proved equal to it.
  - `Classify` is the whole function with its fallbacks; the method `ClassifyComplaint` runs it as the source does.
- `ComplaintStore` (`store.dfy`): the complaints table as a class, `ComplaintTable`.
  - It holds a column list and rows in rowid order.
  - `InitDb` is the migration. `Insert` is `store_complaint`. `FetchAll` is `fetch_complaints`. `Search` is the search query.
- `Submission` (`submission.dfy`): the submit branch.
  - `Submit` is a decision function: rejected with a reason, or accepted with the stored record, the confidence and the alert outcome.
  - `SubmitComplaint` runs it against a `ComplaintTable`.
  - Lemmas follow whole submissions: a well-formed form with a confident Shipping reply, the same with an unconfident one, and a form with a five-digit mobile number.

Things from outside the program are parameters:

- The language-model call is a `ServiceReply`: `ServiceFailure` or `Completion(text)`.
- Python's `float()` is `parse: string -> Option<real>`, where `None` is its `ValueError`.
- The override selectbox is an `override` string, either `""` or one of the five departments.
- The alert e-mail's success is a `bool`.
- `CURRENT_TIMESTAMP` is a `now` string.

Confidence values are `real`s.

Points about the code that the model makes explicit:

- `CREATE TABLE` creates six data columns (app.py:134-135); `department` is among them.
- SQLite's `LIKE` folds ASCII case; the model uses exact substring containment (see "Left out").
- Classification always yields one of the five departments, so the override box's default selection is that department itself. An untouched override therefore stores the classified department. The model's `override == ""` case gives the same stored record.
- SQLite refuses `ALTER TABLE ... ADD COLUMN ... DEFAULT CURRENT_TIMESTAMP` on a table that already holds rows, because the default is not a constant. So `init_db` raises on a populated table that predates the `timestamp` column (app.py:140-141), after the `id` column has been added, and it raises again at every later start. `InitDb` returns `false` in that case.

## Model

| member | source | states |
|---|---|---|
| Text.Strip | app.py:42 | `strip()` returns a string no longer than its input with no whitespace at either end; it is empty only when the input is all whitespace |
| Text.StripIsSlice | app.py:42 | what `strip()` returns is a slice of its input, and everything cut off before and after that slice is whitespace |
| Text.StrippedSliceAt | app.py:42 | `r` is the slice of `s` at `i` with only whitespace of `s` outside it |
| Text.StartsWith | app.py:46-48 | `line.startswith(prefix)` |
| Text.Contains | app.py:292 | substring containment |
| Text.StripIdempotent | app.py:42 | stripping a stripped string changes nothing |
| Text.StripSkipsLeadingSpace | app.py:47 | a leading whitespace character does not change what `strip()` returns |
| Text.Split | app.py:45 | `split("\n")` returns at least one piece; no piece holds the separator; joining the pieces with it gives back the input |
| Text.SplitJoin | app.py:45 | splitting a join of separator-free pieces gives back exactly those pieces |
| Text.SplitAtFirst | app.py:45 | the text before the first separator is the first piece and the rest splits independently |
| Text.IndexOf | app.py:47 | the index `split(":", 1)` cuts at holds the character, and no earlier position does |
| Text.ContainsAt | app.py:292 | a string found at some position of `s` is contained in `s` |
| Text.ContainsFound | app.py:292 | a string contained in `s` occurs at some position of `s`, so `Contains` is exactly substring occurrence |
| Validation.FullMatch | app.py:164 | the anchored match of a sequence of once and one-or-more class terms against the whole string |
| Validation.IsValidEmail | app.py:163-164 | `is_valid_email`: the e-mail pattern matches the whole string |
| Validation.IsValidMobile | app.py:166-167 | `is_valid_mobile`: ten digit terms match the whole string |
| Validation.EmailPatternMeaning | app.py:163-164 | the e-mail pattern accepts a string exactly when it has one `@`, a non-empty local part of word characters, dots and dashes, and a domain whose last dot splits it into a non-empty host of those characters and a non-empty run of word characters |
| Validation.EmailPartsMatch | app.py:163-164 | every local part, host and top-level run of the allowed characters, joined by `@` and `.`, is accepted |
| Validation.DomainPartsMatch | app.py:164 | `[\w\.-]+\.\w+` accepts a host run, a dot and a word run |
| Validation.EmailNeedsAtAndDot | app.py:163-164 | a string with no `@`, or no dot after its first `@`, is rejected |
| Validation.MobileIsTenDigits | app.py:166-167 | the mobile pattern accepts a string exactly when it is ten ASCII digits |
| Validation.RepeatMatch | app.py:167 | `\d{10}` as ten single terms matches exactly the strings of that length drawn from the class |
| Validation.OneOrMoreLast | app.py:164 | a trailing `+` term matches exactly the non-empty strings drawn from its class |
| Classifier.IsLabelled | app.py:46-48 | a line the `if` branch (`Department:`) or the `elif` branch (`Confidence:`, only on lines that are not department lines) acts on |
| Classifier.LabelValue | app.py:47-49 | `line.split(":", 1)[1].strip()` |
| Classifier.ParseReply | app.py:44-49 | the line loop's outcome without the loop: the last department value and the last parsed confidence, or failure when some confidence does not parse |
| Classifier.ReplyLines | app.py:42-45 | `response.strip().split("\n")` |
| Classifier.LabelValueAfterLabel | app.py:47-49 | the value of a `Department:` or `Confidence:` line is the stripped text after the label itself |
| Classifier.LastLabelled | app.py:45-49 | finds the last line carrying a label, and says there is none when no line carries it |
| Classifier.ScanReply | app.py:44-49 | the line loop ends with the value of the last `Department:` line (or `""`) and the parsed value of the last `Confidence:` line (or 0.0); it fails exactly when some `Confidence:` value does not parse |
| Classifier.ParseReplyStep | app.py:45-49 | one more line changes the parse as the `if`/`elif` does: a department line replaces the department, a confidence line replaces the confidence or fails, any other line changes nothing |
| Classifier.DepartmentLineStep | app.py:46-47 | a `Department:` line replaces the department and keeps the confidence |
| Classifier.ConfidenceLineStep | app.py:48-49 | a parsable `Confidence:` line replaces the confidence and keeps the department |
| Classifier.OtherLineStep | app.py:45-49 | a line with neither label leaves the parse unchanged |
| Classifier.BadConfidenceFails | app.py:49-56 | one unparsable `Confidence:` line anywhere makes the whole reply fail, whatever surrounds it |
| Classifier.Classify | app.py:24-56 | the department is always one of the five; a failed call, or a reply with an unparsable confidence, gives ("General Queries", 0.0) |
| Classifier.ClassifyComplaint | app.py:42-56 | stripping the reply, running the line loop and applying the fallbacks computes `Classify` |
| Classifier.ClassifyKeepsKnownDepartment | app.py:45-53 | when every confidence parses, a known department on the last department line is kept, together with the confidence of the last confidence line |
| Classifier.ClassifyUnlabelledReply | app.py:44-53 | a reply with no labelled line gives ("General Queries", 0.0) |
| Classifier.ClassifyUnknownDepartment | app.py:51-53 | a department outside the five becomes "General Queries" and the parsed confidence is kept |
| Classifier.TwoReplyLines | app.py:42-45 | two trimmed lines joined by a line break come back as exactly those two lines |
| Classifier.DepartmentLineValue | app.py:46-47 | `Department: d` is a department line, not a confidence line, and its value is `d` |
| Classifier.ConfidenceLineValue | app.py:48-49 | `Confidence: v` is a confidence line, not a department line, and its value is `v` |
| Classifier.ClassifyWellFormedReply | app.py:44-53 | a reply in the format the prompt asks for, naming a known department and a parsable confidence, classifies as exactly that pair |
| ComplaintStore.Migrate | app.py:134-141 | after migration `id` and `timestamp` are present; a missing table gets the six data columns and then both; an existing list gets exactly the missing ones of `id` and `timestamp` appended, in that order, and nothing else; a migrated list is unchanged |
| ComplaintStore.Created | app.py:134-137 | definition: the column list after `CREATE TABLE IF NOT EXISTS`, which is the existing list, or the six data columns when the table is missing |
| ComplaintStore.AddId | app.py:138-139 | definition: the column list after the first `ALTER TABLE`, which is the created list with `id` appended when it lacks it |
| ComplaintStore.TimestampAlterRefused | app.py:140-141 | the engine refuses the `timestamp` column exactly when it is missing and the table has rows |
| ComplaintStore.RefusalPersists | app.py:138-141 | after a refused migration the next start is refused too, and the `id` column is not added twice |
| ComplaintStore.MigrateIdempotent | app.py:138-141 | migrating twice is migrating once |
| ComplaintStore.Project | app.py:159 | one row as the `SELECT` returns it: `COALESCE(id, rowid)` and `COALESCE(timestamp, 'N/A')` |
| ComplaintStore.Fetch | app.py:159 | the `SELECT` over all rows, row by row |
| ComplaintStore.MatchesTerm | app.py:292 | the `WHERE name LIKE ? OR complaint LIKE ?` test, as containment |
| ComplaintStore.ComplaintTable.NewRow | app.py:150-151 | the row an insert appends: the next rowid, NULL `id`, and the insertion time when the `timestamp` column exists |
| ComplaintStore.FetchAppend | app.py:150-159 | appending a row appends its projection to the fetched rows and leaves the earlier ones alone |
| ComplaintStore.FilterMatching | app.py:292 | keeps exactly the rows whose name or complaint contains the term, each as often as it was given and the others not at all, and all of them for the empty term |
| ComplaintStore.ComplaintTable.Open | app.py:132 | a connection sees the file's columns and rows, which are well formed |
| ComplaintStore.ComplaintTable.InitDb | app.py:131-143 | rows are untouched and get NULL in any added column; it fails exactly when the engine refuses the `timestamp` column, leaving the list with `id` added and no `timestamp`; otherwise the column list becomes `Migrate` of the old one |
| ComplaintStore.ComplaintTable.Insert | app.py:147-155 | succeeds exactly when the six data columns exist; on success it appends one row and fetching then returns the old rows plus one with the next id, the data, and the insertion time or "N/A"; on failure nothing changes |
| ComplaintStore.ComplaintTable.FetchAll | app.py:157-160 | one fetched row per stored row, in order; the id coalesces to the rowid, which is the 1-based position; the timestamp coalesces to "N/A" |
| ComplaintStore.ComplaintTable.Search | app.py:292 | returns exactly the fetched rows whose name or complaint contains the term, each as often as it is fetched and the others not at all, and every row for the empty term |
| Submission.AllFilled | app.py:249 | `all([name, mobile_number, email_id, complaint])`: no text field is empty |
| Submission.Gate | app.py:249-254 | the checks run in the source's order: missing field exactly when a field is empty; invalid e-mail exactly when all are filled and the e-mail fails; invalid mobile exactly when both pass and the mobile fails; accepted exactly when all three pass |
| Submission.Submit | app.py:248-279 | a form is rejected exactly when the gate fails, with the gate's reason; an accepted form keeps its fields, gets a department among the five (the override when one is chosen, otherwise the classified one), and alerts exactly when the confidence is below 0.70 |
| Submission.SubmitComplaint | app.py:248-279 | the checks, classification, override, alert decision and insert compute `Submit`; the table gains exactly one row when the form is accepted and the insert succeeds, and none otherwise |
| Submission.RejectionIgnoresService | app.py:249-256 | a rejected form is decided before classification: the reply, the parser, the override and the alert play no part |
| Submission.StoredRecordIgnoresAlert | app.py:268-275 | the stored record and confidence are the same whether or not the alert e-mail was delivered |
| Submission.ServiceFailureAlerts | app.py:268-269 | a failed classification call always alerts the administrator and stores "General Queries" unless overridden |
| Submission.JaneFormPasses | app.py:249-254 | the form of Jane Doe (`jane@example.com`, `9876543210`) passes all three checks |
| Submission.JaneEmailValid | app.py:163-164 | `jane@example.com` is a valid e-mail address |
| Submission.JaneMobileValid | app.py:166-167 | `9876543210` is a valid mobile number |
| Submission.HighConfidenceShippingReply | app.py:260-275 | a valid form with reply `Department: Shipping` / `Confidence: 0.92` is stored as Shipping with confidence 0.92 and no alert |
| Submission.LowConfidenceShippingReply | app.py:260-275 | a valid form with reply `Department: Shipping` / `Confidence: 0.40` is stored as Shipping after an alert attempt, whatever the alert's outcome |
| Submission.ShortMobileRejected | app.py:253-254 | Jane Doe's form with mobile `12345` is rejected as an invalid mobile, whatever the service would reply |

## Left out

- The Streamlit user interface is not modelled: page layout, styling, the sidebar menu, progress bars and messages. Only the decisions behind the messages are.
- The language-model request is not modelled: the prompt, the model name, temperature and tokens. Its reply is an input that either failed or carried text.
- The SMTP code (`send_email`, `send_email_to_admin`, the message text and the secrets) is not modelled. Sending is a `bool` input; the model records whether an alert was attempted and what it returned.
- Submission.Submit: `send_email_to_admin` reads `st.secrets["email"]["admin_email"]` (app.py:126) outside the `try` of `send_email`. A missing secret therefore raises out of the submit branch before `store_complaint` (app.py:275), and the complaint is not stored. The `alertDelivered` input cannot express this, so the model always stores an accepted form. With the placeholder API key (app.py:21), every classification falls back to confidence 0.0 and so takes this path.
- Python's `float()` is the parameter `parse`. IEEE rounding, `nan`, `inf`, underscores and surrounding-space rules are not modelled, and confidence is a `real`.
- Classifier.Classify: the confidence is not clamped to 0..1, because the source does not clamp it either.
- ComplaintStore.MatchesTerm: `LIKE '%term%'` is modelled as exact substring containment. SQLite's ASCII case folding is not modelled, nor the `%` and `_` wildcards inside the term.
- ComplaintStore.ComplaintTable.Search: the result's membership and multiplicity are stated, not its order. Without an `ORDER BY`, the order SQLite returns is not promised.
- ComplaintStore.ComplaintTable.Insert: the only failure modelled is a table lacking an insert column. I/O errors, a locked database and constraint violations are not modelled.
- The SQL engine itself is not modelled: SQL parsing, types and affinity, and the `with conn:` commit and rollback. Of its restrictions, only the refusal of `DEFAULT CURRENT_TIMESTAMP` on a populated table is modelled (`InitDb`).
- ComplaintStore.ComplaintTable.Open: it requires `WellFormed`, which assumes a database file written only by this application (rowids 1..n, every `id` NULL). A file edited from outside may break that, and the model does not cover such a file.
- ComplaintStore.ComplaintTable.InitDb: a refused migration makes the script stop at app.py:145. The model does not stop the app after `InitDb` returns `false`; `Insert` and `SubmitComplaint` remain callable on that table.
- `CURRENT_TIMESTAMP` is the `now` parameter of an insert.
- The `@st.cache_resource` connection sharing and the `check_same_thread=False` threading are not modelled; the table is one object.
- `\w` and `\d` are modelled as ASCII classes; Python's `re` also accepts Unicode letters and digits there. The `$` anchor's acceptance of one trailing line break is not modelled.
- Age is a parameter. The number input's bounds (1..150) are enforced by the widget and not checked again.
- Streamlit reruns the script when the override box changes inside the submit branch. That rerun is not modelled: the override is one input of one submission.
- The "View Complaints" rendering through pandas and the CSV download are presentation only and not modelled.
