# Survey service: a verified model of its decision logic

The service (`app.py`) is a small Flask application. Visitors post a survey form.
Each post is normalised and stored as one row of a `submissions` table. An
operator reads the rows on an admin page, which is protected by a shared key
passed as `?key=`. This project models the four pieces of that program that make
decisions, with the filesystem, the database, the clock and the date parser
replaced by plain values:

- **Template selection** (`pick_template`). The module `Templates` models the
  template folder as a value (`Folder`). `PickTemplate` scans the fixed candidate
  list in order and returns the first template that exists. When none exists it
  returns the 500 abort, carrying the candidate list and the folder's files.
- **Submission normalisation and the append-only store** (`submit`,
  `Submission`). `MultiDict` models the form's `get`/`getlist`.
  `Submissions.Normalize` models the field defaults, the comma-joined hobbies and
  the birth-date parse. `Store.SubmissionStore` is a class holding the rows and
  the next id. Its only mutator, `Insert`, appends exactly one row.
- **Admin gate and listing** (`admin`). `Routes.Admin` compares the supplied key
  with the configured one for exact equality. On a match it reads
  `Store.Listing`, which is every row, newest first. It then hands the rows to
  `admin.html` when that template exists, and renders the built-in table
  otherwise.
- **Built-in renderer**. `Render` models `safe`, the twelve cells of a row in
  header order, the `"".join` of the rows, and the placeholder row shown for an
  empty listing.

Facts about the code that shape the model:
- `ORDER BY created_at DESC` leaves the order of equal timestamps open, so `Store.Listing` promises nothing about it.
- The program has no schema migration: `create_all` only creates a missing table.
- The program has no validation of answers, no login step and no file upload.
- A form template counts as present when any entry of that name exists; the abort message lists only regular files. `Templates.Folder` keeps the two sets apart, with every regular file also an entry.
- Dates come from parsing `%Y-%m-%d`, so every stored birth date has a year from 1 to 9999, a month from 1 to 12 and a day from 1 to 31; `Submissions.Date` is that subset.

## Model

| member | source | states |
|---|---|---|
| `Templates.Exists` | app.py:27 | no contract of its own: `folder / name` exists when the folder exists and has an entry of that name; used by the contracts of `FirstExisting` and `PickTemplate` |
| `Templates.FolderFiles` | app.py:30-32 | no contract of its own: the files named in the abort are the folder's regular files, none when the folder is missing; used by `PickTemplate`'s contract |
| `Templates.FirstExisting` | app.py:26-29 | returns the index of a candidate that exists, with no existing candidate before it; returns nothing exactly when no candidate exists |
| `Templates.FirstExistingIsFirst` | app.py:26-29 | any existing candidate whose predecessors all do not exist is the one chosen, so "first existing" determines the choice |
| `Templates.PickTemplate` | app.py:15-33 | the loop returns a template exactly when some candidate exists; the name is a candidate that exists and no earlier candidate exists; otherwise it aborts with the full candidate list and the folder's files |
| `Templates.SecondCandidateChosen` | app.py:26-29 | with two candidates where only the second exists, the second is chosen |
| `Templates.OnlyFromHtml` | app.py:13-29 | with only `from.html` in the folder, `from.html` (position 1 of the list) is chosen |
| `MultiDict.Get` | app.py:69-78 | the form's `get` gives nothing exactly when the key was not sent, and otherwise the value of the first pair sent under the key |
| `MultiDict.GetAtFirst` | app.py:69-78 | `get` of a key sent at least once is the value at the key's first position |
| `MultiDict.GetList` | app.py:74 | `getlist` holds exactly the values sent under the key, and no more values than pairs |
| `MultiDict.GetListAppend` | app.py:74 | `getlist` keeps arrival order: the values of concatenated input are the concatenated values |
| `MultiDict.GetIsHeadOfGetList` | app.py:72-74 | `get` is the first element of `getlist`, and is absent when `getlist` is empty |
| `Submissions.FieldOrEmpty` | app.py:69-78 | `get(key) or ""` is `""` when the key was not sent, and the value at the key's first position otherwise |
| `Submissions.ParseBirth` | app.py:81-86 | the birth date is absent exactly when the raw text is empty or the parser rejects it, and is the parsed date otherwise |
| `Submissions.Normalize` | app.py:69-86 | no `hobby` values give `""`; `birth` is absent exactly when the raw text is empty or does not parse, and is the parsed date otherwise |
| `Submissions.NormalizeTextField` | app.py:69-78 | each single-valued field is stored as `""` when not sent, and as the first value sent under its name otherwise |
| `Submissions.NormalizeHobbies` | app.py:74 | splitting the stored hobbies at commas gives back every `hobby` value in arrival order (at least one value, none with a comma) |
| `Submissions.Stored` | app.py:90-94 | no contract of its own: the row written for normalised answers, every text column set; what it shows is stated by `Render.StoredRowCells` and `Render.StoredBirthCell` |
| `Text.Join` | app.py:74 | no contract of its own: `sep.join`; its properties are `Text.SplitJoin`, `Text.JoinAppend` and `Text.JoinNoSeparatorAppend` |
| `Text.SplitJoin` | app.py:74 | splitting a one-character-separator join gives back the pieces, when none contains the separator |
| `Text.JoinAppend` | app.py:74 | joining two non-empty lists puts exactly one separator between their joins |
| `Text.JoinNoSeparatorAppend` | app.py:130-146 | `"".join` of a concatenation is the concatenation of the joins |
| `Text.NatText` | app.py:132 | `str(id)` is a non-empty string of decimal digits with no leading zero unless the id is 0 |
| `Text.NatTextValue` | app.py:132 | the decimal text of an id reads back as the id |
| `Text.Pad` | app.py:137 | the zero-padded number is all decimal digits; `Text.PadValue` states its width and value |
| `Text.PadValue` | app.py:137 | a zero-padded number that fits its width is exactly that wide and reads back as the number |
| `Store.SubmissionStore.constructor` | app.py:55 | a new table is empty and satisfies the store invariant |
| `Store.SubmissionStore.Insert` | app.py:89-96 | appends exactly one row with the given answers and time; earlier rows are unchanged; the new id is one more than the number of rows and larger than every earlier id |
| `Store.WellNumberedIdsDistinct` | app.py:42 | under the store invariant no two rows share an id |
| `Store.InsertByTime` | app.py:119 | placing one row into a newest-first list keeps it newest first, adds exactly that row, and puts either it or the old first row at the front |
| `Store.NewestFirstTail` | app.py:119 | dropping the newest row of a newest-first list leaves it newest first |
| `Store.NewestFirstCons` | app.py:119 | a row no older than the first row of a newest-first list can be put in front of it |
| `Store.Listing` | app.py:119 | the listing has `created_at` non-increasing from first to last and is a permutation of the stored rows |
| `Store.ListingContents` | app.py:119 | the listing has as many rows as the table and holds exactly the stored rows |
| `Store.ListingOrdersByTime` | app.py:119 | of two stored rows with different timestamps, the later is listed before the earlier |
| `Store.TwoSubmissionsNewestFirst` | app.py:119 | a row stored later than another is listed first: `[a, b]` lists as `[b, a]` |
| `Render.Safe` | app.py:128-129 | `safe(None)` is `""`, and `safe(v)` is the text `v` otherwise |
| `Render.DateText` | app.py:137 | `str(date)` is ten characters with `-` at positions 4 and 7 |
| `Render.DatePartsFit` | app.py:137 | each part of a valid date fills its field exactly (four, two and two digits) and reads back as that part |
| `Render.DateTextReadsBack` | app.py:137 | a birth date renders as `YYYY-MM-DD`, ten characters that read back as its year, month and day |
| `Render.SafeDate` | app.py:137 | the birth cell is empty exactly when the birth date is absent |
| `Render.Cells` | app.py:131-144 | a row has exactly 12 cells, as many as the headers; cell i shows column i of the fixed order id, created_at, name, email, tel, birth, gender, hobbies, city, english_score, source, feedback, nulls shown as `""` |
| `Render.CellsFront` | app.py:132-137 | the first six cells are `str(id)`, the timestamp text, `safe` of name, email and telephone, and the birth date text |
| `Render.CellsBack` | app.py:138-143 | the last six cells are `safe` of gender, hobbies, city, English score, source and feedback |
| `Render.CellsOf` | app.py:132-143 | the cells of any row are exactly these twelve texts, in the order the row template writes them |
| `Render.StoredRowCells` | app.py:128-144 | a row written by the store shows the submitted answers unchanged; an absent birth date shows as an empty cell |
| `Render.StoredBirthCell` | app.py:137 | a stored birth date shows in its cell as `YYYY-MM-DD`, reading back as that date |
| `Render.ColumnText` | app.py:132-143 | no contract of its own: the text of one column, `safe` of its value; `Render.CellsFront`, `Render.CellsBack` and `Render.CellsOf` state it for every column |
| `Render.Cell` | app.py:132-143 | a `<td>` element holds the cell text unchanged: `<td>`, then exactly the text, then `</td>`, nine characters longer than the text |
| `Render.TdCells` | app.py:132-143 | no contract of its own: the `<td>` elements of a row in order; its properties are `Render.TdCellsCons` and `Render.TdCellsEmpty` |
| `Render.TdCellsCons` | app.py:132-143 | the first cell's `<td>` comes first, followed by the `<td>` elements of the remaining cells, so no cell is dropped or moved |
| `Render.TdCellsEmpty` | app.py:132-143 | no cell texts give no `<td>` elements |
| `Render.Row` | app.py:131-144 | a rendered row is `<tr>`, then the `<td>` elements of exactly the twelve cells of `Cells` in column order, then `</tr>` |
| `Render.RowsHtml` | app.py:130-146 | no contract of its own: the `"".join` of the rows; its properties are `Render.RowsHtmlCons`, `Render.RowsHtmlAppend` and `Render.RowsHtmlEmpty` |
| `Render.RowsHtmlCons` | app.py:130-146 | the rendered rows are the first row followed by the rendering of the rest |
| `Render.RowsHtmlAppend` | app.py:130-146 | rendering neither filters nor reorders: the rendering of a concatenation is the concatenation of the renderings |
| `Render.RowsHtmlEmpty` | app.py:130-146 | the rows render as `""` exactly when there are none |
| `Render.TableBody` | app.py:165 | the table body is the placeholder row for an empty listing, and the rendered rows otherwise |
| `Routes.AdminKeyFrom` | app.py:58 | the configured key is the environment's value when the variable is set (even to `""`), and `changeme` otherwise |
| `Routes.SuppliedKey` | app.py:113 | the supplied key is `""` when no `key` parameter was sent, and the first `key` value otherwise |
| `Routes.Admin` | app.py:110-125 | Forbidden (403) exactly when the supplied key differs from the configured key; otherwise the listing goes to `admin.html` exactly when that template exists, and to the built-in table body otherwise |
| `Routes.Submit` | app.py:67-98 | appends exactly one row: the normalised form, stamped with the given time, with an id that is new; nothing stored before changes |
| `Routes.GateIsExact` | app.py:113-115 | access is granted exactly when the first `key` parameter equals the configured key, or when no key is sent and the configured key is empty |
| `Routes.DefaultKeyRefusals` | app.py:113-115 | with the default key `changeme`, a missing key, an empty key and `changeme ` with a trailing space are refused; `changeme` is admitted |
| `Routes.TwoRowsBody` | app.py:119-165 | after appending a row and then a later one, the built-in table body is the later row's `<tr>` followed by the earlier one's |
| `Routes.TwoSubmissionsScenario` | app.py:67-125 | no contract of its own: a client that posts two forms at increasing times and proves that the built-in table shows the later row first, and that the key with a trailing space is refused |

## Left out

- The Flask runtime is not modelled: routing, `request`, `redirect`, `url_for`, `render_template`, the `index` route's rendering of the chosen template, the static `/thanks` page and `app.run`. These are HTTP input and output.
- `submit` answers with a redirect to `/thanks`, which is not modelled. `Routes.Submit` returns the new row's id instead, so that callers can state facts about the row.
- The database engine, sessions, `commit`/`close` and atomicity are not modelled. The table is an in-memory sequence in `Store.SubmissionStore`.
- Filesystem probing (`resolve`, `exists`, `iterdir`, `glob`) is replaced by the `Templates.Folder` value. The directory listing is a set, because the listing order is not defined.
- The debug `print` output of `pick_template` is advisory and not modelled.
- The abort in `pick_template` is modelled as its structured payload, not as its formatted message text.
- Date parsing with `%Y-%m-%d` is the parameter `parse`; `None` stands for the `ValueError` case.
- The clock (`utcnow`) is not modelled. The caller passes `now` as an integer.
- Python's `str` of a timestamp is the parameter `timeText` of the renderer. `str` of a date is modelled (`Render.DateText`).
- Presentation boilerplate is not modelled: the CSS, the page title, the header markup and the display of the admin key. The header texts are the constant `Render.Headers`. The built-in page is modelled by its table body.
- The page `admin.html` renders is not modelled. `Routes.AdminPage.Delegated` records the template name and the rows handed to it.
- Reading `ADMIN_KEY` from the environment is the function `Routes.AdminKeyFrom`, applied to the variable's value. `Routes.Admin` takes the key as configuration.
- Column length limits such as `String(100)` are not modelled. SQLite does not enforce them.
- Ids are unbounded naturals. SQLite's 64-bit rowid limit is not modelled.
- HTML escaping is not modelled, because the code performs none: cell texts are inserted unchanged, as the code does.
- Concurrency is not modelled: no decision here depends on it.
- Store.Listing: states only what `ORDER BY created_at DESC` promises (non-increasing time and the same rows). The model's own order among rows with equal timestamps is not part of the contract.
- Submissions.NormalizeHobbies: the round trip requires at least one value and no comma inside a value. `",".join` cannot be inverted otherwise; for example `[]` and `[""]` both join to `""`.
