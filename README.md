# ReportSYS bug tracker, modelled in Dafny

ReportSYS is two small desktop windows that share one JSON file of bug
records (`bugs.json`). In the reporter window (`report_user.py`), a user
fills in a form. Its mandatory fields are checked, and a complete report
is appended to the file with a time stamp and status `Open`. The admin
panel (`admin_panel.py`) does three things:
- it reads the file and filters the records by status or priority;
- it sorts them by date, priority or status;
- it shows one record's details. Its resolve button marks as resolved the
  first open record whose title occurs in the detail text, then writes
  `self.bugs`, the list the last successful load stored, back.

The model has seven modules:

- `Bugs` (`bugs.dfy`): the record, its priority and status, and the four
  outcomes of reading the store file (missing, not JSON, not an array, an
  array of records).
- `Strings` (`strings.dfy`): the Python `str` operations the code relies on:
  `<` (code point order), `pat in text` and `str.strip()`. It also proves
  the order and containment facts the other modules use.
- `Timestamp` (`timestamp.dfy`): the `"%Y-%m-%d %H:%M:%S"` rendering of a
  clock reading. It proves that string order on such stamps is
  chronological order.
- `Query` (`query.dfy`): the filter and sort pipeline of `load_bugs`.
  - The sort is specified by a reference stable insertion sort, `SortBy`.
  - Lemmas prove that `SortBy` is ordered, is a permutation and is stable.
    They also prove it is the only ordering with those properties, so it
    is exactly what Python's stable `list.sort` produces.
- `Admin` (`admin.dfy`): the `AdminPanel` class with its filter text,
  sort text and `self.bugs` (the list the last successful load stored);
  the detail text; and the `mark_resolved`
  scan.
- `Reporter` (`reporter.dfy`): `validate_fields` and `submit_bug`.
- `Findings` (`findings.dfy`): three defects, each shown on concrete
  records: two in `mark_resolved` (the wrong record resolved, and records
  lost from the file) and one in the filter and sort boxes (the list is
  not reloaded). It also holds the corrected resolution.

Where the two windows disagree, the model follows each window's own code.
- `submit_bug` treats a missing file, a file that is not JSON and a
  non-array file as empty.
- `load_bugs` only catches a missing file. After start-up, on a file that
  is not JSON the load raises. The cards were already cleared, so the
  panel shows no records, but `self.bugs` keeps the list the last
  successful load stored; a resolve still scans that hidden list and
  writes it over the file (for
  the first load, see `Admin.AdminPanel.constructor` under "## Left out"). On a file whose top
  level is not an array the model's `Load` ends in an error; the source
  does so only in some cases (see `Query.Load` under "## Left out").

## Model

| member | source | states |
|---|---|---|
| Strings.StrLess | admin_panel.py:112-122 | Python's `<` on the string sort keys: code point by code point, a proper prefix before the longer string. |
| Strings.IsPrefix | admin_panel.py:195 | `pat` is the start of `text`. |
| Strings.Contains | admin_panel.py:195 | Python's `pat in text`: `pat` starts at some position of `text`. |
| Strings.IsSpace | report_user.py:12-14 | The code points `str.strip()` removes: those for which Python's `str.isspace()` is true. |
| Bugs.Rank | admin_panel.py:116-120 | The `priority_order` table: High 3, Medium 2, Low 1. |
| Bugs.PriorityText | admin_panel.py:106-107 | The JSON text of a priority: "High", "Medium" or "Low". |
| Bugs.StatusText | admin_panel.py:102-105 | The JSON text of a status: "Open" or "Resolved". |
| Bugs.AsResolved | admin_panel.py:197 | The record with its status set to Resolved and every other field kept. |
| Strings.StrLessIrreflexive | admin_panel.py:112-114 | No time stamp sorts before itself under Python's string `<`. |
| Strings.StrLessTransitive | admin_panel.py:112-114 | Python's string `<` is transitive. |
| Strings.StrLessAsymmetric | admin_panel.py:112-114 | Two strings are never each less than the other. |
| Strings.StrLessTotal | admin_panel.py:112-114 | Any two different strings are ordered one way or the other. |
| Strings.StrLessAppend | admin_panel.py:112-114 | Concatenations whose first parts have equal length compare by the first parts, and on a tie by the second parts. |
| Strings.ContainsAt | admin_panel.py:195 | `pat in text` holds iff some position of `text` starts a copy of `pat`. |
| Strings.ContainsInfix | admin_panel.py:179-187 | A string built as `a + pat + b` contains `pat`. |
| Strings.ContainsExtend | admin_panel.py:179-187 | Text appended after a string keeps every block the string contains. |
| Strings.ContainsPrefixOf | admin_panel.py:195 | A text that contains `p + q` also contains `p`. |
| Strings.StripLeft | report_user.py:12-14 | The result is a suffix of the input, everything removed is white space, and the result does not start with white space. |
| Strings.StripRight | report_user.py:12-14 | The result is a prefix of the input, everything removed is white space, and the result does not end with white space. |
| Strings.Strip | report_user.py:12-14 | `s.strip()` is a block of `s`. It is empty iff `s` is all white space, and otherwise it neither starts nor ends with white space. |
| Timestamp.Pad | report_user.py:35 | A zero-padded field has exactly the given width and only decimal digits. |
| Timestamp.PadValue | report_user.py:35 | Padding a number that fits the width loses nothing: the digits denote the number. |
| Timestamp.PadOrder | report_user.py:35 | Fixed-width padded numbers compare as strings exactly as the numbers compare, and are equal iff the numbers are. |
| Timestamp.Format | report_user.py:35 | For an in-range clock reading, the stamp has the shape `YYYY-MM-DD HH:MM:SS`. |
| Timestamp.DateOrder | report_user.py:35 | The `YYYY-MM-DD` parts of two in-range stamps have equal length, compare as the dates compare, and are equal iff the dates are. |
| Timestamp.TimestampOrder | report_user.py:35 | For in-range readings, one stamp is string-less than another iff its reading is chronologically earlier, and two stamps are equal iff the readings are. |
| Query.Holds | admin_panel.py:102-107 | The comprehension conditions: status equal to the filter's status, or priority equal to the filter's priority; everything passes otherwise. |
| Query.Before | admin_panel.py:111-122 | The sort keys and `reverse` flags: "Date (Newest)" puts the greater time stamp first, "Date (Oldest)" the smaller, "Priority (High-Low)" the higher rank, "Priority (Low-High)" the lower rank, and "Status" the string-smaller status text; an unknown text orders nothing. |
| Query.SameKey | admin_panel.py:111-122 | Two records tie under an order: equal time stamps, equal ranks or equal status texts. |
| Query.ParseFilter | admin_panel.py:101-107 | "Open"/"Resolved" select by status and "High"/"Medium"/"Low" select by priority, each for exactly those texts. Any other text (including "All") selects everything. |
| Query.ParseOrder | admin_panel.py:110-122 | Each of the five sort labels selects its own order. Any text that is no label means no sorting. |
| Query.Select | admin_panel.py:102-107 | A filtered list is no longer than its input. |
| Query.SelectCount | admin_panel.py:102-107 | Each record occurs in the filtered list as often as in the input if it passes the filter, and not at all otherwise: no omissions and no duplicates. |
| Query.SelectAppend | admin_panel.py:102-107 | Filtering a concatenation filters each part in order, so the original relative order is kept. |
| Query.SelectEverything | admin_panel.py:101-107 | When every record passes, the filter returns its input unchanged. |
| Query.BeforeExcludes | admin_panel.py:111-122 | If one record sorts strictly ahead of another, the reverse is false and their keys differ. |
| Query.BeforeTotal | admin_panel.py:111-122 | For any two records, one is ahead of the other or their keys are equal. |
| Query.NotBeforeTransitive | admin_panel.py:111-122 | "Not ahead of" is transitive for each sort key. |
| Query.Insert | admin_panel.py:111-122 | Inserting a record adds exactly that record. |
| Query.SortBy | admin_panel.py:111-122 | Sorting keeps the length and is a permutation of its input. |
| Query.InsertOrdered | admin_panel.py:111-122 | Inserting into an ordered list keeps it ordered. |
| Query.SortOrdered | admin_panel.py:111-122 | The sorted list has no record ahead of an earlier one. |
| Query.InsertKeepsTies | admin_panel.py:111-122 | Insertion places a record after every record with the same key. |
| Query.SortStable | admin_panel.py:111-122 | Records with equal keys keep their input relative order, including under `reverse=True`. |
| Query.SortOfOrdered | admin_panel.py:111-122 | Sorting an already ordered list returns it unchanged. |
| Query.SortIdempotent | admin_panel.py:111-122 | Sorting twice by the same key is the same as sorting once. |
| Query.OrderedUnique | admin_panel.py:111-122 | Two ordered lists with the same records of each key in the same relative order are equal. |
| Query.SortUnique | admin_panel.py:111-122 | Any ordered, stable rearrangement of the input equals `SortBy`, so `SortBy` is exactly what a stable sort returns. |
| Query.DateOrders | admin_panel.py:111-114 | "Date (Oldest)" order means non-decreasing time stamps. "Date (Newest)" order means non-increasing time stamps. |
| Query.OldestFirstIsChronological | admin_panel.py:113-114 | For stamps rendered from in-range clock readings, "Date (Oldest)" order lists the readings chronologically. |
| Query.PriorityOrders | admin_panel.py:115-120 | "Priority (High-Low)" order means non-increasing rank, with High 3, Medium 2 and Low 1. "Priority (Low-High)" order means non-decreasing rank. |
| Query.StatusOrders | admin_panel.py:121-122 | "Status" order means no Resolved record comes before an Open one. |
| Query.View | admin_panel.py:100-124 | The view is a permutation of the filtered records and is ordered by the sort text. When the sort text is unknown, the view is the filtered list itself. |
| Query.ViewStable | admin_panel.py:109-122 | In the view, records with equal sort keys appear in their stored relative order. |
| Query.ViewUnknownTexts | admin_panel.py:101-123 | With "All" (or any unknown filter) and an unknown sort text, the stored array is shown as is. |
| Query.ViewSingleton | admin_panel.py:100-124 | A one-record store shows the record iff it passes the filter, whatever the sort. |
| Query.SortPair | admin_panel.py:111-122 | When one record is ahead of another, both arrangements of the two sort to the same order. |
| Query.PairNewestFirst | admin_panel.py:101-112 | With the default filter and "Date (Newest)", a pair whose second record is ahead is shown second record first, from either stored order. |
| Query.NewerAhead | admin_panel.py:111-112 | Under "Date (Newest)", the record stamped from the later clock reading is ahead. |
| Query.NewerFirst | admin_panel.py:101-112 | For two records stamped from readings such as 2024-01-01 10:00:00 and 2024-02-01 10:00:00, "Date (Newest)" shows the later one first, from either stored order. |
| Query.PlainTexts | admin_panel.py:101-122 | "All" selects every record, and the empty sort text sorts nothing. |
| Query.Load | admin_panel.py:95-126 | A missing file gives the empty list. A file that is not JSON, or is not an array, gives an error. An array gives its view, no longer than the array. |
| Admin.Submitter | admin_panel.py:184 | `bug.get('name', 'Anonymous')`: the name, or "Anonymous" when there is none. |
| Admin.Details | admin_panel.py:179-187 | The detail text: program, title, priority, status, submitter, date and description, on the lines the f-string lays out. |
| Admin.Matches | admin_panel.py:195 | The scan's test: the title occurs in the selected text and the status is Open. |
| Admin.DetailsShowRecord | admin_panel.py:179-187 | The detail text contains the title and the submitter, and contains "Anonymous" when the record has no name. |
| Admin.FirstMatch | admin_panel.py:194-195 | The scan stops at the lowest index whose record is Open and whose title occurs in the selected text, or finds none. |
| Admin.FirstMatchAt | admin_panel.py:194-195 | Where the first match is, the scan stops exactly there. |
| Admin.ResolveFirst | admin_panel.py:194-201 | Nothing is written iff no record matches. Otherwise exactly the first match becomes Resolved, and every other record is unchanged. |
| Admin.ShownOpenRecordIsFound | admin_panel.py:177-195 | When the detail text of an open displayed record is selected, the scan finds a match at that record or earlier. |
| Admin.AdminPanel.constructor | admin_panel.py:17-19 | The panel starts with filter "All", sort "Date (Newest)" and an empty list. |
| Admin.AdminPanel.LoadBugs | admin_panel.py:95-126 | The load returns `Load` of the file under the panel's texts. On an array, its records are a permutation of the filtered records. |
| Admin.AdminPanel.Refresh | admin_panel.py:128-134 | `update_bug_display` as the Refresh button (admin_panel.py:89-93) calls it: on a successful load, `self.bugs` becomes the view. When the load raises, the cards are already cleared (admin_panel.py:130-131) but `self.bugs` keeps the list the last successful load stored, so a later resolve can act on records no longer shown. The texts do not change. |
| Admin.AdminPanel.SelectFilter | admin_panel.py:44-50 | Choosing in the filter box stores the text and keeps the sort. The list on display is not reloaded, because the box's command passes the choice to `update_bug_display`, which takes no argument. |
| Admin.AdminPanel.SelectSort | admin_panel.py:33-39 | Choosing in the sort box stores the text and keeps the filter. The list on display is not reloaded, for the same reason. |
| Admin.AdminPanel.SelectFilterAndReload | admin_panel.py:44-50 | The evidently intended filter choice: the text is stored and the list is reloaded under it, or kept as it was when the load fails. |
| Admin.AdminPanel.SelectSortAndReload | admin_panel.py:33-39 | The evidently intended sort choice: the text is stored and the list is reloaded under it, or kept as it was when the load fails. |
| Admin.AdminPanel.ShowBugDetails | admin_panel.py:177-190 | The detail text of the clicked record contains its title. The resolve button is enabled iff the record is Open. |
| Admin.AdminPanel.MarkResolved | admin_panel.py:192-206 | The written array is the view with its first match resolved, or nothing is written when no record matches and then the list is unchanged. After a write, the list is the view of what was written. |
| Reporter.ValidateFields | report_user.py:10-18 | The form is accepted iff name, title and description each have a non-white-space character. Program and priority are not checked. |
| Reporter.NewRecord | report_user.py:29-37 | A new record is Open, and its stamp has the shape `YYYY-MM-DD HH:MM:SS`. |
| Reporter.Existing | report_user.py:39-48 | The list a submission starts from is the stored array. It is empty when the file is missing, not JSON, or not an array. |
| Reporter.SubmitBug | report_user.py:24-52 | An incomplete form writes nothing. Otherwise the written array is the existing list with the new record appended. |
| Reporter.AppendRoundTrip | report_user.py:39-52 | The admin panel's load of the written file, with filter "All" and no sort, gives the old list followed by the new record, the old records unchanged and in order. After a missing file, a file that is not JSON or a non-array file it gives the new record alone. |
| Reporter.AppendedRecordInView | report_user.py:50-52 | In the admin view, the appended record appears iff it passes the filter, alongside the records shown before. |
| Reporter.ExampleFormComplete | report_user.py:10-18 | The form with name "A", program "XRAYD", priority High, title "T1" and description "D1" passes validation. |
| Reporter.LoneHighRecord | admin_panel.py:101-107 | A store holding one High record shows it under "High" and nothing under "Low". |
| Reporter.FirstSubmission | report_user.py:24-52 | With no store, the example report passes validation and starts from an empty list. Its record is Open, is shown under "High", and is not shown under "Low". |
| Findings.FilterChoiceLeavesStaleList | admin_panel.py:44-50 | A panel showing a High and a Low record still shows both after "High" is chosen in the filter box, while the view under "High" is the High record alone. |
| Findings.FilteredResolveLosesRecords | admin_panel.py:194-201 | Resolving under the "High" filter writes only the shown High record, so a stored Low record is lost. |
| Findings.TitleMatchResolvesOtherRecord | admin_panel.py:194-197 | With "Crash" listed above "Crash on save", selecting "Crash on save" resolves "Crash", and the selected record stays Open. |
| Findings.Locate | admin_panel.py:194-197 | Returns the first position holding the selected record, or reports that the record is not stored. |
| Findings.ResolveSelected | admin_panel.py:192-206 | The selected record is resolved in the whole store, with its length kept and every other record unchanged. The result is NotFound iff the index is outside the view or the record is not stored, and AlreadyResolved iff the record is Resolved. |
| Findings.ShownRecordResolves | admin_panel.py:177-201 | Every open record in any view of the store is found and resolved. |
| Findings.ResolveOnlyOnce | admin_panel.py:192-206 | After a resolution, the resolved record is in the store, and resolving it again is refused as AlreadyResolved. |

## Left out

- The combobox callback: customtkinter is not part of this model. Its
  combobox writes the chosen text into the box's variable and then calls
  the command with the choice as its one argument. `SelectFilter` and
  `SelectSort` model that outcome: the text changes and the list does not.
- The Tk/customtkinter user interface is not modelled, apart from the
  values the model reads from it. Not modelled: widget layout, colours,
  message boxes, the list of record cards, the submit button's
  enabling, and the reporter's form clearing and auto-clear timer.
- File I/O and `json.load`/`json.dump` are replaced by the `StoreFile`
  outcome. A write is the array returned by the operation.
- File errors other than a missing file are not modelled: a file that
  cannot be opened (`PermissionError`) or bytes that are not valid text
  (`UnicodeDecodeError`, which is not a `JSONDecodeError`) escape both
  `submit_bug` (report_user.py:40-48) and `load_bugs`, and nothing is
  written. `StoreFile` has no outcome for them.
- `datetime.now()` becomes a clock-reading parameter.
- Timestamp.Format: renders `%Y` as four zero-padded digits, which is what
  Python's strftime gives for the years 1000 to 9999. Years below 1000 are
  rendered without padding on some C libraries, and this is not modelled.
- Records with a missing key or a priority or status outside the known
  values are not modelled: every stored record is a well-formed `Bug`.
  The source does not reject them in one place:
  - A status outside "Open" and "Resolved" (say "Closed") raises nowhere.
    It fails both status filters (admin_panel.py:103, 105) and is sorted
    as a string under "Status" (:122), so "Closed" comes before "Open".
  - An unknown priority is filtered without error: a status filter keeps
    it, a priority filter drops it (:107). It raises `KeyError` only under a priority sort (:117, :120), or when its
    card is built for a record that is not Resolved (:167).
  - A missing key raises `KeyError` where the key is first read: in a
    filter or sort that reads it (:103-122), on the record's card
    (`program`, `title`, `status` and `priority` at :154-155), or in
    `show_bug_details` (`timestamp` at :185, under every sort text but the
    two date sorts, which read it first at :112 and :114; `description`
    at :186). The `name` key may be
    missing; it is read with a default (:184).
- Query.Load: a top-level JSON value that is not an array always ends in
  `NotAList`, and the panel keeps its list. In the source the outcome
  depends on the two texts. Under "All" (or any unknown filter) with a
  sort text that is no label, `load_bugs` returns the value itself, and
  `update_bug_display` stores it in `self.bugs` before it builds
  the cards; an empty object shows nothing, and a later `mark_resolved`
  scans that value instead of the previous list. Under a status or
  priority filter, an empty object or string gives an empty list, which
  is then sorted and shown, and any other value raises. Under "All" with
  a sort label the value has no `sort` method and the load raises. The
  model's list holds records only, so it cannot hold such a value.
- Query.SortBy is a reference stable insertion sort, not Timsort.
  `SortUnique` shows any stable sort gives the same list, so only the
  algorithm differs.
- Admin.AdminPanel.constructor: `__init__` also refreshes the display from
  the file (admin_panel.py:22). The model leaves that to a following
  `Refresh` call, which is faithful only when that first load succeeds.
  Under the start-up texts "All" and "Date (Newest)", a file that is not
  JSON raises in `json.load` (:98), and a top level that is not an array
  raises `AttributeError` at `bugs.sort` (:112). The exception leaves
  `__init__`, so `AdminPanel(root)` (:210) fails and the program ends
  before `mainloop`. In the model, `Refresh(Corrupt)` or
  `Refresh(NonList)` on a new panel instead leaves a live panel showing
  an empty list.
- Concurrent writers: the two windows do not coordinate their writes to
  the file.
- The detail text: only the facts above are stated about it. It contains
  the title and the submitter, with "Anonymous" for an unnamed record.

## Findings

| source | as written | input that shows it | evidently intended | confidence | as-written member | corrected member |
|---|---|---|---|---|---|---|
| admin_panel.py:197-201 | `mark_resolved` writes `self.bugs`, the filtered and sorted view, as the whole file | a store with one High and one Low open record, filter "High", resolve the High record | only the selected record changes, and every stored record is kept | high, not executed | Findings.FilteredResolveLosesRecords | Findings.ResolveSelected |
| admin_panel.py:44-50 | both comboboxes pass the choice to `update_bug_display`, which takes no argument, so choosing a filter or a sort reloads nothing | a panel showing one High and one Low record, "High" chosen in the filter box | the list is reloaded under the chosen filter or sort | medium (rests on the combobox's callback signature), not executed | Findings.FilterChoiceLeavesStaleList | Admin.AdminPanel.SelectFilterAndReload |
| admin_panel.py:194-197 | the record to resolve is the first open one whose title occurs in the detail text | records titled "Crash" then "Crash on save", both open, with "Crash on save" selected | the selected record is the one resolved | high, not executed | Findings.TitleMatchResolvesOtherRecord | Findings.ResolveSelected |
