/**
 * The reporter window (report_user.py): the mandatory-field check and the
 * submission, which builds a record, reads the store with every failure
 * treated as an empty list, appends the record and writes the list back.
 */
module Reporter {
  import opened Bugs
  import opened Strings
  import Timestamp
  import Query

  /** The form's fields when Submit is pressed. */
  datatype Form = Form(name: string, program: string, priority: Priority, title: string, description: string)

  datatype SubmitError = MissingField

  /** Some character of `s` is not white space. */
  predicate HasVisible(s: string) {
    exists i :: 0 <= i < |s| && !IsSpace(s[i])
  }

  /**
   * `validate_fields`: name, title and description must each be non-empty
   * once stripped; program and priority are not looked at.
   */
  function ValidateFields(form: Form): (ok: bool)
    ensures ok <==> HasVisible(form.name) && HasVisible(form.title) && HasVisible(form.description)
  {
    Strip(form.name) != [] && Strip(form.title) != [] && Strip(form.description) != []
  }

  /**
   * The dictionary `submit_bug` builds: the fields as entered (the name is
   * not stripped), the stamp of the clock reading, and status Open.
   */
  function NewRecord(form: Form, clock: Timestamp.Clock): (b: Bug)
    requires Timestamp.Valid(clock)
    ensures b.status == Open && Timestamp.WellFormed(b.timestamp)
  {
    Bug(Some(form.name), form.program, form.priority, form.title, form.description,
        Timestamp.Format(clock), Open)
  }

  /**
   * The list `submit_bug` starts from: the stored array, or the empty list
   * when the file is missing, is not JSON, or does not hold an array.
   */
  function Existing(file: StoreFile): (bugs: seq<Bug>)
    ensures file.List? ==> bugs == file.records
    ensures !file.List? ==> bugs == []
  {
    match file
    case List(records) => records
    case _ => []
  }

  /**
   * `submit_bug`: an incomplete form is refused and nothing is written;
   * otherwise the written array is the existing list with the new record
   * appended.
   */
  method SubmitBug(form: Form, file: StoreFile, clock: Timestamp.Clock) returns (outcome: Result<seq<Bug>, SubmitError>)
    requires Timestamp.Valid(clock)
    ensures outcome.Failure? <==> !ValidateFields(form)
    ensures outcome.Success? ==> outcome.value == Existing(file) + [NewRecord(form, clock)]
  {
    if !ValidateFields(form) {
      return Failure(MissingField);
    }
    var data := NewRecord(form, clock);
    var bugs: seq<Bug>;
    match file {
      case List(records) =>
        bugs := records;
      case _ =>
        bugs := [];
    }
    bugs := bugs + [data];
    outcome := Success(bugs);
  }

  /**
   * Appending keeps every stored record where it was, and the admin panel,
   * reading the written file back with every record shown and no sort,
   * lists the old records followed by the new one; on a missing file, a
   * file that is not JSON or a non-array file that is the new record alone.
   */
  lemma AppendRoundTrip(file: StoreFile, rec: Bug)
    ensures Query.Load(List(Existing(file) + [rec]), "All", "") == Success(Existing(file) + [rec])
    ensures (Existing(file) + [rec])[..|Existing(file)|] == Existing(file)
    ensures !file.List? ==> Query.Load(List(Existing(file) + [rec]), "All", "") == Success([rec])
  {
    var written := Existing(file) + [rec];
    Query.PlainTexts();
    Query.ViewUnknownTexts(written, "All", "");
    assert written[..|Existing(file)|] == Existing(file);
  }

  /**
   * In the admin panel, the record just appended is shown under a filter
   * exactly when it passes the filter, and the other records shown are
   * those shown before.
   */
  lemma AppendedRecordInView(stored: seq<Bug>, rec: Bug, filterText: string, sortText: string)
    ensures multiset(Query.View(stored + [rec], filterText, sortText)) ==
      multiset(Query.View(stored, filterText, sortText)) +
      (if Query.Holds(Query.ParseFilter(filterText), rec) then multiset{rec} else multiset{})
  {
    var c := Query.ParseFilter(filterText);
    Query.SelectAppend(stored, [rec], c);
    assert [rec][..0] == [];
  }

  /** The example form fills in every mandatory field. */
  lemma ExampleFormComplete()
    ensures ValidateFields(Form("A", "XRAYD", High, "T1", "D1"))
  {
    var form := Form("A", "XRAYD", High, "T1", "D1");
    assert !IsSpace(form.name[0]) && !IsSpace(form.title[0]) && !IsSpace(form.description[0]);
  }

  /** A lone High record is shown under the "High" filter and hidden under "Low". */
  lemma LoneHighRecord(rec: Bug)
    requires rec.priority == High
    ensures Query.View([rec], "High", "Date (Newest)") == [rec]
    ensures Query.View([rec], "Low", "Date (Newest)") == []
  {
    Query.ViewSingleton(rec, "High", "Date (Newest)");
    Query.ViewSingleton(rec, "Low", "Date (Newest)");
  }

  /**
   * The example of a first submission: with no store file, a complete
   * High-priority report becomes the only record, Open, shown under the
   * "High" filter and not under "Low".
   */
  lemma FirstSubmission(clock: Timestamp.Clock, rec: Bug)
    requires Timestamp.Valid(clock)
    requires rec == NewRecord(Form("A", "XRAYD", High, "T1", "D1"), clock)
    ensures ValidateFields(Form("A", "XRAYD", High, "T1", "D1"))
    ensures Existing(Absent) == [] && rec.status == Open
    ensures Query.View([rec], "High", "Date (Newest)") == [rec]
    ensures Query.View([rec], "Low", "Date (Newest)") == []
  {
    ExampleFormComplete();
    LoneHighRecord(rec);
  }
}
