/**
 * The admin panel (`AdminPanel` in admin_panel.py): it keeps the current
 * view of the store in `bugs`, shows one record's details, and marks the
 * first open record whose title occurs in the detail text as resolved,
 * writing the view back to the store file.
 */
module Admin {
  import opened Bugs
  import opened Strings
  import opened Query

  /** `bug.get('name', 'Anonymous')`. */
  function Submitter(b: Bug): string {
    match b.name
    case Some(n) => n
    case None => "Anonymous"
  }

  /** The text the detail pane shows for a record. */
  function Details(b: Bug): string {
    var header := "Program: " + b.program + "\nTitle: ";
    var middle := "\nPriority: " + PriorityText(b.priority) + "\nStatus: " + StatusText(b.status) +
      "\nSubmitted by: ";
    var footer := "\nDate: " + b.timestamp + "\n\nDescription:\n" + b.description;
    header + b.title + middle + Submitter(b) + footer
  }

  /** The detail text shows the record's title and its submitter, "Anonymous" when unnamed. */
  lemma DetailsShowRecord(b: Bug)
    ensures Contains(Details(b), b.title)
    ensures Contains(Details(b), Submitter(b))
    ensures b.name.None? ==> Contains(Details(b), "Anonymous")
  {
    var header := "Program: " + b.program + "\nTitle: ";
    var middle := "\nPriority: " + PriorityText(b.priority) + "\nStatus: " + StatusText(b.status) +
      "\nSubmitted by: ";
    var footer := "\nDate: " + b.timestamp + "\n\nDescription:\n" + b.description;
    ContainsInfix(header, b.title, middle);
    ContainsExtend(header + b.title + middle, Submitter(b), b.title);
    ContainsExtend(header + b.title + middle + Submitter(b), footer, b.title);
    ContainsInfix(header + b.title + middle, Submitter(b), footer);
  }

  /** The test `bug["title"] in selected_text and bug["status"] == "Open"`. */
  predicate Matches(b: Bug, text: string) {
    Contains(text, b.title) && b.status == Open
  }

  /** Position `j` holds the first record of `view` that matches `text`. */
  predicate IsFirstMatch(view: seq<Bug>, text: string, j: int) {
    0 <= j < |view| && Matches(view[j], text) &&
    forall k :: 0 <= k < j ==> !Matches(view[k], text)
  }

  /** Where the scan of `mark_resolved` stops, if anywhere. */
  function FirstMatch(view: seq<Bug>, text: string): (r: Option<nat>)
    ensures r.Some? ==> IsFirstMatch(view, text, r.value)
    ensures r.None? ==> forall j :: 0 <= j < |view| ==> !Matches(view[j], text)
  {
    if view == [] then None
    else if Matches(view[0], text) then Some(0)
    else match FirstMatch(view[1..], text)
      case None => None
      case Some(i) => Some(i + 1)
  }

  /** The first match is unique, so the scan stops exactly there. */
  lemma FirstMatchAt(view: seq<Bug>, text: string, i: int)
    requires IsFirstMatch(view, text, i)
    ensures FirstMatch(view, text) == Some(i)
  {
    var r := FirstMatch(view, text);
    if r.Some? {
      assert !(r.value < i) && !(i < r.value);
    }
  }

  /**
   * The array `mark_resolved` writes, if it writes: the view with exactly
   * its first matching record resolved and every other record as it was.
   */
  function ResolveFirst(view: seq<Bug>, text: string): (w: Option<seq<Bug>>)
    ensures w.None? <==> forall j :: 0 <= j < |view| ==> !Matches(view[j], text)
    ensures w.Some? ==> |w.value| == |view|
    ensures w.Some? ==> forall j :: 0 <= j < |view| ==>
      w.value[j] == if IsFirstMatch(view, text, j) then AsResolved(view[j]) else view[j]
  {
    match FirstMatch(view, text)
    case None => None
    case Some(i) => Some(view[i := AsResolved(view[i])])
  }

  /**
   * When the detail text of an open record of the view is the selected
   * text, the scan stops at that record or at an earlier match.
   */
  lemma ShownOpenRecordIsFound(view: seq<Bug>, k: nat)
    requires k < |view| && view[k].status == Open
    ensures FirstMatch(view, Details(view[k])).Some?
    ensures FirstMatch(view, Details(view[k])).value <= k
  {
    DetailsShowRecord(view[k]);
    assert Matches(view[k], Details(view[k]));
  }

  class AdminPanel {
    /** The filter box's text (`filter_var`). */
    var filterText: string
    /** The sort box's text (`sort_var`). */
    var sortText: string
    /**
     * `self.bugs`: the list the last successful load stored. A load that
     * raises clears the cards but leaves this list, which a resolve then
     * still scans.
     */
    var bugs: seq<Bug>

    /** `__init__` before its first refresh: the default sort and filter. */
    constructor ()
      ensures filterText == "All" && sortText == "Date (Newest)" && bugs == []
    {
      filterText := "All";
      sortText := "Date (Newest)";
      bugs := [];
    }

    /**
     * `load_bugs`: filter the parsed array, then sort it in place unless
     * the sort text is unknown.
     */
    method LoadBugs(file: StoreFile) returns (r: Result<seq<Bug>, LoadError>)
      ensures r == Load(file, filterText, sortText)
      ensures file.List? ==> r.Success? && multiset(r.value) == multiset(Select(file.records, ParseFilter(filterText)))
    {
      match file {
        case Absent =>
          r := Success([]);
        case Corrupt =>
          r := Failure(MalformedJson);
        case NonList =>
          r := Failure(NotAList);
        case List(stored) =>
          var view := stored;
          var c := ParseFilter(filterText);
          if c != All {
            view := Select(view, c);
          }
          var o := ParseOrder(sortText);
          if o != Unsorted {
            view := SortBy(view, o);
          }
          r := Success(view);
      }
    }

    /**
     * `update_bug_display`, as the Refresh button and a successful resolve
     * call it: reload the view; a load that raises leaves `bugs` as it was.
     */
    method Refresh(file: StoreFile) returns (ok: bool)
      modifies this
      ensures filterText == old(filterText) && sortText == old(sortText)
      ensures ok <==> Load(file, filterText, sortText).Success?
      ensures ok ==> bugs == Load(file, filterText, sortText).value
      ensures !ok ==> bugs == old(bugs)
    {
      var r := LoadBugs(file);
      ok := r.Success?;
      if ok {
        bugs := r.value;
      }
    }

    /**
     * Choosing in the filter box, as wired: the box stores the chosen text,
     * then passes the choice to `update_bug_display`, which takes no
     * argument, so the call fails before anything is cleared or loaded,
     * and `self.bugs` stays as it was.
     */
    method SelectFilter(text: string)
      modifies this
      ensures filterText == text && sortText == old(sortText)
      ensures bugs == old(bugs)
    {
      filterText := text;
    }

    /** Choosing in the sort box, as wired: the text is stored and the list stays as it was. */
    method SelectSort(text: string)
      modifies this
      ensures sortText == text && filterText == old(filterText)
      ensures bugs == old(bugs)
    {
      sortText := text;
    }

    /** Choosing a filter as evidently intended: store the text and reload under it. */
    method SelectFilterAndReload(text: string, file: StoreFile) returns (ok: bool)
      modifies this
      ensures filterText == text && sortText == old(sortText)
      ensures ok <==> Load(file, text, sortText).Success?
      ensures ok ==> bugs == Load(file, text, sortText).value
      ensures !ok ==> bugs == old(bugs)
    {
      SelectFilter(text);
      ok := Refresh(file);
    }

    /** Choosing a sort as evidently intended: store the text and reload under it. */
    method SelectSortAndReload(text: string, file: StoreFile) returns (ok: bool)
      modifies this
      ensures sortText == text && filterText == old(filterText)
      ensures ok <==> Load(file, filterText, text).Success?
      ensures ok ==> bugs == Load(file, filterText, text).value
      ensures !ok ==> bugs == old(bugs)
    {
      SelectSort(text);
      ok := Refresh(file);
    }

    /**
     * `show_bug_details`: the detail text of the clicked record, which
     * shows its title, and whether the resolve button is enabled.
     */
    method ShowBugDetails(index: nat) returns (text: string, resolveEnabled: bool)
      requires index < |bugs|
      ensures text == Details(bugs[index])
      ensures Contains(text, bugs[index].title)
      ensures resolveEnabled <==> bugs[index].status == Open
    {
      var bug := bugs[index];
      text := Details(bug);
      DetailsShowRecord(bug);
      resolveEnabled := bug.status == Open;
    }

    /**
     * `mark_resolved`: scan the view for the first open record whose title
     * occurs in the selected text; if there is one, resolve it, write the
     * whole view to the file and reload the view from what was written.
     * Otherwise nothing changes and nothing is written.
     */
    method MarkResolved(selectedText: string) returns (written: Option<seq<Bug>>)
      modifies this
      ensures filterText == old(filterText) && sortText == old(sortText)
      ensures written == ResolveFirst(old(bugs), selectedText)
      ensures written.None? ==> bugs == old(bugs)
      ensures written.Some? ==> bugs == View(written.value, filterText, sortText)
    {
      var i := 0;
      while i < |bugs|
        invariant 0 <= i <= |bugs|
        invariant bugs == old(bugs)
        invariant forall k :: 0 <= k < i ==> !Matches(bugs[k], selectedText)
      {
        if Contains(selectedText, bugs[i].title) && bugs[i].status == Open {
          FirstMatchAt(bugs, selectedText, i);
          bugs := bugs[i := AsResolved(bugs[i])];
          written := Some(bugs);
          var reloaded := LoadBugs(List(bugs));
          bugs := reloaded.value;
          return;
        }
        i := i + 1;
      }
      written := None;
    }
  }
}
