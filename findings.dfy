/**
 * Three defects of the admin panel (admin_panel.py) as written, each shown
 * on concrete records: `mark_resolved` resolves the first open title match
 * rather than the selected record, and writes the filtered view over the
 * whole store; and the filter and sort boxes do not reload the list. Also
 * the resolution `mark_resolved` evidently intends: the record the
 * administrator clicked, and only it, becomes Resolved in the whole store.
 */
module Findings {
  import opened Bugs
  import opened Strings
  import opened Query
  import opened Admin

  /**
   * As written, the array that is written back is the current view. Under
   * the "High" filter a store holding a High and a Low record shows only
   * the High one, so resolving it writes a one-record file and the Low
   * record is gone from the store.
   */
  lemma FilteredResolveLosesRecords(a: Bug, b: Bug, sortText: string)
    requires a.priority == High && a.status == Open && b.priority == Low
    ensures View([a, b], "High", sortText) == [a]
    ensures ResolveFirst(View([a, b], "High", sortText), Details(a)) == Some([AsResolved(a)])
    ensures b !in ResolveFirst(View([a, b], "High", sortText), Details(a)).value
  {
    HighViewOfPair(a, b, sortText);
    ResolveLone(a);
  }

  /** Under "High", a High record followed by a Low one is shown alone. */
  lemma HighViewOfPair(a: Bug, b: Bug, sortText: string)
    requires a.priority == High && b.priority == Low
    ensures View([a, b], "High", sortText) == [a]
  {
    var c := ParseFilter("High");
    assert [a, b][..1] == [a] && [a][..0] == [];
    assert Select([a, b], c) == [a];
    assert View([a, b], "High", sortText) == View([a], "High", sortText);
    ViewSingleton(a, "High", sortText);
  }

  /** Resolving the only record of a view through its own detail text. */
  lemma ResolveLone(a: Bug)
    requires a.status == Open
    ensures ResolveFirst([a], Details(a)) == Some([AsResolved(a)])
  {
    DetailsShowRecord(a);
    assert IsFirstMatch([a], Details(a), 0);
    var w := ResolveFirst([a], Details(a)).value;
    assert w[0] == AsResolved(a);
    assert w == [AsResolved(a)];
  }

  /**
   * As written, the record to resolve is the first open one whose title
   * occurs in the detail text. With "Crash" listed above "Crash on save",
   * resolving "Crash on save" resolves "Crash" instead and leaves the
   * selected record open.
   */
  lemma TitleMatchResolvesOtherRecord(x: Bug, y: Bug)
    requires x.title == "Crash" && y.title == "Crash on save"
    requires x.status == Open && y.status == Open
    ensures ResolveFirst([x, y], Details(y)) == Some([AsResolved(x), y])
  {
    DetailsShowRecord(y);
    assert y.title == x.title + " on save";
    ContainsPrefixOf(Details(y), x.title, " on save");
    assert IsFirstMatch([x, y], Details(y), 0);
    assert !IsFirstMatch([x, y], Details(y), 1);
    var w := ResolveFirst([x, y], Details(y)).value;
    assert w[0] == AsResolved(x) && w[1] == y;
    assert w == [AsResolved(x), y];
  }

  /**
   * As wired, choosing "High" in the filter box does not reload: a panel
   * showing a High and a Low record keeps showing both, while the view
   * under "High" holds the High record alone.
   */
  method FilterChoiceLeavesStaleList(a: Bug, b: Bug) returns (shown: seq<Bug>, filtered: seq<Bug>)
    requires a.priority == High && b.priority == Low
    ensures filtered == View([a, b], "High", "Date (Newest)") && filtered == [a]
    ensures |shown| == 2 && shown != filtered
  {
    var panel := new AdminPanel();
    var loaded := panel.Refresh(List([a, b]));
    AllShowsEverything([a, b], panel.sortText);
    panel.SelectFilter("High");
    shown := panel.bugs;
    filtered := View([a, b], "High", panel.sortText);
    HighViewOfPair(a, b, "Date (Newest)");
  }

  /** Under "All" every stored record is shown. */
  lemma AllShowsEverything(stored: seq<Bug>, sortText: string)
    ensures |View(stored, "All", sortText)| == |stored|
  {
    SelectEverything(stored, All);
  }

  datatype ResolveError = NotFound | AlreadyResolved

  /** The position of the first copy of `target` in `store`. */
  function Locate(store: seq<Bug>, target: Bug): (r: Option<nat>)
    ensures r.Some? ==> r.value < |store| && store[r.value] == target
    ensures r.Some? ==> forall k :: 0 <= k < r.value ==> store[k] != target
    ensures r.None? <==> target !in store
  {
    if store == [] then None
    else if store[0] == target then Some(0)
    else
      assert store == [store[0]] + store[1..];
      match Locate(store[1..], target)
      case None => None
      case Some(i) => Some(i + 1)
  }

  /**
   * The resolution `mark_resolved` is meant to perform: the record shown at
   * `index` of the view is found in the whole store and that record is
   * resolved; every other stored record, shown or not, is written back
   * unchanged. An index outside the view or a record no longer stored is
   * NotFound, and a record already resolved is refused.
   */
  function ResolveSelected(store: seq<Bug>, view: seq<Bug>, index: nat): (r: Result<seq<Bug>, ResolveError>)
    ensures r == Failure(AlreadyResolved) <==> index < |view| && view[index].status == Resolved
    ensures r == Failure(NotFound) <==> index >= |view| || (view[index].status == Open && view[index] !in store)
    ensures r.Success? ==> |r.value| == |store|
    ensures r.Success? ==>
      (exists j :: 0 <= j < |store| && store[j] == view[index] && r.value == store[j := AsResolved(store[j])])
    ensures r.Success? ==>
      multiset(r.value) == multiset(store) - multiset{view[index]} + multiset{AsResolved(view[index])}
  {
    if index >= |view| then Failure(NotFound)
    else if view[index].status == Resolved then Failure(AlreadyResolved)
    else
      var found := Locate(store, view[index]);
      if found.None? then
        assert view[index] !in store;
        assert view[index].status == Open;
        Failure(NotFound)
      else
        var j := found.value;
        Success(store[j := AsResolved(store[j])])
  }

  /**
   * Every open record the panel shows can be resolved: whatever the filter
   * and the sort, it is found in the store.
   */
  lemma ShownRecordResolves(store: seq<Bug>, filterText: string, sortText: string, index: nat)
    requires index < |View(store, filterText, sortText)|
    requires View(store, filterText, sortText)[index].status == Open
    ensures ResolveSelected(store, View(store, filterText, sortText), index).Success?
  {
    var view := View(store, filterText, sortText);
    var b := view[index];
    assert b in multiset(view);
    SelectCount(store, ParseFilter(filterText), b);
  }

  /**
   * After a resolution the store holds the resolved record, and selecting
   * it there a second time is refused as already resolved.
   */
  lemma ResolveOnlyOnce(store: seq<Bug>, view: seq<Bug>, index: nat)
    requires ResolveSelected(store, view, index).Success?
    ensures var w := ResolveSelected(store, view, index).value;
      exists k :: 0 <= k < |w| && w[k] == AsResolved(view[index]) &&
        ResolveSelected(w, w, k) == Failure(AlreadyResolved)
  {
    var w := ResolveSelected(store, view, index).value;
    var j :| 0 <= j < |store| && store[j] == view[index] && w == store[j := AsResolved(store[j])];
    assert w[j] == AsResolved(view[index]);
  }
}
