/**
 * The admin panel's query pipeline (`AdminPanel.load_bugs`): keep the
 * records the filter selects, then order them by the chosen sort key with
 * a stable sort. Python's `list.sort` is specified here by a stable
 * insertion sort, `SortBy`, which is shown to be the only ordered and
 * stable rearrangement of its input.
 */
module Query {
  import opened Bugs
  import opened Strings
  import Timestamp

  /** The sort box's choices; any other text leaves the order alone. */
  datatype Order = DateNewest | DateOldest | PriorityHighLow | PriorityLowHigh | StatusOrder | Unsorted

  /**
   * Which records a selection keeps: the filter box gives the first three;
   * `SameKeyAs` keeps the records whose sort key equals that of `rep`, and
   * is used to state that sorting is stable.
   */
  datatype Criterion =
    | All
    | StatusIs(status: Status)
    | PriorityIs(priority: Priority)
    | SameKeyAs(order: Order, rep: Bug)

  /** The filter box's text as a criterion; unknown text, like "All", selects everything. */
  function ParseFilter(text: string): (c: Criterion)
    ensures c.StatusIs? <==> text == "Open" || text == "Resolved"
    ensures c.PriorityIs? <==> text == "High" || text == "Medium" || text == "Low"
    ensures c.StatusIs? ==> StatusText(c.status) == text
    ensures c.PriorityIs? ==> PriorityText(c.priority) == text
    ensures !c.SameKeyAs?
  {
    if text == "Open" then StatusIs(Open)
    else if text == "Resolved" then StatusIs(Resolved)
    else if text == "High" then PriorityIs(High)
    else if text == "Medium" then PriorityIs(Medium)
    else if text == "Low" then PriorityIs(Low)
    else All
  }

  /** The sort box's label for each order. */
  function OrderText(o: Order): string {
    match o
    case DateNewest => "Date (Newest)"
    case DateOldest => "Date (Oldest)"
    case PriorityHighLow => "Priority (High-Low)"
    case PriorityLowHigh => "Priority (Low-High)"
    case StatusOrder => "Status"
    case Unsorted => ""
  }

  /** The sort box's text as an order; text that is no label means no sorting. */
  function ParseOrder(text: string): (o: Order)
    ensures o != Unsorted ==> OrderText(o) == text
    ensures o == Unsorted <==> forall p: Order :: p != Unsorted ==> OrderText(p) != text
  {
    if text == "Date (Newest)" then DateNewest
    else if text == "Date (Oldest)" then DateOldest
    else if text == "Priority (High-Low)" then PriorityHighLow
    else if text == "Priority (Low-High)" then PriorityLowHigh
    else if text == "Status" then StatusOrder
    else Unsorted
  }

  /** Whether record `b` passes `c`. */
  predicate Holds(c: Criterion, b: Bug) {
    match c
    case All => true
    case StatusIs(s) => b.status == s
    case PriorityIs(p) => b.priority == p
    case SameKeyAs(o, rep) => SameKey(o, b, rep)
  }

  /**
   * The list comprehension `[b for b in s if ...]`: the records of `s`
   * that pass `c`, each as often as in `s` and no other.
   */
  function Select(s: seq<Bug>, c: Criterion): (r: seq<Bug>)
    ensures |r| <= |s|
  {
    if s == [] then []
    else Select(s[..|s| - 1], c) + (if Holds(c, s[|s| - 1]) then [s[|s| - 1]] else [])
  }

  /**
   * The selection holds each record that passes `c` as often as `s` does,
   * and no other record: nothing omitted, nothing duplicated.
   */
  lemma {:induction false} SelectCount(s: seq<Bug>, c: Criterion, b: Bug)
    ensures multiset(Select(s, c))[b] == if Holds(c, b) then multiset(s)[b] else 0
  {
    if s != [] {
      var init, last := s[..|s| - 1], s[|s| - 1];
      assert s == init + [last];
      SelectCount(init, c, b);
    }
  }

  /** Selection works piece by piece, so the kept records stay in their input order. */
  lemma {:induction false} SelectAppend(a: seq<Bug>, b: seq<Bug>, c: Criterion)
    ensures Select(a + b, c) == Select(a, c) + Select(b, c)
  {
    if b == [] {
      assert a + b == a;
    } else {
      var init, last := b[..|b| - 1], b[|b| - 1];
      assert (a + b)[..|a + b| - 1] == a + init;
      SelectAppend(a, init, c);
    }
  }

  /** A selection that every record passes keeps the sequence as it is. */
  lemma {:induction false} SelectEverything(s: seq<Bug>, c: Criterion)
    requires forall i :: 0 <= i < |s| ==> Holds(c, s[i])
    ensures Select(s, c) == s
  {
    if s != [] {
      SelectEverything(s[..|s| - 1], c);
    }
  }

  /** The sort key of `o`, compared: `x` goes strictly ahead of `y`. */
  predicate Before(o: Order, x: Bug, y: Bug) {
    match o
    case DateNewest => StrLess(y.timestamp, x.timestamp)
    case DateOldest => StrLess(x.timestamp, y.timestamp)
    case PriorityHighLow => Rank(x.priority) > Rank(y.priority)
    case PriorityLowHigh => Rank(x.priority) < Rank(y.priority)
    case StatusOrder => StrLess(StatusText(x.status), StatusText(y.status))
    case Unsorted => false
  }

  /** `x` and `y` have the same sort key under `o`. */
  predicate SameKey(o: Order, x: Bug, y: Bug) {
    match o
    case DateNewest | DateOldest => x.timestamp == y.timestamp
    case PriorityHighLow | PriorityLowHigh => Rank(x.priority) == Rank(y.priority)
    case StatusOrder => StatusText(x.status) == StatusText(y.status)
    case Unsorted => true
  }

  /** Records with the same key are never ahead of each other, and "ahead" is one-way. */
  lemma BeforeExcludes(o: Order, x: Bug, y: Bug)
    requires Before(o, x, y)
    ensures !Before(o, y, x) && !SameKey(o, x, y)
  {
    match o
    case DateNewest =>
      StrLessAsymmetric(y.timestamp, x.timestamp);
      StrLessIrreflexive(x.timestamp);
    case DateOldest =>
      StrLessAsymmetric(x.timestamp, y.timestamp);
      StrLessIrreflexive(x.timestamp);
    case StatusOrder =>
      StrLessAsymmetric(StatusText(x.status), StatusText(y.status));
      StrLessIrreflexive(StatusText(x.status));
    case _ =>
  }

  /** Of two records, one is ahead or they share a key. */
  lemma BeforeTotal(o: Order, x: Bug, y: Bug)
    ensures Before(o, x, y) || Before(o, y, x) || SameKey(o, x, y)
  {
    match o
    case DateNewest => StrLessTotal(x.timestamp, y.timestamp);
    case DateOldest => StrLessTotal(x.timestamp, y.timestamp);
    case StatusOrder => StrLessTotal(StatusText(x.status), StatusText(y.status));
    case _ =>
  }

  /** "Not ahead of" is transitive. */
  lemma NotBeforeTransitive(o: Order, x: Bug, y: Bug, z: Bug)
    requires !Before(o, x, y) && !Before(o, y, z)
    ensures !Before(o, x, z)
  {
    BeforeTotal(o, x, y);
    BeforeTotal(o, y, z);
    if Before(o, x, z) {
      BeforeExcludes(o, x, z);
      match o
      case DateNewest =>
        if StrLess(x.timestamp, y.timestamp) && StrLess(y.timestamp, z.timestamp) {
          StrLessTransitive(x.timestamp, y.timestamp, z.timestamp);
        }
      case DateOldest =>
        if StrLess(z.timestamp, y.timestamp) && StrLess(y.timestamp, x.timestamp) {
          StrLessTransitive(z.timestamp, y.timestamp, x.timestamp);
        }
      case StatusOrder =>
        var sx, sy, sz := StatusText(x.status), StatusText(y.status), StatusText(z.status);
        if StrLess(sz, sy) && StrLess(sy, sx) {
          StrLessTransitive(sz, sy, sx);
        }
      case _ =>
    }
  }

  /** No record is ahead of an earlier one: the result of a sort by `o`. */
  predicate Ordered(s: seq<Bug>, o: Order) {
    forall i, j :: 0 <= i < j < |s| ==> !Before(o, s[j], s[i])
  }

  /** `t` with `x` placed after every record it is not ahead of. */
  function Insert(t: seq<Bug>, x: Bug, o: Order): (r: seq<Bug>)
    ensures |r| == |t| + 1
    ensures multiset(r) == multiset(t) + multiset{x}
  {
    if t == [] then [x]
    else
      var init, last := t[..|t| - 1], t[|t| - 1];
      assert t == init + [last];
      if Before(o, x, last) then Insert(init, x, o) + [last] else t + [x]
  }

  /**
   * Stable sort of `s` by the key of `o`, as Python's `list.sort` does it,
   * `reverse=True` included; it rearranges `s` and neither adds nor drops a
   * record.
   */
  function SortBy(s: seq<Bug>, o: Order): (r: seq<Bug>)
    ensures |r| == |s|
    ensures multiset(r) == multiset(s)
  {
    if s == [] then []
    else
      assert s == s[..|s| - 1] + [s[|s| - 1]];
      Insert(SortBy(s[..|s| - 1], o), s[|s| - 1], o)
  }

  lemma {:induction false} InsertOrdered(t: seq<Bug>, x: Bug, o: Order)
    requires Ordered(t, o)
    ensures Ordered(Insert(t, x, o), o)
  {
    if t != [] {
      var init, last := t[..|t| - 1], t[|t| - 1];
      assert t == init + [last];
      OrderedSplit(init, last, o);
      if Before(o, x, last) {
        var u := Insert(init, x, o);
        InsertOrdered(init, x, o);
        BeforeExcludes(o, x, last);
        NoneAhead(u, init, x, last, o);
        OrderedSnoc(u, last, o);
      } else {
        forall i | 0 <= i < |t|
          ensures !Before(o, x, t[i])
        {
          if i < |t| - 1 {
            NotBeforeTransitive(o, x, last, t[i]);
          }
        }
        OrderedSnoc(t, x, o);
      }
    }
  }

  /** An ordered sequence is its ordered front followed by a record no earlier one is behind. */
  lemma OrderedSplit(init: seq<Bug>, last: Bug, o: Order)
    requires Ordered(init + [last], o)
    ensures Ordered(init, o)
    ensures forall i :: 0 <= i < |init| ==> !Before(o, last, init[i])
  {
    var t := init + [last];
    forall i, j | 0 <= i < j < |init|
      ensures !Before(o, init[j], init[i])
    {
      assert t[i] == init[i] && t[j] == init[j];
    }
    forall i | 0 <= i < |init|
      ensures !Before(o, last, init[i])
    {
      assert t[i] == init[i] && t[|init|] == last;
    }
  }

  lemma OrderedSnoc(u: seq<Bug>, last: Bug, o: Order)
    requires Ordered(u, o)
    requires forall i :: 0 <= i < |u| ==> !Before(o, last, u[i])
    ensures Ordered(u + [last], o)
  {
  }

  /** `last` is ahead of nothing in `init` and not of `x`, so of nothing in a rearrangement of both. */
  lemma NoneAhead(u: seq<Bug>, init: seq<Bug>, x: Bug, last: Bug, o: Order)
    requires multiset(u) == multiset(init) + multiset{x}
    requires forall k :: 0 <= k < |init| ==> !Before(o, last, init[k])
    requires !Before(o, last, x)
    ensures forall i :: 0 <= i < |u| ==> !Before(o, last, u[i])
  {
    forall i | 0 <= i < |u|
      ensures !Before(o, last, u[i])
    {
      assert u[i] in multiset(u);
      if u[i] != x {
        assert u[i] in multiset(init);
        var k :| 0 <= k < |init| && init[k] == u[i];
      }
    }
  }

  /** The sorted records are ordered by the key. */
  lemma {:induction false} SortOrdered(s: seq<Bug>, o: Order)
    ensures Ordered(SortBy(s, o), o)
  {
    if s != [] {
      SortOrdered(s[..|s| - 1], o);
      InsertOrdered(SortBy(s[..|s| - 1], o), s[|s| - 1], o);
    }
  }

  /** Records of different keys never both join the same key's list, so their order there is immaterial. */
  lemma TiesCommute(p: seq<Bug>, x: Bug, y: Bug, o: Order, rep: Bug)
    requires !SameKey(o, x, y)
    ensures p + (if SameKey(o, x, rep) then [x] else []) + (if SameKey(o, y, rep) then [y] else []) ==
            p + (if SameKey(o, y, rep) then [y] else []) + (if SameKey(o, x, rep) then [x] else [])
  {
  }

  /** Selecting from a sequence with one more record at the end. */
  lemma SelectSnoc(u: seq<Bug>, y: Bug, c: Criterion)
    ensures Select(u + [y], c) == Select(u, c) + (if Holds(c, y) then [y] else [])
  {
    assert (u + [y])[..|u|] == u;
  }

  lemma {:induction false} InsertKeepsTies(t: seq<Bug>, x: Bug, o: Order, rep: Bug)
    ensures Select(Insert(t, x, o), SameKeyAs(o, rep)) ==
            Select(t, SameKeyAs(o, rep)) + (if SameKey(o, x, rep) then [x] else [])
  {
    var c := SameKeyAs(o, rep);
    if t == [] {
      SelectSnoc([], x, c);
    } else {
      var init, last := t[..|t| - 1], t[|t| - 1];
      assert t == init + [last];
      SelectSnoc(init, last, c);
      if Before(o, x, last) {
        var u := Insert(init, x, o);
        InsertKeepsTies(init, x, o, rep);
        BeforeExcludes(o, x, last);
        SelectSnoc(u, last, c);
        TiesCommute(Select(init, c), x, last, o, rep);
      } else {
        SelectSnoc(t, x, c);
      }
    }
  }

  /** Stability: records with equal keys come out in their input order. */
  lemma {:induction false} SortStable(s: seq<Bug>, o: Order, rep: Bug)
    ensures Select(SortBy(s, o), SameKeyAs(o, rep)) == Select(s, SameKeyAs(o, rep))
  {
    if s != [] {
      SortStable(s[..|s| - 1], o, rep);
      InsertKeepsTies(SortBy(s[..|s| - 1], o), s[|s| - 1], o, rep);
    }
  }

  /** Input that is already ordered comes out unchanged. */
  lemma {:induction false} SortOfOrdered(s: seq<Bug>, o: Order)
    requires Ordered(s, o)
    ensures SortBy(s, o) == s
  {
    if s != [] {
      var init, last := s[..|s| - 1], s[|s| - 1];
      assert Ordered(init, o);
      SortOfOrdered(init, o);
      if init != [] {
        assert !Before(o, last, init[|init| - 1]);
      }
      assert s == init + [last];
    }
  }

  /** Sorting twice by the same key is sorting once. */
  lemma SortIdempotent(s: seq<Bug>, o: Order)
    ensures SortBy(SortBy(s, o), o) == SortBy(s, o)
  {
    SortOrdered(s, o);
    SortOfOrdered(SortBy(s, o), o);
  }

  /**
   * Two ordered sequences that agree on the records of every key, in
   * order, are equal.
   */
  lemma {:induction false} OrderedUnique(q: seq<Bug>, r: seq<Bug>, o: Order)
    requires Ordered(q, o) && Ordered(r, o)
    requires forall rep :: Select(q, SameKeyAs(o, rep)) == Select(r, SameKeyAs(o, rep))
    ensures q == r
    decreases |q|
  {
    if q == [] || r == [] {
      EmptyAgrees(q, r, o);
    } else {
      var q', r' := q[..|q| - 1], r[..|r| - 1];
      assert q == q' + [q[|q| - 1]] && r == r' + [r[|r| - 1]];
      LastsAgree(q, r, o);
      FrontsAgree(q, r, o);
      OrderedSplit(q', q[|q| - 1], o);
      OrderedSplit(r', r[|r| - 1], o);
      OrderedUnique(q', r', o);
    }
  }

  /** Only the empty sequence agrees with the empty sequence on every key. */
  lemma EmptyAgrees(q: seq<Bug>, r: seq<Bug>, o: Order)
    requires q == [] || r == []
    requires forall rep :: Select(q, SameKeyAs(o, rep)) == Select(r, SameKeyAs(o, rep))
    ensures q == r
  {
    var s := if q == [] then r else q;
    if s != [] {
      var rep := s[0];
      SelectCount(s, SameKeyAs(o, rep), rep);
    }
  }

  /** A list whose last record passes a filter keeps that record last. */
  lemma SelectKeepsLast(s: seq<Bug>, c: Criterion)
    requires s != [] && Holds(c, s[|s| - 1])
    ensures Select(s, c) != [] && Select(s, c)[|Select(s, c)| - 1] == s[|s| - 1]
  {
  }

  /** Ordered sequences that agree on every key end with the same record. */
  lemma LastsAgree(q: seq<Bug>, r: seq<Bug>, o: Order)
    requires q != [] && r != [] && Ordered(q, o) && Ordered(r, o)
    requires forall rep :: Select(q, SameKeyAs(o, rep)) == Select(r, SameKeyAs(o, rep))
    ensures q[|q| - 1] == r[|r| - 1]
  {
    var a, b := q[|q| - 1], r[|r| - 1];
    if !SameKey(o, a, b) {
      AheadOfLast(q, r, o, b);
      AheadOfLast(r, q, o, a);
      BeforeTotal(o, a, b);
    } else {
      var c := SameKeyAs(o, a);
      assert Select(q, c) == Select(r, c);
      SelectKeepsLast(q, c);
      SelectKeepsLast(r, c);
    }
  }

  /** Dropping the same last record from both keeps the agreement. */
  lemma FrontsAgree(q: seq<Bug>, r: seq<Bug>, o: Order)
    requires q != [] && r != [] && q[|q| - 1] == r[|r| - 1]
    requires forall rep :: Select(q, SameKeyAs(o, rep)) == Select(r, SameKeyAs(o, rep))
    ensures forall rep :: Select(q[..|q| - 1], SameKeyAs(o, rep)) == Select(r[..|r| - 1], SameKeyAs(o, rep))
  {
    var q', r', a := q[..|q| - 1], r[..|r| - 1], q[|q| - 1];
    assert q == q' + [a] && r == r' + [a];
    forall rep
      ensures Select(q', SameKeyAs(o, rep)) == Select(r', SameKeyAs(o, rep))
    {
      var d := SameKeyAs(o, rep);
      SelectSnoc(q', a, d);
      SelectSnoc(r', a, d);
      var x, y, tail := Select(q', d), Select(r', d), if Holds(d, a) then [a] else [];
      assert x + tail == y + tail;
      assert x == (x + tail)[..|x|] && y == (y + tail)[..|y|];
    }
  }

  /**
   * If `q` and `r` agree on the records of every key and `b` is in `r`
   * with a key other than that of `q`'s last record, then that last record
   * is not ahead of `b`.
   */
  lemma AheadOfLast(q: seq<Bug>, r: seq<Bug>, o: Order, b: Bug)
    requires q != [] && Ordered(q, o) && b in r
    requires forall rep :: Select(q, SameKeyAs(o, rep)) == Select(r, SameKeyAs(o, rep))
    requires !SameKey(o, q[|q| - 1], b)
    ensures !Before(o, q[|q| - 1], b)
  {
    var c := SameKeyAs(o, b);
    assert Holds(c, b);
    assert multiset(r)[b] > 0;
    SelectCount(r, c, b);
    SelectCount(q, c, b);
    assert Select(q, c) == Select(r, c);
    assert multiset(q)[b] == multiset(r)[b];
    assert b in q;
    var k :| 0 <= k < |q| && q[k] == b;
    assert k != |q| - 1;
    assert !Before(o, q[|q| - 1], q[k]);
  }

  /**
   * Stable sorting has one possible outcome: any ordered rearrangement of
   * `s` that keeps equal-key records in their input order is `SortBy(s, o)`.
   */
  lemma SortUnique(q: seq<Bug>, s: seq<Bug>, o: Order)
    requires Ordered(q, o)
    requires forall rep :: Select(q, SameKeyAs(o, rep)) == Select(s, SameKeyAs(o, rep))
    ensures q == SortBy(s, o)
  {
    SortOrdered(s, o);
    forall rep
      ensures Select(q, SameKeyAs(o, rep)) == Select(SortBy(s, o), SameKeyAs(o, rep))
    {
      SortStable(s, o, rep);
    }
    OrderedUnique(q, SortBy(s, o), o);
  }

  /** "Date (Oldest)" puts time stamps in non-decreasing string order, "Date (Newest)" in non-increasing. */
  lemma DateOrders(r: seq<Bug>)
    ensures Ordered(r, DateOldest) <==>
            forall i, j :: 0 <= i < j < |r| ==> !StrLess(r[j].timestamp, r[i].timestamp)
    ensures Ordered(r, DateNewest) <==>
            forall i, j :: 0 <= i < j < |r| ==> !StrLess(r[i].timestamp, r[j].timestamp)
  {
  }

  /**
   * For records stamped by the reporter, "Date (Oldest)" order is
   * chronological: no record was submitted before one ahead of it.
   */
  lemma OldestFirstIsChronological(r: seq<Bug>, clocks: seq<Timestamp.Clock>)
    requires |clocks| == |r|
    requires forall i :: 0 <= i < |r| ==> Timestamp.Valid(clocks[i]) && r[i].timestamp == Timestamp.Format(clocks[i])
    requires Ordered(r, DateOldest)
    ensures forall i, j :: 0 <= i < j < |r| ==> !Timestamp.Earlier(clocks[j], clocks[i])
  {
    forall i, j | 0 <= i < j < |r|
      ensures !Timestamp.Earlier(clocks[j], clocks[i])
    {
      Timestamp.TimestampOrder(clocks[j], clocks[i]);
    }
  }

  /** "Priority (High-Low)" puts ranks in non-increasing order, "Priority (Low-High)" in non-decreasing. */
  lemma PriorityOrders(r: seq<Bug>)
    ensures Ordered(r, PriorityHighLow) <==>
            forall i, j :: 0 <= i < j < |r| ==> Rank(r[i].priority) >= Rank(r[j].priority)
    ensures Ordered(r, PriorityLowHigh) <==>
            forall i, j :: 0 <= i < j < |r| ==> Rank(r[i].priority) <= Rank(r[j].priority)
  {
  }

  /** Under "Status", every Open record is ahead of every Resolved one. */
  lemma StatusOrders(r: seq<Bug>)
    ensures Ordered(r, StatusOrder) <==>
            forall i, j :: 0 <= i < j < |r| ==> !(r[i].status == Resolved && r[j].status == Open)
  {
    assert StrLess("Open", "Resolved");
    StrLessAsymmetric("Open", "Resolved");
    StrLessIrreflexive("Open");
    StrLessIrreflexive("Resolved");
  }

  /** What `load_bugs` does to the parsed array: filter, then sort unless the sort text is unknown. */
  function View(stored: seq<Bug>, filterText: string, sortText: string): (r: seq<Bug>)
    ensures multiset(r) == multiset(Select(stored, ParseFilter(filterText)))
    ensures ParseOrder(sortText) == Unsorted ==> r == Select(stored, ParseFilter(filterText))
    ensures Ordered(r, ParseOrder(sortText))
  {
    var c := ParseFilter(filterText);
    var filtered := if c == All then stored else Select(stored, c);
    SelectEverything(stored, All);
    var o := ParseOrder(sortText);
    SortOrdered(filtered, o);
    if o == Unsorted then filtered else SortBy(filtered, o)
  }

  /** The sorted view keeps filtered records of equal key in stored order. */
  lemma ViewStable(stored: seq<Bug>, filterText: string, sortText: string, rep: Bug)
    ensures var o := ParseOrder(sortText);
      Select(View(stored, filterText, sortText), SameKeyAs(o, rep)) ==
      Select(Select(stored, ParseFilter(filterText)), SameKeyAs(o, rep))
  {
    SelectEverything(stored, All);
    SortStable(Select(stored, ParseFilter(filterText)), ParseOrder(sortText), rep);
  }

  /** "All" selects every record and the empty sort text sorts nothing. */
  lemma PlainTexts()
    ensures ParseFilter("All") == All && ParseOrder("") == Unsorted
  {
  }

  /** With an unknown (or "All") filter and an unknown sort text the stored array is shown as is. */
  lemma ViewUnknownTexts(stored: seq<Bug>, filterText: string, sortText: string)
    requires ParseFilter(filterText) == All && ParseOrder(sortText) == Unsorted
    ensures View(stored, filterText, sortText) == stored
  {
    SelectEverything(stored, All);
  }

  /** A store of one record shows that record exactly when it passes the filter, whatever the sort. */
  lemma ViewSingleton(b: Bug, filterText: string, sortText: string)
    ensures View([b], filterText, sortText) == if Holds(ParseFilter(filterText), b) then [b] else []
  {
    var c := ParseFilter(filterText);
    assert [b][..0] == [];
    assert Select([b], c) == if Holds(c, b) then [b] else [];
    var r := View([b], filterText, sortText);
    if Holds(c, b) {
      assert multiset(r) == multiset{b};
      assert |r| == 1 && r[0] in multiset(r);
    } else {
      assert |multiset(r)| == 0;
    }
  }

  /** Two records, one ahead of the other, come out in that order from either arrangement. */
  lemma SortPair(x: Bug, y: Bug, o: Order)
    requires Before(o, y, x)
    ensures SortBy([x, y], o) == [y, x]
    ensures SortBy([y, x], o) == [y, x]
  {
    SortOne(x, o);
    SortOne(y, o);
    BeforeExcludes(o, y, x);
    assert Insert([x], y, o) == [y, x] by {
      assert [x][..0] == [];
      assert Insert([], y, o) == [y];
    }
    assert Insert([y], x, o) == [y, x];
    assert [x, y][..1] == [x] && [x, y][1] == y;
    assert SortBy([x, y], o) == Insert(SortBy([x], o), y, o);
    assert [y, x][..1] == [y] && [y, x][1] == x;
    assert SortBy([y, x], o) == Insert(SortBy([y], o), x, o);
  }

  /** A single record is already sorted. */
  lemma SortOne(b: Bug, o: Order)
    ensures SortBy([b], o) == [b]
  {
    assert [b][..0] == [];
  }

  /** With every record shown, a record ahead under "Date (Newest)" is listed first. */
  lemma PairNewestFirst(x: Bug, y: Bug)
    requires Before(DateNewest, y, x)
    ensures View([x, y], "All", "Date (Newest)") == [y, x]
    ensures View([y, x], "All", "Date (Newest)") == [y, x]
  {
    SortPair(x, y, DateNewest);
    SelectEverything([x, y], All);
    SelectEverything([y, x], All);
  }

  /** Under "Date (Newest)" the record stamped from the later reading is ahead. */
  lemma NewerAhead(older: Bug, newer: Bug, co: Timestamp.Clock, cn: Timestamp.Clock)
    requires Timestamp.Valid(co) && Timestamp.Valid(cn) && Timestamp.Earlier(co, cn)
    requires older.timestamp == Timestamp.Format(co) && newer.timestamp == Timestamp.Format(cn)
    ensures Before(DateNewest, newer, older)
  {
    Timestamp.TimestampOrder(co, cn);
  }

  /**
   * Of two records stamped from different clock readings, the later one
   * comes first under "Date (Newest)", whatever order they were stored in
   * (for example 2024-02-01 10:00:00 ahead of 2024-01-01 10:00:00).
   */
  lemma NewerFirst(older: Bug, newer: Bug, co: Timestamp.Clock, cn: Timestamp.Clock)
    requires Timestamp.Valid(co) && Timestamp.Valid(cn) && Timestamp.Earlier(co, cn)
    requires older.timestamp == Timestamp.Format(co) && newer.timestamp == Timestamp.Format(cn)
    ensures View([older, newer], "All", "Date (Newest)") == [newer, older]
    ensures View([newer, older], "All", "Date (Newest)") == [newer, older]
  {
    NewerAhead(older, newer, co, cn);
    PairNewestFirst(older, newer);
  }

  datatype LoadError = MalformedJson | NotAList

  /**
   * `load_bugs` on the file's contents: a missing file is an empty list;
   * the source catches nothing else, so text that is not JSON or a top level that
   * is not an array ends in an error.
   */
  function Load(file: StoreFile, filterText: string, sortText: string): (r: Result<seq<Bug>, LoadError>)
    ensures file.Absent? ==> r == Success([])
    ensures file.Corrupt? ==> r == Failure(MalformedJson)
    ensures file.NonList? ==> r == Failure(NotAList)
    ensures file.List? ==> r.Success? && |r.value| <= |file.records|
  {
    match file
    case Absent => Success([])
    case Corrupt => Failure(MalformedJson)
    case NonList => Failure(NotAList)
    case List(stored) => Success(View(stored, filterText, sortText))
  }
}
