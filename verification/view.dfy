/** The derived view `renderTasks` displays: the task list filtered by mode
    and search query, then stably sorted by descending priority. */
module View {
  import opened Text
  import opened Seqs
  import opened Tasks

  /** The three filter buttons. */
  datatype Mode = All | Active | Completed

  predicate MatchesMode(t: Task, m: Mode) {
    match m
    case All => true
    case Active => !t.completed
    case Completed => t.completed
  }

  /** The mode test: `all` admits every task, `active` exactly the open
      ones, `completed` exactly the done ones. */
  lemma ModeMeaning(t: Task, m: Mode)
    ensures m == All ==> MatchesMode(t, m)
    ensures m != All ==> (MatchesMode(t, m) <==> ((m == Completed) == t.completed))
  {
  }

  /** The search test against a query the input handler has already
      lower-cased: the lower-cased text or (non-empty) tag contains it. */
  predicate MatchesSearch(t: Task, query: string) {
    || Includes(Lower(t.text), query)
    || (t.tag != [] && Includes(Lower(t.tag), query))
  }

  /** The search test holds exactly when the query occurs in the lower-cased
      text or in the lower-cased non-empty tag; the empty query matches all. */
  lemma SearchMeaning(t: Task, query: string)
    ensures MatchesSearch(t, query) <==>
              || (exists i :: OccursAt(Lower(t.text), query, i))
              || (t.tag != [] && exists i :: OccursAt(Lower(t.tag), query, i))
    ensures query == [] ==> MatchesSearch(t, query)
  {
    IncludesEmpty(Lower(t.text));
  }

  predicate Admits(t: Task, m: Mode, query: string) {
    MatchesMode(t, m) && MatchesSearch(t, query)
  }

  /** The `tasks.filter` step: the admitted tasks, in list order. */
  function FilterTasks(s: seq<Task>, m: Mode, query: string): (r: seq<Task>)
    ensures IsSubsequence(r, s)
    ensures forall t :: t in r <==> t in s && Admits(t, m, query)
  {
    if s == [] then []
    else
      var rest := FilterTasks(s[1..], m, query);
      assert forall t :: t in s <==> t == s[0] || t in s[1..];
      if Admits(s[0], m, query) then [s[0]] + rest else rest
  }

  /** The filter keeps every copy of an admitted task and no copy of any
      other: duplicate records are all shown. */
  lemma {:induction false} FilterMultiplicity(s: seq<Task>, m: Mode, query: string)
    ensures forall t :: multiset(FilterTasks(s, m, query))[t]
                        == if Admits(t, m, query) then multiset(s)[t] else 0
  {
    if s != [] {
      FilterMultiplicity(s[1..], m, query);
      FilterCons(s, m, query);
      var rest := FilterTasks(s[1..], m, query);
      assert s == [s[0]] + s[1..];
      assert multiset(s) == multiset{s[0]} + multiset(s[1..]);
      assert multiset([s[0]] + rest) == multiset{s[0]} + multiset(rest);
    }
  }

  /** With mode `all` and an empty query the filter keeps the whole list. */
  lemma {:induction false} FilterEmptyQuery(s: seq<Task>)
    ensures FilterTasks(s, All, []) == s
  {
    if s != [] {
      IncludesEmpty(Lower(s[0].text));
      FilterEmptyQuery(s[1..]);
      assert s == [s[0]] + s[1..];
    }
  }

  /** The filter of a non-empty list, split at its head. */
  lemma FilterCons(s: seq<Task>, m: Mode, query: string)
    requires s != []
    ensures FilterTasks(s, m, query)
            == (if Admits(s[0], m, query) then [s[0]] else []) + FilterTasks(s[1..], m, query)
  {
  }

  /** The `active` and `completed` views split the `all` view: together they
      hold each of its tasks exactly as often, and they share no task. */
  lemma FilterPartition(s: seq<Task>, query: string)
    ensures multiset(FilterTasks(s, Active, query)) + multiset(FilterTasks(s, Completed, query))
            == multiset(FilterTasks(s, All, query))
    ensures multiset(FilterTasks(s, Active, query)) !! multiset(FilterTasks(s, Completed, query))
    ensures |FilterTasks(s, Active, query)| + |FilterTasks(s, Completed, query)|
            == |FilterTasks(s, All, query)|
  {
    FilterSplit(s, query);
    var a := FilterTasks(s, Active, query);
    var c := FilterTasks(s, Completed, query);
    forall t | t in multiset(a) ensures multiset(c)[t] == 0 {
      assert t in a;
    }
  }

  lemma FilterSplit(s: seq<Task>, query: string)
    ensures multiset(FilterTasks(s, Active, query)) + multiset(FilterTasks(s, Completed, query))
            == multiset(FilterTasks(s, All, query))
  {
    var a, c, l := FilterTasks(s, Active, query), FilterTasks(s, Completed, query),
                   FilterTasks(s, All, query);
    FilterMultiplicity(s, Active, query);
    FilterMultiplicity(s, Completed, query);
    FilterMultiplicity(s, All, query);
    forall t ensures (multiset(a) + multiset(c))[t] == multiset(l)[t] {
      assert multiset(a)[t] == if Admits(t, Active, query) then multiset(s)[t] else 0;
      assert multiset(c)[t] == if Admits(t, Completed, query) then multiset(s)[t] else 0;
      assert multiset(l)[t] == if Admits(t, All, query) then multiset(s)[t] else 0;
    }
  }

  // Priority sorting.

  /** Non-increasing priority score from front to back. */
  predicate Sorted(s: seq<Task>) {
    forall i, j :: 0 <= i < j < |s| ==> Rank(s[i]) >= Rank(s[j])
  }

  /** The tasks of `s` whose effective priority is `p`, in order. */
  function ByLevel(s: seq<Task>, p: Priority): (r: seq<Task>)
  {
    if s == [] then []
    else (if Level(s[0]) == p then [s[0]] else []) + ByLevel(s[1..], p)
  }

  /** The reference order of a stable descending-priority sort: the high
      tasks, then the medium ones, then the low ones, each group in its
      original order. */
  function Bucketed(s: seq<Task>): seq<Task> {
    ByLevel(s, High) + ByLevel(s, Medium) + ByLevel(s, Low)
  }

  lemma SortedCons(h: Task, t: seq<Task>)
    requires Sorted(t)
    requires forall u :: u in t ==> Rank(u) <= Rank(h)
    ensures Sorted([h] + t)
  {
    var r := [h] + t;
    forall i, j | 0 <= i < j < |r| ensures Rank(r[i]) >= Rank(r[j]) {
      assert r[j] == t[j - 1];
      if i > 0 { assert r[i] == t[i - 1]; }
    }
  }

  lemma SortedTail(r: seq<Task>)
    requires Sorted(r) && r != []
    ensures Sorted(r[1..])
    ensures forall u :: u in r ==> Rank(u) <= Rank(r[0])
  {
    var t := r[1..];
    forall i, j | 0 <= i < j < |t| ensures Rank(t[i]) >= Rank(t[j]) {
      assert t[i] == r[i + 1] && t[j] == r[j + 1];
    }
    forall u | u in r ensures Rank(u) <= Rank(r[0]) {
      var i :| 0 <= i < |r| && r[i] == u;
    }
  }

  lemma ByLevelCons(h: Task, t: seq<Task>, p: Priority)
    ensures ByLevel([h] + t, p) == (if Level(h) == p then [h] else []) + ByLevel(t, p)
  {
    assert ([h] + t)[1..] == t;
  }

  /** One step of the insertion sort: `x`, which came before every task of
      `r` in the input, goes in front of the first task it does not outrank,
      so that it stays ahead of the tasks of equal priority. */
  function Insert(x: Task, r: seq<Task>): (res: seq<Task>)
    requires Sorted(r)
    ensures Sorted(res)
    ensures multiset(res) == multiset{x} + multiset(r)
    ensures forall p :: ByLevel(res, p) == (if Level(x) == p then [x] else []) + ByLevel(r, p)
  {
    if r == [] || Rank(r[0]) <= Rank(x) then
      InsertFront(x, r);
      [x] + r
    else
      SortedTail(r);
      var rest := Insert(x, r[1..]);
      InsertBehind(x, r, rest);
      [r[0]] + rest
  }

  /** The base case of `Insert`: `x` outranks or ties every task of `r`. */
  lemma InsertFront(x: Task, r: seq<Task>)
    requires Sorted(r) && (r == [] || Rank(r[0]) <= Rank(x))
    ensures Sorted([x] + r)
    ensures forall p :: ByLevel([x] + r, p) == (if Level(x) == p then [x] else []) + ByLevel(r, p)
  {
    if r != [] { SortedTail(r); }
    SortedCons(x, r);
    forall p
      ensures ByLevel([x] + r, p) == (if Level(x) == p then [x] else []) + ByLevel(r, p)
    {
      ByLevelCons(x, r, p);
    }
  }

  /** The recursive case of `Insert`: `r[0]` outranks `x` and stays in front. */
  lemma InsertBehind(x: Task, r: seq<Task>, rest: seq<Task>)
    requires Sorted(r) && r != [] && Rank(r[0]) > Rank(x)
    requires Sorted(rest)
    requires multiset(rest) == multiset{x} + multiset(r[1..])
    requires forall p :: ByLevel(rest, p) == (if Level(x) == p then [x] else []) + ByLevel(r[1..], p)
    ensures Sorted([r[0]] + rest)
    ensures multiset([r[0]] + rest) == multiset{x} + multiset(r)
    ensures forall p :: ByLevel([r[0]] + rest, p) == (if Level(x) == p then [x] else []) + ByLevel(r, p)
  {
    assert r == [r[0]] + r[1..];
    InsertBehindSorted(x, r, rest);
    forall p
      ensures ByLevel([r[0]] + rest, p) == (if Level(x) == p then [x] else []) + ByLevel(r, p)
    {
      InsertBehindLevel(x, r, rest, p);
    }
  }

  lemma InsertBehindLevel(x: Task, r: seq<Task>, rest: seq<Task>, p: Priority)
    requires r != [] && Rank(r[0]) > Rank(x)
    requires ByLevel(rest, p) == (if Level(x) == p then [x] else []) + ByLevel(r[1..], p)
    ensures ByLevel([r[0]] + rest, p) == (if Level(x) == p then [x] else []) + ByLevel(r, p)
  {
    ByLevelCons(r[0], rest, p);
    ByLevelCons(r[0], r[1..], p);
    assert r == [r[0]] + r[1..];
    var tail := ByLevel(r[1..], p);
    if Level(x) == p {
      assert Level(r[0]) != p;
      assert ByLevel([r[0]] + rest, p) == [x] + tail;
    } else if Level(r[0]) == p {
      assert ByLevel([r[0]] + rest, p) == [r[0]] + tail;
    } else {
      assert ByLevel([r[0]] + rest, p) == tail;
    }
  }

  lemma InsertBehindSorted(x: Task, r: seq<Task>, rest: seq<Task>)
    requires Sorted(r) && r != [] && Rank(r[0]) > Rank(x)
    requires Sorted(rest)
    requires multiset(rest) == multiset{x} + multiset(r[1..])
    ensures Sorted([r[0]] + rest)
  {
    SortedTail(r);
    forall u | u in rest ensures Rank(u) <= Rank(r[0]) {
      assert u in multiset(rest);
      if u != x {
        assert u in multiset(r[1..]);
        assert u in r[1..];
        var i :| 0 <= i < |r| - 1 && r[1..][i] == u;
        assert r[i + 1] == u;
      }
    }
    SortedCons(r[0], rest);
  }

  /** The `filteredTasks.sort` call: a stable sort by descending priority
      score (`Array.prototype.sort` is stable). The result is a permutation,
      is ordered by score, and keeps each priority's tasks in input order. */
  function SortByPriority(s: seq<Task>): (r: seq<Task>)
    ensures Sorted(r)
    ensures multiset(r) == multiset(s)
    ensures forall p :: ByLevel(r, p) == ByLevel(s, p)
  {
    if s == [] then []
    else
      assert s == [s[0]] + s[1..];
      Insert(s[0], SortByPriority(s[1..]))
  }

  lemma {:induction false} ByLevelAbsent(s: seq<Task>, p: Priority)
    requires forall i :: 0 <= i < |s| ==> Level(s[i]) != p
    ensures ByLevel(s, p) == []
  {
    if s != [] {
      ByLevelAbsent(s[1..], p);
    }
  }

  /** Bucketing a list whose head outranks or ties the rest keeps the head
      in front. */
  lemma BucketedCons(h: Task, t: seq<Task>)
    requires forall i :: 0 <= i < |t| ==> Rank(t[i]) <= Rank(h)
    ensures Bucketed([h] + t) == [h] + Bucketed(t)
  {
    ByLevelCons(h, t, High);
    ByLevelCons(h, t, Medium);
    ByLevelCons(h, t, Low);
    var hi, me, lo := ByLevel(t, High), ByLevel(t, Medium), ByLevel(t, Low);
    match Level(h)
    case High =>
      assert Bucketed([h] + t) == ([h] + hi) + me + lo;
    case Medium =>
      ByLevelAbsent(t, High);
      assert Bucketed([h] + t) == [] + ([h] + me) + lo;
    case Low =>
      ByLevelAbsent(t, High);
      ByLevelAbsent(t, Medium);
      assert Bucketed([h] + t) == [] + [] + ([h] + lo);
  }

  /** A sorted list is its own bucketed order. */
  lemma {:induction false} SortedIsBucketed(r: seq<Task>)
    requires Sorted(r)
    ensures r == Bucketed(r)
  {
    if r != [] {
      var h, t := r[0], r[1..];
      assert r == [h] + t;
      SortedTail(r);
      SortedIsBucketed(t);
      assert forall i :: 0 <= i < |t| ==> Rank(t[i]) <= Rank(h) by {
        forall i | 0 <= i < |t| ensures Rank(t[i]) <= Rank(h) {
          assert t[i] in r;
        }
      }
      BucketedCons(h, t);
    }
  }

  /** Stable sorting by priority is determined: every sorted list that keeps
      each priority's tasks in input order is the bucketed order, and that is
      what `SortByPriority` returns. */
  lemma StableSortUnique(s: seq<Task>, r: seq<Task>)
    requires Sorted(r)
    requires forall p :: ByLevel(r, p) == ByLevel(s, p)
    ensures r == Bucketed(s)
    ensures r == SortByPriority(s)
  {
    SortedIsBucketed(r);
    var q := SortByPriority(s);
    SortedIsBucketed(q);
  }

  /** The view the list shows for a mode and query: the admitted tasks of
      the list, each as often as there, sorted stably by priority. */
  function Project(s: seq<Task>, m: Mode, query: string): (r: seq<Task>)
    ensures Sorted(r)
    ensures multiset(r) == multiset(FilterTasks(s, m, query))
    ensures multiset(r) <= multiset(s)
    ensures forall t :: t in r <==> t in s && Admits(t, m, query)
    ensures forall p :: ByLevel(r, p) == ByLevel(FilterTasks(s, m, query), p)
  {
    var f := FilterTasks(s, m, query);
    SubsequenceBounds(f, s);
    var r := SortByPriority(f);
    assert forall t :: t in r <==> t in multiset(r);
    assert forall t :: t in f <==> t in multiset(f);
    r
  }

  /** The view shows every copy of an admitted task and no copy of any
      other. */
  lemma ProjectMultiplicity(s: seq<Task>, m: Mode, query: string)
    ensures forall t :: multiset(Project(s, m, query))[t]
                        == if Admits(t, m, query) then multiset(s)[t] else 0
  {
    FilterMultiplicity(s, m, query);
  }

  /** Two tasks added low then high are shown high first. */
  lemma HighBeforeLow(lo: Task, hi: Task)
    requires lo.priority == Some(Low) && hi.priority == Some(High)
    ensures Project([lo, hi], All, []) == [hi, lo]
  {
    FilterEmptyQuery([lo, hi]);
    assert [lo, hi][1..] == [hi];
    assert SortByPriority([hi]) == [hi];
    assert Insert(lo, [hi]) == [hi] + Insert(lo, []);
  }
}
