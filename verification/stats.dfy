/** The counters `updateUI` shows, computed from the whole task list (not
    from the filtered view), and the progress ring's zero-total guard. */
module Stats {
  import opened Text
  import opened Tasks
  import opened TaskStore
  import opened View

  /** Number of completed tasks in `s`. */
  function CountCompleted(s: seq<Task>): (n: nat)
    ensures n <= |s|
    ensures n == 0 <==> forall i :: 0 <= i < |s| ==> !s[i].completed
    ensures n == |s| <==> forall i :: 0 <= i < |s| ==> s[i].completed
  {
    if s == [] then 0
    else
      var n := CountCompleted(s[1..]);
      assert forall i :: 0 < i < |s| ==> s[i] == s[1..][i - 1];
      (if s[0].completed then 1 else 0) + n
  }

  lemma {:induction false} CountCompletedAppend(a: seq<Task>, b: seq<Task>)
    ensures CountCompleted(a + b) == CountCompleted(a) + CountCompleted(b)
  {
    if a == [] {
      assert a + b == b;
    } else {
      CountCompletedAppend(a[1..], b);
      assert (a + b)[1..] == a[1..] + b;
    }
  }

  /** Replacing one task changes the completed count by that task alone. */
  lemma {:induction false} CountCompletedUpdate(s: seq<Task>, k: int, t: Task)
    requires 0 <= k < |s|
    ensures CountCompleted(s[k := t]) + (if s[k].completed then 1 else 0)
            == CountCompleted(s) + (if t.completed then 1 else 0)
  {
    if k > 0 {
      CountCompletedUpdate(s[1..], k - 1, t);
      assert s[k := t][1..] == s[1..][k - 1 := t];
    }
  }

  datatype Counts = Counts(total: nat, completed: nat, active: nat)

  /** `updateUI`'s counters: every task is counted once, as completed or as
      active. */
  function Compute(s: seq<Task>): (c: Counts)
    ensures c.total == |s|
    ensures c.completed + c.active == c.total
    ensures c.completed <= c.total
    ensures c.completed == 0 <==> forall i :: 0 <= i < |s| ==> !s[i].completed
    ensures c.active == 0 <==> forall i :: 0 <= i < |s| ==> s[i].completed
  {
    var done := CountCompleted(s);
    Counts(|s|, done, |s| - done)
  }

  /** The counters agree with the views: the completed count is the size of
      the unsearched `completed` view, the active count that of the `active`
      view. */
  lemma {:induction false} CountsMatchViews(s: seq<Task>)
    ensures Compute(s).completed == |Project(s, Completed, [])|
    ensures Compute(s).active == |Project(s, Active, [])|
  {
    CountsMatchFilters(s);
    var c := FilterTasks(s, Completed, []);
    var a := FilterTasks(s, Active, []);
    assert |Project(s, Completed, [])| == |multiset(c)| == |c|;
    assert |Project(s, Active, [])| == |multiset(a)| == |a|;
  }

  lemma {:induction false} CountsMatchFilters(s: seq<Task>)
    ensures CountCompleted(s) == |FilterTasks(s, Completed, [])|
    ensures |s| - CountCompleted(s) == |FilterTasks(s, Active, [])|
  {
    if s != [] {
      CountsMatchFilters(s[1..]);
      IncludesEmpty(Lower(s[0].text));
      FilterCons(s, Completed, []);
      FilterCons(s, Active, []);
    }
  }

  /** The ring's full stroke (the CSS dash array). */
  const Circumference: real := 440.0

  /** The progress ring's dash offset, in exact arithmetic: the full stroke
      for an empty list (no division), shrinking to zero as tasks complete. */
  function RingOffset(s: seq<Task>): (offset: real)
    ensures 0.0 <= offset <= Circumference
    ensures s == [] ==> offset == Circumference
    ensures Compute(s).completed == 0 ==> offset == Circumference
    ensures s != [] && Compute(s).active == 0 ==> offset == 0.0
  {
    var c := Compute(s);
    if c.total == 0 then Circumference
    else
      var ratio := c.completed as real / c.total as real;
      RatioBounds(c.completed, c.total);
      Circumference - ratio * Circumference
  }

  lemma RatioBounds(n: nat, d: nat)
    requires 0 < d && n <= d
    ensures 0.0 <= n as real / d as real <= 1.0
    ensures n == 0 ==> n as real / d as real == 0.0
    ensures n == d ==> n as real / d as real == 1.0
  {
    var q := n as real / d as real;
    assert q * d as real == n as real;
  }

  /** After mark-all-done every task counts as completed. */
  lemma MarkAllDoneCompletesAll(s: seq<Task>)
    ensures Compute(MarkAllDone(s)) == Counts(|s|, |s|, 0)
  {
  }

  /** Adding a task raises the total and the active count by one. */
  lemma AddCounts(s: seq<Task>, form: Form, id: int, createdAt: string)
    requires !IsBlank(form.text)
    ensures var c := Compute(s);
            Compute(Add(s, form, id, createdAt)) == Counts(c.total + 1, c.completed, c.active + 1)
  {
    var r := Add(s, form, id, createdAt);
    assert r == s + [NewTask(form, id, createdAt)];
    CountCompletedAppend(s, [NewTask(form, id, createdAt)]);
  }

  /** Toggling the id of exactly one task moves it between the completed
      and the active count. */
  lemma ToggleCounts(s: seq<Task>, k: int)
    requires UniqueIds(s)
    requires 0 <= k < |s|
    ensures var c := Compute(s);
            var c' := Compute(Toggle(s, s[k].id));
            && c'.total == c.total
            && (s[k].completed ==> c'.completed == c.completed - 1)
            && (!s[k].completed ==> c'.completed == c.completed + 1)
  {
    var id := s[k].id;
    var r := Toggle(s, id);
    var u := s[k := r[k]];
    forall i | 0 <= i < |s| ensures r[i] == u[i] {
      if i != k {
        assert s[i].id != id;
        assert r[i].completed == s[i].completed;
        assert r[i] == r[i].(completed := s[i].completed) == s[i];
      }
    }
    assert r == u;
    CountCompletedUpdate(s, k, r[k]);
  }
}
