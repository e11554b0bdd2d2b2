/** The task record of the to-do list and the facts about a whole list that
    the store keeps: unique ids and non-empty, trimmed texts. */
module Tasks {
  import opened Text
  import opened Seqs

  datatype Option<T> = None | Some(value: T)

  datatype Priority = High | Medium | Low

  /** One to-do item. `priority` is `None` for a record that carries no
      priority (an imported one, say); `dueDate` is the raw date-input value. */
  datatype Task = Task(
    id: int,
    text: string,
    priority: Option<Priority>,
    tag: string,
    dueDate: Option<string>,
    completed: bool,
    createdAt: string)

  /** The label a task gets when its tag field is left blank. */
  const DefaultTag: string := "Général"

  /** The priority the view uses: a missing priority counts as medium. */
  function Level(t: Task): Priority {
    match t.priority
    case Some(p) => p
    case None => Medium
  }

  /** The sort score of a priority: high 3, medium 2, low 1. */
  function Score(p: Priority): (n: nat)
    ensures 1 <= n <= 3
    ensures n == 3 <==> p == High
    ensures n == 1 <==> p == Low
  {
    match p
    case High => 3
    case Medium => 2
    case Low => 1
  }

  /** A task without a priority sorts as medium; any other task by its own
      priority. */
  lemma MissingPriorityIsMedium(t: Task)
    ensures t.priority.None? ==> Level(t) == Medium && Rank(t) == 2
    ensures t.priority.Some? ==> Level(t) == t.priority.value && Rank(t) == Score(t.priority.value)
  {
  }

  function Rank(t: Task): nat {
    Score(Level(t))
  }

  predicate HasId(s: seq<Task>, id: int) {
    exists i :: 0 <= i < |s| && s[i].id == id
  }

  /** Number of tasks of `s` whose id is `id`. */
  function CountId(s: seq<Task>, id: int): (n: nat)
    ensures n <= |s|
    ensures n == 0 <==> !HasId(s, id)
  {
    if s == [] then 0
    else
      var n := CountId(s[1..], id);
      assert forall i :: 0 < i < |s| ==> s[i] == s[1..][i - 1];
      assert HasId(s[1..], id) ==> HasId(s, id) by {
        if HasId(s[1..], id) {
          var i :| 0 <= i < |s| - 1 && s[1..][i].id == id;
          assert s[i + 1].id == id;
        }
      }
      (if s[0].id == id then 1 else 0) + n
  }

  predicate UniqueIds(s: seq<Task>) {
    forall i, j :: 0 <= i < j < |s| ==> s[i].id != s[j].id
  }

  /** A text as the store keeps it: non-empty, with no white space at either
      end, which is to say non-empty and its own trim (`GoodTextIsTrimmed`). */
  predicate GoodText(text: string) {
    text != [] && !IsSpace(text[0]) && !IsSpace(text[|text| - 1])
  }

  lemma GoodTextIsTrimmed(text: string)
    ensures GoodText(text) <==> text != [] && Trim(text) == text
  {
    if text != [] {
      TrimFixpoint(text);
    }
  }

  /** Membership of an id in a non-empty list, split at its head. */
  lemma HasIdCons(s: seq<Task>, id: int)
    requires s != []
    ensures HasId(s, id) <==> s[0].id == id || HasId(s[1..], id)
  {
    assert forall i :: 0 < i < |s| ==> s[i] == s[1..][i - 1];
    if HasId(s[1..], id) {
      var i :| 0 <= i < |s| - 1 && s[1..][i].id == id;
      assert s[i + 1].id == id;
    }
  }

  /** The list invariant the store's own operations keep. */
  predicate Valid(s: seq<Task>) {
    && UniqueIds(s)
    && forall i :: 0 <= i < |s| ==> GoodText(s[i].text)
  }

  /** Validity of a non-empty list, split at its head. */
  lemma ValidCons(s: seq<Task>)
    requires s != []
    ensures Valid(s) <==> Valid(s[1..]) && !HasId(s[1..], s[0].id) && GoodText(s[0].text)
  {
    var t := s[1..];
    assert forall i :: 0 < i < |s| ==> s[i] == t[i - 1];
    if Valid(t) && !HasId(t, s[0].id) && GoodText(s[0].text) {
      forall i, j | 0 <= i < j < |s| ensures s[i].id != s[j].id {
        if i == 0 {
          assert t[j - 1].id == s[j].id;
        } else {
          assert s[i] == t[i - 1] && s[j] == t[j - 1];
        }
      }
    }
    if Valid(s) {
      assert forall j :: 0 <= j < |t| ==> t[j].id != s[0].id by {
        forall j | 0 <= j < |t| ensures t[j].id != s[0].id {
          assert t[j] == s[j + 1];
        }
      }
    }
  }

  /** Every id of a subsequence is an id of the sequence. */
  lemma SubsequenceIds(a: seq<Task>, b: seq<Task>, id: int)
    requires IsSubsequence(a, b)
    requires HasId(a, id)
    ensures HasId(b, id)
  {
    SubsequenceBounds(a, b);
    var i :| 0 <= i < |a| && a[i].id == id;
    assert a[i] in multiset(a);
    assert a[i] in b;
  }

  /** Dropping tasks from a valid list, keeping the order of the rest,
      leaves a valid list. */
  lemma {:induction false} ValidSubsequence(a: seq<Task>, b: seq<Task>)
    requires IsSubsequence(a, b)
    requires Valid(b)
    ensures Valid(a)
    decreases |b|
  {
    if a != [] {
      ValidCons(b);
      if a[0] == b[0] && IsSubsequence(a[1..], b[1..]) {
        ValidSubsequence(a[1..], b[1..]);
        if HasId(a[1..], a[0].id) {
          SubsequenceIds(a[1..], b[1..], a[0].id);
        }
        ValidCons(a);
      } else {
        ValidSubsequence(a, b[1..]);
      }
    }
  }

  /** The first task of `s` with the given id, if any. */
  function Find(s: seq<Task>, id: int): (r: Option<Task>)
    ensures r.None? <==> !HasId(s, id)
    ensures r.Some? ==> exists i :: 0 <= i < |s| && s[i] == r.value
                                   && (forall j :: 0 <= j < i ==> s[j].id != id)
    ensures r.Some? ==> r.value.id == id
  {
    if s == [] then None
    else if s[0].id == id then Some(s[0])
    else
      var r := Find(s[1..], id);
      assert HasId(s, id) ==> HasId(s[1..], id) by {
        if HasId(s, id) {
          var i :| 0 <= i < |s| && s[i].id == id;
          assert s[1..][i - 1].id == id;
        }
      }
      assert r.Some? ==> exists i :: 0 <= i < |s| && s[i] == r.value
                                     && (forall j :: 0 <= j < i ==> s[j].id != id) by {
        if r.Some? {
          var i :| 0 <= i < |s| - 1 && s[1..][i] == r.value
                   && (forall j :: 0 <= j < i ==> s[1..][j].id != id);
          assert s[i + 1] == r.value;
          assert forall j :: 0 <= j < i + 1 ==> s[j].id != id by {
            forall j | 0 <= j < i + 1 ensures s[j].id != id {
              if j > 0 { assert s[j] == s[1..][j - 1]; }
            }
          }
        }
      }
      r
  }
}
