/** The mutations of the authoritative task list, each a pure function from
    the list before the event to the list after it. */
module TaskStore {
  import opened Text
  import opened Seqs
  import opened Tasks

  /** The raw values of the add-task form: text box, priority select, tag box
      and date input (the empty string when no date is picked). */
  datatype Form = Form(text: string, priority: Option<Priority>, tag: string, dueDate: string)

  /** The record `addTask` builds from the form, given the id and creation
      stamp the clock supplies. */
  function NewTask(form: Form, id: int, createdAt: string): (t: Task)
    ensures t.id == id && t.text == Trim(form.text) && t.priority == form.priority
    ensures !t.completed && t.createdAt == createdAt
    ensures IsBlank(form.tag) ==> t.tag == DefaultTag
    ensures !IsBlank(form.tag) ==> t.tag == Trim(form.tag)
    ensures t.dueDate.None? <==> form.dueDate == []
    ensures t.dueDate.Some? ==> t.dueDate.value == form.dueDate
  {
    var tag := Trim(form.tag);
    Task(id, Trim(form.text), form.priority,
         if tag == [] then DefaultTag else tag,
         if form.dueDate == [] then None else Some(form.dueDate),
         false, createdAt)
  }

  /** `addTask`: a blank text is ignored; otherwise the new task is appended
      and every existing task stays where and what it was. */
  function Add(s: seq<Task>, form: Form, id: int, createdAt: string): (r: seq<Task>)
    ensures IsBlank(form.text) ==> r == s
    ensures !IsBlank(form.text) ==> |r| == |s| + 1 && r[..|s|] == s
                                    && r[|s|] == NewTask(form, id, createdAt)
  {
    if Trim(form.text) == [] then s else s + [NewTask(form, id, createdAt)]
  }

  function Flip(t: Task, id: int): Task {
    if t.id == id then t.(completed := !t.completed) else t
  }

  /** `toggleTask`: flips `completed` on every task carrying `id`; nothing
      else about any task changes, and the order stays. */
  function Toggle(s: seq<Task>, id: int): (r: seq<Task>)
    ensures |r| == |s|
    ensures forall i :: 0 <= i < |s| ==>
              r[i].completed == (s[i].completed != (s[i].id == id))
              && r[i].(completed := s[i].completed) == s[i]
  {
    if s == [] then [] else [Flip(s[0], id)] + Toggle(s[1..], id)
  }

  /** Toggling the same id twice gives back the original list. */
  lemma ToggleInvolutive(s: seq<Task>, id: int)
    ensures Toggle(Toggle(s, id), id) == s
  {
    var r := Toggle(Toggle(s, id), id);
    assert forall i :: 0 <= i < |s| ==> r[i] == s[i];
  }

  /** Toggling an id no task carries changes nothing (by value). */
  lemma ToggleAbsent(s: seq<Task>, id: int)
    requires !HasId(s, id)
    ensures Toggle(s, id) == s
  {
    var r := Toggle(s, id);
    assert forall i :: 0 <= i < |s| ==> r[i] == s[i];
  }

  /** The delete branch of the list click handler: keeps exactly the tasks
      whose id differs, in their original order. */
  function Delete(s: seq<Task>, id: int): (r: seq<Task>)
    ensures IsSubsequence(r, s)
    ensures forall t :: t in r <==> t in s && t.id != id
    ensures |r| == |s| - CountId(s, id)
    ensures !HasId(r, id)
  {
    if s == [] then []
    else
      var rest := Delete(s[1..], id);
      assert forall t :: t in s <==> t == s[0] || t in s[1..];
      if s[0].id == id then rest else [s[0]] + rest
  }

  /** Deleting an id no task carries changes nothing. */
  lemma {:induction false} DeleteAbsent(s: seq<Task>, id: int)
    requires !HasId(s, id)
    ensures Delete(s, id) == s
  {
    if s != [] {
      HasIdCons(s, id);
      DeleteAbsent(s[1..], id);
      assert s[0].id != id;
      assert s == [s[0]] + s[1..];
    }
  }

  /** The mark-all-done button: every task becomes completed, the length and
      every other field of every task are kept. */
  function MarkAllDone(s: seq<Task>): (r: seq<Task>)
    ensures |r| == |s|
    ensures forall i :: 0 <= i < |s| ==> r[i].completed && r[i].(completed := s[i].completed) == s[i]
  {
    seq(|s|, i requires 0 <= i < |s| => s[i].(completed := true))
  }

  /** Marking all done twice is marking all done once. */
  lemma MarkAllDoneIdempotent(s: seq<Task>)
    ensures MarkAllDone(MarkAllDone(s)) == MarkAllDone(s)
  {
  }

  /** Whether the inline edit of a task's text to `newText` takes effect. */
  predicate EditApplies(current: Task, newText: string) {
    Trim(newText) != [] && Trim(newText) != current.text
  }

  /** The blur handler of a task's text: the task at position `k` gets the
      trimmed new text when that is non-empty and different; no other task,
      and no other field, changes. */
  function EditText(s: seq<Task>, k: int, newText: string): (r: seq<Task>)
    requires 0 <= k < |s|
    ensures |r| == |s|
    ensures forall j :: 0 <= j < |s| && j != k ==> r[j] == s[j]
    ensures r[k].(text := s[k].text) == s[k]
    ensures r[k].text != s[k].text <==> EditApplies(s[k], newText)
    ensures EditApplies(s[k], newText) ==> r[k].text == Trim(newText)
  {
    var text := Trim(newText);
    if text != [] && text != s[k].text then s[k := s[k].(text := text)] else s
  }

  /** Repeating the same edit changes nothing further. */
  lemma EditTextIdempotent(s: seq<Task>, k: int, newText: string)
    requires 0 <= k < |s|
    ensures EditText(EditText(s, k, newText), k, newText) == EditText(s, k, newText)
  {
  }

  // Each mutation keeps the list invariant (unique ids, trimmed non-empty texts).

  lemma AddKeepsValid(s: seq<Task>, form: Form, id: int, createdAt: string)
    requires Valid(s)
    requires !HasId(s, id)
    ensures Valid(Add(s, form, id, createdAt))
  {
    var r := Add(s, form, id, createdAt);
    if !IsBlank(form.text) {
      assert forall i :: 0 <= i < |s| ==> r[i] == s[i];
    }
  }

  lemma ToggleKeepsValid(s: seq<Task>, id: int)
    requires Valid(s)
    ensures Valid(Toggle(s, id))
  {
    var r := Toggle(s, id);
    assert forall i :: 0 <= i < |s| ==> r[i].id == s[i].id && r[i].text == s[i].text;
  }

  lemma DeleteKeepsValid(s: seq<Task>, id: int)
    requires Valid(s)
    ensures Valid(Delete(s, id))
  {
    ValidSubsequence(Delete(s, id), s);
  }

  lemma MarkAllDoneKeepsValid(s: seq<Task>)
    requires Valid(s)
    ensures Valid(MarkAllDone(s))
  {
  }

  lemma EditTextKeepsValid(s: seq<Task>, k: int, newText: string)
    requires Valid(s)
    requires 0 <= k < |s|
    ensures Valid(EditText(s, k, newText))
  {
    var r := EditText(s, k, newText);
    assert forall i :: 0 <= i < |s| ==> r[i].id == s[i].id;
    assert GoodText(r[k].text);
    forall i | 0 <= i < |r| ensures GoodText(r[i].text) {
      if i != k { assert r[i] == s[i]; }
    }
  }

  /** Looking up the id just added yields the submitted fields with
      `completed` false. */
  lemma AddThenFind(s: seq<Task>, form: Form, id: int, createdAt: string)
    requires !HasId(s, id)
    requires !IsBlank(form.text)
    ensures Find(Add(s, form, id, createdAt), id) == Some(NewTask(form, id, createdAt))
  {
    var r := Add(s, form, id, createdAt);
    var f := Find(r, id);
    var i :| 0 <= i < |r| && r[i] == f.value && (forall j :: 0 <= j < i ==> r[j].id != id);
    assert forall j :: 0 <= j < |s| ==> r[j] == s[j] && s[j].id != id;
    assert i == |s|;
  }
}
