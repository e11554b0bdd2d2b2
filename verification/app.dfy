/** The page-level state (task list, filter mode, search query) and the UI
    events that change it, one pure step per event handler. */
module App {
  import opened Text
  import opened Tasks
  import opened TaskStore
  import opened View
  import opened Stats

  datatype AppState = AppState(tasks: seq<Task>, mode: Mode, query: string)

  /** A fresh page with nothing stored: no tasks, mode `all`, empty query. */
  const Initial: AppState := AppState([], All, [])

  /** What reading an imported file yields: text that is not JSON, JSON that
      is not an array, or an array of task records. */
  datatype Payload = Unparsable | NotAnArray | TaskArray(records: seq<Task>)

  /** The two `alert` messages of the import handler. */
  datatype Alert = ImportSucceeded | InvalidFile

  datatype Event =
    | AddClicked(form: Form, id: int, createdAt: string)
    | TaskClicked(id: int)
    | DeleteClicked(id: int)
    | MarkAllClicked
    | ClearConfirmed
    | TextBlurred(index: int, newText: string)
    | SearchInput(input: string)
    | FilterClicked(chosen: Mode)
    | FileLoaded(payload: Payload)

  datatype Outcome = Outcome(state: AppState, alert: Option<Alert>)

  /** The confirmed clear-all button: no tasks, empty search query, same mode. */
  function ClearAll(st: AppState): (r: AppState)
    ensures r.tasks == [] && r.query == [] && r.mode == st.mode
    ensures Compute(r.tasks) == Counts(0, 0, 0)
    ensures RingOffset(r.tasks) == Circumference
    ensures Shown(r) == []
  {
    st.(tasks := [], query := [])
  }

  /** The search box handler: the query is kept lower-cased. */
  function SetSearch(st: AppState, input: string): (r: AppState)
    ensures r.tasks == st.tasks && r.mode == st.mode
    ensures r.query == Lower(input)
    ensures forall i :: 0 <= i < |r.query| ==> !IsUpper(r.query[i])
    ensures Lower(r.query) == r.query
  {
    LowerIdempotent(input);
    st.(query := Lower(input))
  }

  /** The file-import handler: an array replaces the list wholesale and
      reports success; an unparsable file reports an error; anything else is
      ignored without a word. The mode and query are never touched. */
  function ImportFile(st: AppState, p: Payload): (o: Outcome)
    ensures o.state.mode == st.mode && o.state.query == st.query
    ensures p.TaskArray? ==> o.state.tasks == p.records && o.alert == Some(ImportSucceeded)
    ensures p.Unparsable? ==> o.state == st && o.alert == Some(InvalidFile)
    ensures p.NotAnArray? ==> o.state == st && o.alert == None
  {
    match p
    case Unparsable => Outcome(st, Some(InvalidFile))
    case NotAnArray => Outcome(st, None)
    case TaskArray(records) => Outcome(st.(tasks := records), Some(ImportSucceeded))
  }

  /** An inline edit can only come from a task that is in the list. */
  predicate Enabled(st: AppState, e: Event) {
    e.TextBlurred? ==> 0 <= e.index < |st.tasks|
  }

  /** One UI event. Only the import shows an alert, only the filter buttons
      change the mode, only the search box and clear-all change the query, and
      the search box and filter buttons leave the list alone. */
  function Step(st: AppState, e: Event): (o: Outcome)
    requires Enabled(st, e)
    ensures !e.FileLoaded? ==> o.alert == None
    ensures !e.FilterClicked? ==> o.state.mode == st.mode
    ensures !e.SearchInput? && !e.ClearConfirmed? ==> o.state.query == st.query
    ensures e.SearchInput? || e.FilterClicked? ==> o.state.tasks == st.tasks
  {
    match e
    case AddClicked(form, id, createdAt) =>
      Outcome(st.(tasks := Add(st.tasks, form, id, createdAt)), None)
    case TaskClicked(id) => Outcome(st.(tasks := Toggle(st.tasks, id)), None)
    case DeleteClicked(id) => Outcome(st.(tasks := Delete(st.tasks, id)), None)
    case MarkAllClicked => Outcome(st.(tasks := MarkAllDone(st.tasks)), None)
    case ClearConfirmed => Outcome(ClearAll(st), None)
    case TextBlurred(k, text) => Outcome(st.(tasks := EditText(st.tasks, k, text)), None)
    case SearchInput(input) => Outcome(SetSearch(st, input), None)
    case FilterClicked(m) => Outcome(st.(mode := m), None)
    case FileLoaded(p) => ImportFile(st, p)
  }

  /** The view rendered for a state. */
  function Shown(st: AppState): seq<Task> {
    Project(st.tasks, st.mode, st.query)
  }

  /** A page with nothing stored: a valid empty list, mode `all`, no query,
      an empty view, 0/0 on the counters and the ring at its empty state. */
  lemma InitialState()
    ensures Valid(Initial.tasks)
    ensures Initial.mode == All && Initial.query == []
    ensures Shown(Initial) == []
    ensures Compute(Initial.tasks) == Counts(0, 0, 0)
    ensures RingOffset(Initial.tasks) == Circumference
  {
  }

  /** Every event keeps the list valid, provided a new task gets an id not in
      use and an imported list is itself valid. */
  lemma StepKeepsValid(st: AppState, e: Event)
    requires Valid(st.tasks)
    requires Enabled(st, e)
    requires e.AddClicked? ==> !HasId(st.tasks, e.id)
    requires e.FileLoaded? && e.payload.TaskArray? ==> Valid(e.payload.records)
    ensures Valid(Step(st, e).state.tasks)
  {
    match e
    case AddClicked(form, id, createdAt) => AddKeepsValid(st.tasks, form, id, createdAt);
    case TaskClicked(id) => ToggleKeepsValid(st.tasks, id);
    case DeleteClicked(id) => DeleteKeepsValid(st.tasks, id);
    case MarkAllClicked => MarkAllDoneKeepsValid(st.tasks);
    case TextBlurred(k, text) => EditTextKeepsValid(st.tasks, k, text);
    case ClearConfirmed =>
    case SearchInput(_) =>
    case FilterClicked(_) =>
    case FileLoaded(_) =>
  }

  /** Clicking a task twice restores the state. */
  lemma TaskClickedTwice(st: AppState, id: int)
    ensures Step(Step(st, TaskClicked(id)).state, TaskClicked(id)).state == st
  {
    ToggleInvolutive(st.tasks, id);
  }

  /** Add "Buy milk" (high, no tag, no date) to an empty list, toggle it,
      then clear everything. */
  lemma BuyMilkScenario(id: int, createdAt: string)
    ensures var s1 := Step(Initial, AddClicked(Form("Buy milk", Some(High), [], []), id, createdAt)).state;
            && s1.tasks == [Task(id, "Buy milk", Some(High), DefaultTag, None, false, createdAt)]
            && var s2 := Step(s1, TaskClicked(id)).state;
            && s2.tasks == [Task(id, "Buy milk", Some(High), DefaultTag, None, true, createdAt)]
            && Compute(s2.tasks) == Counts(1, 1, 0)
            && RingOffset(s2.tasks) == 0.0
            && var s3 := Step(s2, ClearConfirmed).state;
            && s3.tasks == [] && s3.query == []
            && Compute(s3.tasks) == Counts(0, 0, 0)
            && RingOffset(s3.tasks) == Circumference
  {
    var form := Form("Buy milk", Some(High), [], []);
    assert !IsSpace('B') && !IsSpace('k');
    assert Trim("Buy milk") == "Buy milk" by {
      TrimFixpoint("Buy milk");
    }
    assert Trim([]) == [];
    var s1 := Step(Initial, AddClicked(form, id, createdAt)).state;
    assert s1.tasks == [] + [NewTask(form, id, createdAt)];
    var s2 := Step(s1, TaskClicked(id)).state;
    assert s2.tasks[0] == s1.tasks[0].(completed := true);
  }
}
