/** The record store of the page container: the working rows `data`, the
    snapshot `originalData` taken at mount, and the one-shot flag
    `skipPageReset` that keeps the table on its current page for the render
    that follows an edit. React's state updates and the effect keyed on
    `data` are modelled as explicit, sequential steps. */
module RecordStore {
  import opened Records

  /** Everything the container holds. */
  datatype Store = Store(data: seq<Row>, originalData: seq<Row>, skipPageReset: bool)

  /** The store as the seed rows leave it: same length for both row lists,
      every record carrying exactly the column accessors. */
  predicate Valid(s: Store)
  {
    && |s.data| == |s.originalData|
    && AllWellFormed(s.data)
    && AllWellFormed(s.originalData)
  }

  /** The option the table is configured with: `autoResetPage: !skipPageReset`. */
  function AutoResetPage(s: Store): bool
  {
    !s.skipPageReset
  }

  /** The state right after mount: both lists are the seed, the flag is off. */
  function Mount(seed: seq<Row>): Store
  {
    Store(seed, seed, false)
  }

  /** `updateMyData`: arm the flag, then replace the row list by its updated copy. */
  function Update(s: Store, rowIndex: int, columnId: string, value: Value): Store
  {
    Store(UpdateRows(s.data, rowIndex, columnId, value), s.originalData, true)
  }

  /** `resetData`: the working rows become the snapshot; the flag is untouched. */
  function Reset(s: Store): Store
  {
    s.(data := s.originalData)
  }

  /** The effect that runs once a change of `data` has been rendered. */
  function DataChanged(s: Store): Store
  {
    s.(skipPageReset := false)
  }

  /** What can happen to the container, one step at a time. */
  datatype Event =
    | Commit(rowIndex: int, columnId: string, value: Value)
    | ResetClick
    | DataObserved

  function Step(s: Store, e: Event): Store
  {
    match e
    case Commit(i, k, v) => Update(s, i, k, v)
    case ResetClick => Reset(s)
    case DataObserved => DataChanged(s)
  }

  /** The state after a whole sequence of events, taken in order. */
  function Run(s: Store, evs: seq<Event>): Store
    decreases |evs|
  {
    if evs == [] then s else Run(Step(s, evs[0]), evs[1..])
  }

  /** An event the rendered table can produce: a commit names a column of the tree. */
  predicate FromTable(e: Event)
  {
    e.Commit? ==> IsField(e.columnId)
  }

  /** Reference definition of the flag after a sequence of events: the latest
      commit or observed data change decides it; resets never touch it. */
  function ArmedAfter(armed: bool, evs: seq<Event>): bool
    decreases |evs|
  {
    if evs == [] then armed
    else
      match evs[|evs| - 1]
      case Commit(_, _, _) => true
      case DataObserved => false
      case ResetClick => ArmedAfter(armed, evs[..|evs| - 1])
  }

  /** The container's handlers, one per event, each preserving validity. */
  lemma StepKeepsValid(s: Store, e: Event)
    requires Valid(s) && FromTable(e)
    ensures Valid(Step(s, e))
    ensures Step(s, e).originalData == s.originalData
    ensures |Step(s, e).data| == |s.data|
  {
  }

  /** Running two sequences one after the other is running their concatenation. */
  lemma {:induction false} RunAppend(s: Store, a: seq<Event>, b: seq<Event>)
    ensures Run(s, a + b) == Run(Run(s, a), b)
    decreases |a|
  {
    if a == [] {
      assert a + b == b;
    } else {
      assert (a + b)[0] == a[0];
      assert (a + b)[1..] == a[1..] + b;
      RunAppend(Step(s, a[0]), a[1..], b);
    }
  }

  /** No sequence of events changes the snapshot, so it stays equal to the seed. */
  lemma {:induction false} RunKeepsOriginal(s: Store, evs: seq<Event>)
    ensures Run(s, evs).originalData == s.originalData
    decreases |evs|
  {
    if evs != [] {
      RunKeepsOriginal(Step(s, evs[0]), evs[1..]);
    }
  }

  /** Any sequence of table events keeps the store valid; in particular the
      working rows keep the snapshot's length. */
  lemma {:induction false} RunKeepsValid(s: Store, evs: seq<Event>)
    requires Valid(s)
    requires forall n :: 0 <= n < |evs| ==> FromTable(evs[n])
    ensures Valid(Run(s, evs))
    ensures |Run(s, evs).data| == |s.data|
    decreases |evs|
  {
    if evs != [] {
      StepKeepsValid(s, evs[0]);
      RunKeepsValid(Step(s, evs[0]), evs[1..]);
    }
  }

  /** The flag is armed exactly when the latest commit-or-observation was a
      commit (or, with neither, when it was armed at the start). */
  lemma {:induction false} FlagFollowsLatestEdit(s: Store, evs: seq<Event>)
    ensures Run(s, evs).skipPageReset == ArmedAfter(s.skipPageReset, evs)
    ensures AutoResetPage(Run(s, evs)) == !ArmedAfter(s.skipPageReset, evs)
    decreases |evs|
  {
    if evs != [] {
      var init, last := evs[..|evs| - 1], evs[|evs| - 1];
      assert evs == init + [last];
      RunAppend(s, init, [last]);
      FlagFollowsLatestEdit(s, init);
    }
  }

  /** A commit always turns automatic page reset off for the next render, and
      the observation of the new data turns it back on, leaving the rows alone. */
  lemma CommitSuppressesOnce(s: Store, evs: seq<Event>, rowIndex: int, columnId: string, value: Value)
    ensures !AutoResetPage(Run(s, evs + [Commit(rowIndex, columnId, value)]))
    ensures !AutoResetPage(Run(s, evs + [Commit(rowIndex, columnId, value), Commit(rowIndex, columnId, value)]))
    ensures AutoResetPage(Run(s, evs + [Commit(rowIndex, columnId, value), DataObserved]))
    ensures Run(s, evs + [Commit(rowIndex, columnId, value), DataObserved]).data
            == Run(s, evs + [Commit(rowIndex, columnId, value)]).data
  {
    var c := Commit(rowIndex, columnId, value);
    FlagFollowsLatestEdit(s, evs + [c]);
    FlagFollowsLatestEdit(s, evs + [c, c]);
    FlagFollowsLatestEdit(s, evs + [c, DataObserved]);
    RunAppend(s, evs + [c], [DataObserved]);
    assert evs + [c, DataObserved] == (evs + [c]) + [DataObserved];
  }

  /** A reset issued once the previous change has been observed leaves the
      table configured to reset its page. */
  lemma ResetAfterObservedAutoResets(s: Store, evs: seq<Event>)
    ensures AutoResetPage(Run(s, evs + [DataObserved, ResetClick]))
  {
    var t := evs + [DataObserved, ResetClick];
    FlagFollowsLatestEdit(s, t);
    assert t[..|t| - 1] == evs + [DataObserved];
  }

  /** After any history, a reset makes the working rows equal the snapshot. */
  lemma ResetRestoresSeed(seed: seq<Row>, evs: seq<Event>)
    ensures Run(Mount(seed), evs + [ResetClick]).data == seed
    ensures Run(Mount(seed), evs + [ResetClick]).originalData == seed
  {
    RunAppend(Mount(seed), evs, [ResetClick]);
    RunKeepsOriginal(Mount(seed), evs);
  }

  /** Whatever happened before, a reset and its observation leave the container
      in the state a single reset and observation would. */
  lemma ResetForgetsHistory(s: Store, evs: seq<Event>)
    ensures Run(s, evs + [ResetClick, DataObserved]) == Run(s, [ResetClick, DataObserved])
  {
    RunAppend(s, evs, [ResetClick, DataObserved]);
    RunKeepsOriginal(s, evs);
  }

  /** Edit, reset, edit, reset (each change observed) ends where a single reset ends. */
  lemma EditResetEditReset(s: Store, first: Event, second: Event)
    requires first.Commit? && second.Commit?
    ensures Run(s, [first, DataObserved, ResetClick, DataObserved, second, DataObserved, ResetClick, DataObserved])
            == Run(s, [ResetClick, DataObserved])
  {
    var before := [first, DataObserved, ResetClick, DataObserved, second, DataObserved];
    ResetForgetsHistory(s, before);
    assert before + [ResetClick, DataObserved]
           == [first, DataObserved, ResetClick, DataObserved, second, DataObserved, ResetClick, DataObserved];
  }

  /** The page container's state cells, overwritten by its handlers. */
  class App {
    var data: seq<Row>
    /** Taken once at mount; the source keeps no setter for it. */
    const originalData: seq<Row>
    var skipPageReset: bool

    function State(): Store
      reads this
    {
      Store(data, originalData, skipPageReset)
    }

    constructor (seed: seq<Row>)
      ensures State() == Mount(seed)
      ensures AutoResetPage(State())
    {
      data := seed;
      originalData := seed;
      skipPageReset := false;
    }

    method UpdateMyData(rowIndex: int, columnId: string, value: Value)
      modifies this
      ensures data == UpdateRows(old(data), rowIndex, columnId, value)
      ensures skipPageReset
      ensures State() == Step(old(State()), Commit(rowIndex, columnId, value))
    {
      skipPageReset := true;
      data := UpdateRows(data, rowIndex, columnId, value);
    }

    method ResetData()
      modifies this
      ensures data == originalData
      ensures skipPageReset == old(skipPageReset)
      ensures State() == Step(old(State()), ResetClick)
    {
      data := originalData;
    }

    /** The effect keyed on `data`, run after a change of the rows is rendered. */
    method DataChanged()
      modifies this
      ensures data == old(data) && !skipPageReset
      ensures State() == Step(old(State()), DataObserved)
    {
      skipPageReset := false;
    }
  }
}
