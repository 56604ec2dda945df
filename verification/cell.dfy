/** The editable cell: a local draft that keystrokes change, that a blur
    commits to the record store at the cell's (row index, column id), and that
    is resynchronised whenever the value the table passes in changes. */
module CellEditor {
  import opened Records
  import opened RecordStore

  /** A cell's state: its draft, and the external value it last received
      (the value its resync effect is keyed on). */
  datatype Cell = Cell(draft: Value, initialValue: Value)

  /** A freshly rendered cell starts from the store's value. */
  function MountCell(initialValue: Value): Cell
  {
    Cell(initialValue, initialValue)
  }

  /** `onChange`: only the draft takes the typed text (an input element's
      value is always a string). */
  function Input(c: Cell, typed: string): Cell
  {
    c.(draft := Text(typed))
  }

  /** The resync effect: when the external value differs from the one last
      received, the draft becomes it; otherwise nothing happens. */
  function Resync(c: Cell, external: Value): (r: Cell)
    ensures r.initialValue == external
    ensures r == c <==> external == c.initialValue
    ensures external != c.initialValue ==> r.draft == external
  {
    if external == c.initialValue then c else Cell(external, external)
  }

  /** `onBlur`: commit the draft at the cell's coordinate. */
  function Blur(c: Cell, s: Store, index: int, id: string): Store
  {
    Update(s, index, id, c.draft)
  }

  /** A blur writes exactly the draft at (index, id), leaves every other field
      and row alone, keeps the cell unchanged and arms the flag. */
  lemma BlurCommitsDraft(c: Cell, s: Store, index: int, id: string)
    requires 0 <= index < |s.data|
    ensures |Blur(c, s, index, id).data| == |s.data|
    ensures Blur(c, s, index, id).data[index][id] == c.draft
    ensures forall k :: k in s.data[index] && k != id ==> Blur(c, s, index, id).data[index][k] == s.data[index][k]
    ensures forall n :: 0 <= n < |s.data| && n != index ==> Blur(c, s, index, id).data[n] == s.data[n]
    ensures !AutoResetPage(Blur(c, s, index, id))
  {
  }

  /** Typing any sequence of texts and blurring commits the last text typed;
      the store is not touched before the blur. */
  lemma {:induction false} TypingThenBlur(c: Cell, typed: seq<string>, s: Store, index: int, id: string)
    requires |typed| > 0 && 0 <= index < |s.data|
    ensures TypeAll(c, typed).draft == Text(typed[|typed| - 1])
    ensures TypeAll(c, typed).initialValue == c.initialValue
    ensures Blur(TypeAll(c, typed), s, index, id).data[index][id] == Text(typed[|typed| - 1])
    decreases |typed|
  {
    if |typed| > 1 {
      TypingThenBlur(Input(c, typed[0]), typed[1..], s, index, id);
    }
  }

  /** The cell after a run of keystrokes. */
  function TypeAll(c: Cell, typed: seq<string>): Cell
    decreases |typed|
  {
    if typed == [] then c else TypeAll(Input(c, typed[0]), typed[1..])
  }

  /** After a blur and the resync its re-render triggers, the draft equals the
      stored value, and that is still the text the user typed. */
  lemma CommitThenResync(c: Cell, s: Store, index: int, id: string)
    requires 0 <= index < |s.data|
    ensures Resync(c, Blur(c, s, index, id).data[index][id]).draft == Blur(c, s, index, id).data[index][id]
    ensures Resync(c, Blur(c, s, index, id).data[index][id]).draft == c.draft
  {
  }

  /** After a reset the cell shows the seeded value exactly when its external
      value actually changed, or when the draft already held the seeded value. */
  lemma ResetReachesCell(c: Cell, s: Store, index: int, id: string)
    requires 0 <= index < |s.originalData| && id in s.originalData[index]
    ensures Resync(c, Reset(s).data[index][id]).draft == s.originalData[index][id]
            <==> (c.initialValue != s.originalData[index][id] || c.draft == s.originalData[index][id])
  {
  }

  /** A cell edited and committed earlier shows the seeded value again once the
      reset re-renders it: commit, resync, reset, resync. */
  lemma EditedCellShowsSeedAfterReset(c: Cell, s: Store, index: int, id: string)
    requires 0 <= index < |s.data| && |s.data| == |s.originalData| && id in s.originalData[index]
    ensures var committed := Blur(c, s, index, id);
            var synced := Resync(c, committed.data[index][id]);
            Resync(synced, Reset(committed).data[index][id]).draft == s.originalData[index][id]
  {
    var committed := Blur(c, s, index, id);
    CommitThenResync(c, s, index, id);
    ResetReachesCell(Resync(c, committed.data[index][id]), committed, index, id);
  }

  /** One rendered input element bound to one (row index, column id). */
  class EditableCell {
    var value: Value
    var initialValue: Value
    const index: int
    const id: string

    function State(): Cell
      reads this
    {
      Cell(value, initialValue)
    }

    constructor (initialValue: Value, index: int, id: string)
      ensures State() == MountCell(initialValue)
      ensures this.index == index && this.id == id
    {
      this.value := initialValue;
      this.initialValue := initialValue;
      this.index := index;
      this.id := id;
    }

    /** A keystroke: only the draft changes; the store is out of reach. */
    method OnChange(typed: string)
      modifies this`value
      ensures value == Text(typed) && initialValue == old(initialValue)
      ensures State() == Input(old(State()), typed)
    {
      value := Text(typed);
    }

    /** Losing focus commits the draft through `updateMyData`. */
    method OnBlur(app: App)
      modifies app
      ensures app.data == UpdateRows(old(app.data), index, id, value)
      ensures app.skipPageReset
      ensures app.State() == Blur(State(), old(app.State()), index, id)
    {
      app.UpdateMyData(index, id, value);
    }

    /** A re-render with the value the table now holds for this cell; the
        effect keyed on it runs only when it differs from the last one. */
    method ReceiveValue(external: Value)
      modifies this
      ensures initialValue == external
      ensures external != old(initialValue) ==> value == external
      ensures external == old(initialValue) ==> value == old(value)
      ensures State() == Resync(old(State()), external)
    {
      if external != initialValue {
        initialValue := external;
        value := external;
      }
    }

    /** Blur, then the re-render that hands the committed value back to the
        cell: the cell and the store agree on it. */
    method CommitAndResync(app: App)
      requires 0 <= index < |app.data|
      modifies this, app
      ensures app.State() == Blur(old(State()), old(app.State()), index, id)
      ensures State() == Resync(old(State()), app.data[index][id])
      ensures value == old(value) && initialValue == value
      ensures app.data == UpdateRows(old(app.data), index, id, old(value))
      ensures app.skipPageReset
      ensures value == app.data[index][id]
    {
      OnBlur(app);
      ReceiveValue(app.data[index][id]);
    }
  }
}
