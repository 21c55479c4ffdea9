/**
 * The component's state as one object, and the handlers that change it.
 * Drag and drop records a source; the drop opens the time dialog seeded
 * with the item's times; confirming moves the item; the two cancel buttons
 * only close the dialog. The operator-name editor stages a value and saves
 * it trimmed.
 */
module Relocation {
  import opened Wrappers
  import opened Text
  import opened TimeWindow
  import opened Schedule
  import opened Roster
  import opened InitialData

  /** The time dialog: whether it shows, the dropped item and the drop target. */
  datatype TimeEditModal = TimeEditModal(show: bool, item: Option<Item>, targetDayIndex: Option<nat>, operatorIndex: Option<nat>)

  const ClosedModal: TimeEditModal := TimeEditModal(false, None, None, None)

  /** `editingName`: the operator whose name is being edited and the text typed so far. */
  datatype NameEdit = NameEdit(index: nat, value: string)

  /**
   * The roster keeps its invariant, a recorded drag points at an existing
   * item, a dialog target is an existing day and an edited name belongs to
   * an existing operator.
   */
  ghost predicate StateValid(ops: seq<Operator>, dragged: Option<DragRef>, modal: TimeEditModal, editing: Option<NameEdit>)
  {
    && RosterValid(ops)
    && (dragged.Some? ==> RefExists(ops, dragged.value))
    && (modal.operatorIndex.Some? && modal.targetDayIndex.Some? ==>
          SlotExists(ops, modal.operatorIndex.value, modal.targetDayIndex.value))
    && (editing.Some? ==> editing.value.index < |ops|)
  }

  /** Saving a name keeps the state valid, whatever drag or dialog is open. */
  lemma RenameKeepsStateValid(ops: seq<Operator>, dragged: Option<DragRef>, modal: TimeEditModal, editing: NameEdit)
    requires StateValid(ops, dragged, modal, Some(editing))
    ensures StateValid(Rename(ops, editing.index, editing.value), dragged, modal, None)
  {
    RenameKeepsValid(ops, editing.index, editing.value);
  }

  /** A confirmed move, which clears the drag and the dialog, keeps the state valid. */
  lemma MoveKeepsStateValid(ops: seq<Operator>, src: DragRef, to: nat, td: nat, start: string, end: string,
                            editing: Option<NameEdit>, r: seq<Operator>)
    requires RosterValid(ops) && RefExists(ops, src) && SlotExists(ops, to, td) && IsTimeValid(start, end)
    requires editing.Some? ==> editing.value.index < |ops|
    requires r == Move(ops, src, to, td, start, end)
    ensures StateValid(r, None, ClosedModal, editing)
  {
    MoveKeepsValid(ops, src, to, td, start, end);
    MoveEffect(ops, src, to, td, start, end);
  }

  class AppState {
    var operators: seq<Operator>
    var draggedItem: Option<DragRef>
    var timeEditModal: TimeEditModal
    var newStartTime: string
    var newEndTime: string
    var editingName: Option<NameEdit>

    ghost predicate Valid()
      reads this
    {
      StateValid(operators, draggedItem, timeEditModal, editingName)
    }

    /** The state on first render. */
    constructor ()
      ensures Valid()
      ensures operators == InitialOperators
      ensures draggedItem == None && timeEditModal == ClosedModal && editingName == None
      ensures newStartTime == "" && newEndTime == ""
    {
      operators := InitialOperators;
      draggedItem := None;
      timeEditModal := ClosedModal;
      newStartTime := "";
      newEndTime := "";
      editingName := None;
      InitialRosterValid();
    }

    /** `handleDragStart`: remembers which item is being dragged. */
    method DragStart(operatorIndex: nat, dayIndex: nat, itemIndex: nat)
      requires Valid() && RefExists(operators, DragRef(operatorIndex, dayIndex, itemIndex))
      modifies this
      ensures Valid()
      ensures draggedItem == Some(DragRef(operatorIndex, dayIndex, itemIndex))
      ensures operators == old(operators) && timeEditModal == old(timeEditModal) && editingName == old(editingName)
      ensures newStartTime == old(newStartTime) && newEndTime == old(newEndTime)
    {
      draggedItem := Some(DragRef(operatorIndex, dayIndex, itemIndex));
    }

    /**
     * `handleDrop`: without a drag nothing happens; otherwise the dialog
     * opens for the dragged item and the drop target, seeded with the two
     * times of the item's label. No schedule is touched and the drag stays
     * recorded.
     */
    method Drop(targetOperatorIndex: nat, targetDayIndex: nat)
      requires Valid() && SlotExists(operators, targetOperatorIndex, targetDayIndex)
      modifies this
      ensures Valid()
      ensures operators == old(operators) && draggedItem == old(draggedItem) && editingName == old(editingName)
      ensures old(draggedItem).None? ==>
                timeEditModal == old(timeEditModal) && newStartTime == old(newStartTime) && newEndTime == old(newEndTime)
      ensures old(draggedItem).Some? ==>
                && timeEditModal == TimeEditModal(true, Some(ItemAt(operators, draggedItem.value)),
                                                  Some(targetDayIndex), Some(targetOperatorIndex))
                && (newStartTime, newEndTime) == SeedTimes(ItemAt(operators, draggedItem.value).time)
                && Label(newStartTime, newEndTime) == ItemAt(operators, draggedItem.value).time
    {
      if draggedItem.None? {
        return;
      }
      var src := draggedItem.value;
      var item := ItemsAt(operators, src.operatorIndex, src.dayIndex)[src.itemIndex];
      timeEditModal := TimeEditModal(true, Some(item), Some(targetDayIndex), Some(targetOperatorIndex));
      var seeds := SeedTimes(item.time);
      newStartTime := seeds.0;
      newEndTime := seeds.1;
      assert IsWindowLabel(item.time);
      WindowLabelSeeds(item.time);
    }

    /** The dialog's start field. */
    method SetNewStartTime(value: string)
      requires Valid()
      modifies this
      ensures Valid()
      ensures newStartTime == value
      ensures operators == old(operators) && draggedItem == old(draggedItem) && timeEditModal == old(timeEditModal)
      ensures newEndTime == old(newEndTime) && editingName == old(editingName)
    {
      newStartTime := value;
    }

    /** The dialog's end field. */
    method SetNewEndTime(value: string)
      requires Valid()
      modifies this
      ensures Valid()
      ensures newEndTime == value
      ensures operators == old(operators) && draggedItem == old(draggedItem) && timeEditModal == old(timeEditModal)
      ensures newStartTime == old(newStartTime) && editingName == old(editingName)
    {
      newEndTime := value;
    }

    /** `isTimeValid()`, which enables the dialog's save button. */
    predicate CanSave()
      reads this
    {
      IsTimeValid(newStartTime, newEndTime)
    }

    /** The early-return guard of `handleTimeConfirm`: a dropped item, a target day and operator, and a drag. */
    predicate ConfirmReady()
      reads this
    {
      timeEditModal.item.Some? && timeEditModal.targetDayIndex.Some? && timeEditModal.operatorIndex.Some? && draggedItem.Some?
    }

    /**
     * `handleTimeConfirm`, reachable only through the enabled save button.
     * When the guard fails nothing changes. Otherwise the roster becomes
     * `Move` of the old roster, and both the drag and the dialog are cleared.
     */
    method TimeConfirm()
      requires Valid() && CanSave()
      modifies this
      ensures Valid()
      ensures !old(ConfirmReady()) ==>
                && operators == old(operators) && draggedItem == old(draggedItem) && timeEditModal == old(timeEditModal)
      ensures old(ConfirmReady()) ==>
                && operators == Move(old(operators), old(draggedItem).value, old(timeEditModal).operatorIndex.value,
                                     old(timeEditModal).targetDayIndex.value, old(newStartTime), old(newEndTime))
                && draggedItem == None && timeEditModal == ClosedModal
      ensures newStartTime == old(newStartTime) && newEndTime == old(newEndTime) && editingName == old(editingName)
    {
      if !ConfirmReady() {
        return;
      }
      ConfirmMove();
    }

    /** The part of `handleTimeConfirm` past its guard. */
    method ConfirmMove()
      requires Valid() && CanSave() && ConfirmReady()
      modifies this
      ensures Valid()
      ensures operators == Move(old(operators), old(draggedItem).value, old(timeEditModal).operatorIndex.value,
                                old(timeEditModal).targetDayIndex.value, old(newStartTime), old(newEndTime))
      ensures draggedItem == None && timeEditModal == ClosedModal
      ensures newStartTime == old(newStartTime) && newEndTime == old(newEndTime) && editingName == old(editingName)
    {
      var newOperators := MovedOperators();
      Commit(newOperators);
    }

    /** The roster after the confirmed move, computed from the current state without changing it. */
    method MovedOperators() returns (newOperators: seq<Operator>)
      requires Valid() && CanSave() && ConfirmReady()
      ensures newOperators == Move(operators, draggedItem.value, timeEditModal.operatorIndex.value,
                                   timeEditModal.targetDayIndex.value, newStartTime, newEndTime)
      ensures StateValid(newOperators, None, ClosedModal, editingName)
    {
      var src := draggedItem.value;
      var to, td := timeEditModal.operatorIndex.value, timeEditModal.targetDayIndex.value;
      newOperators := Move(operators, src, to, td, newStartTime, newEndTime);
      MoveKeepsStateValid(operators, src, to, td, newStartTime, newEndTime, editingName, newOperators);
    }

    /** `setOperators(newOperators)`, `setDraggedItem(null)` and the dialog reset. */
    method Commit(newOperators: seq<Operator>)
      requires StateValid(newOperators, None, ClosedModal, editingName)
      modifies this
      ensures Valid()
      ensures operators == newOperators && draggedItem == None && timeEditModal == ClosedModal
      ensures newStartTime == old(newStartTime) && newEndTime == old(newEndTime) && editingName == old(editingName)
    {
      operators := newOperators;
      draggedItem := None;
      timeEditModal := ClosedModal;
    }

    /** The save button: disabled, so a no-op, unless the two times are valid. */
    method Save()
      requires Valid()
      modifies this
      ensures Valid()
      ensures !old(CanSave()) || !old(ConfirmReady()) ==>
                && operators == old(operators) && draggedItem == old(draggedItem) && timeEditModal == old(timeEditModal)
      ensures old(CanSave()) && old(ConfirmReady()) ==>
                && operators == Move(old(operators), old(draggedItem).value, old(timeEditModal).operatorIndex.value,
                                     old(timeEditModal).targetDayIndex.value, old(newStartTime), old(newEndTime))
                && draggedItem == None && timeEditModal == ClosedModal
      ensures newStartTime == old(newStartTime) && newEndTime == old(newEndTime) && editingName == old(editingName)
    {
      if CanSave() {
        TimeConfirm();
      }
    }

    /** The dialog's close and cancel buttons: the dialog closes; the drag and the roster stay. */
    method CancelTimeEdit()
      requires Valid()
      modifies this
      ensures Valid()
      ensures timeEditModal == ClosedModal
      ensures operators == old(operators) && draggedItem == old(draggedItem)
      ensures newStartTime == old(newStartTime) && newEndTime == old(newEndTime) && editingName == old(editingName)
    {
      timeEditModal := ClosedModal;
    }

    /** `startEditingOperatorName`: the editor opens on the operator's current name. */
    method StartEditingOperatorName(index: nat)
      requires Valid() && index < |operators|
      modifies this
      ensures Valid()
      ensures operators == old(operators) && draggedItem == old(draggedItem) && timeEditModal == old(timeEditModal)
      ensures newStartTime == old(newStartTime) && newEndTime == old(newEndTime)
      ensures editingName == Some(NameEdit(index, operators[index].name))
    {
      editingName := Some(NameEdit(index, operators[index].name));
    }

    /** The name field's `onChange`: the typed text replaces the staged value. */
    method SetEditingValue(value: string)
      requires Valid() && editingName.Some?
      modifies this
      ensures Valid()
      ensures editingName == Some(old(editingName).value.(value := value))
      ensures operators == old(operators) && draggedItem == old(draggedItem) && timeEditModal == old(timeEditModal)
      ensures newStartTime == old(newStartTime) && newEndTime == old(newEndTime)
    {
      editingName := Some(editingName.value.(value := value));
    }

    /**
     * `saveOperatorName`: a staged value that is not blank once trimmed
     * becomes that operator's name, trimmed; the editor closes either way.
     */
    method SaveOperatorName()
      requires Valid()
      modifies this
      ensures Valid()
      ensures editingName == None
      ensures old(editingName).None? ==> operators == old(operators)
      ensures old(editingName).Some? ==>
                operators == Rename(old(operators), old(editingName).value.index, old(editingName).value.value)
      ensures draggedItem == old(draggedItem) && timeEditModal == old(timeEditModal)
      ensures newStartTime == old(newStartTime) && newEndTime == old(newEndTime)
    {
      var newOperators := operators;
      if editingName.Some? {
        var edit := editingName.value;
        var name := Trim(edit.value);
        if name != [] {
          newOperators := newOperators[edit.index := newOperators[edit.index].(name := name)];
        }
        assert newOperators == Rename(operators, edit.index, edit.value);
        RenameKeepsStateValid(operators, draggedItem, timeEditModal, edit);
      }
      operators := newOperators;
      editingName := None;
    }
  }
}
