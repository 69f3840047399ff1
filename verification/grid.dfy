/** The editable grid behind every invoice table: a list of items, the form
    currently loaded, and the index of the item being edited. The component's
    four callbacks (submit, edit, delete, cancel) are pure transitions here,
    generic over the item type `T` and its form type `P`. */
module Grid {
  import opened Wrappers

  /** The `FormData` trait of an item type: conversions to and from its form,
      and the form's `Default`. */
  datatype FormData<!T, !P> = FormData(toForm: T -> P, fromForm: P -> T, defaultForm: P)

  /** One row as the table renders it: the item with its position. */
  datatype ItemState<T> = ItemState(data: T, index: nat)

  /** What the grid reports about its form. */
  datatype FormState<P> = FormState(currentForm: P, editingIndex: Option<nat>, isEditing: bool)

  /** `FormState::new`: `isEditing` is derived from the index, never given. */
  function NewFormState<P>(form: P, editingIndex: Option<nat>): (s: FormState<P>)
    ensures s.currentForm == form && s.editingIndex == editingIndex
    ensures s.isEditing <==> editingIndex.Some?
  {
    FormState(form, editingIndex, editingIndex.Some?)
  }

  /** The rows the table iterates over: every item paired with its index, in order. */
  function Rows<T>(items: seq<T>): (r: seq<ItemState<T>>)
    ensures |r| == |items|
    ensures forall i :: 0 <= i < |r| ==> r[i].data == items[i] && r[i].index == i
  {
    if |items| == 0 then [] else Rows(items[..|items| - 1]) + [ItemState(items[|items| - 1], |items| - 1)]
  }

  /** The component's three signals. */
  datatype GridModel<T, P> = GridModel(items: seq<T>, currentForm: P, editing: Option<nat>)

  function Init<T, P>(initial: seq<T>, fd: FormData<T, P>): GridModel<T, P>
  {
    GridModel(initial, fd.defaultForm, None)
  }

  /** `on_submit`: add the converted form as a new last item, or overwrite the
      item being edited (silently doing nothing to the items when that index is
      no longer in range); either way stop editing and reset the form. */
  function Submit<T, P>(g: GridModel<T, P>, form: P, fd: FormData<T, P>): (r: GridModel<T, P>)
    ensures r.editing == None && r.currentForm == fd.defaultForm
    ensures g.editing.None? ==>
      |r.items| == |g.items| + 1 && r.items[|g.items|] == fd.fromForm(form)
      && forall j :: 0 <= j < |g.items| ==> r.items[j] == g.items[j]
    ensures g.editing.Some? ==> |r.items| == |g.items|
    ensures g.editing.Some? ==> forall j :: 0 <= j < |g.items| && j != g.editing.value ==> r.items[j] == g.items[j]
    ensures g.editing.Some? && g.editing.value < |g.items| ==> r.items[g.editing.value] == fd.fromForm(form)
    ensures g.editing.Some? && g.editing.value >= |g.items| ==> r.items == g.items
  {
    var item := fd.fromForm(form);
    match g.editing
    case Some(i) => GridModel(if i < |g.items| then g.items[i := item] else g.items, fd.defaultForm, None)
    case None => GridModel(g.items + [item], fd.defaultForm, None)
  }

  /** A form's submit handler: the grid sees the form only when it validated. */
  function SubmitValidated<T, P>(g: GridModel<T, P>, form: P, valid: bool, fd: FormData<T, P>): (r: GridModel<T, P>)
    ensures !valid ==> r == g
    ensures valid ==> r == Submit(g, form, fd)
  {
    if valid then Submit(g, form, fd) else g
  }

  /** Any property of items that every validated form converts into holds of
      every item after a gated submit, if it held of every item before. */
  lemma SubmitValidatedPreserves<T, P>(g: GridModel<T, P>, form: P, valid: bool, fd: FormData<T, P>, inv: T -> bool)
    requires forall i :: 0 <= i < |g.items| ==> inv(g.items[i])
    requires valid ==> inv(fd.fromForm(form))
    ensures forall i :: 0 <= i < |SubmitValidated(g, form, valid, fd).items| ==> inv(SubmitValidated(g, form, valid, fd).items[i])
  {
    var r := SubmitValidated(g, form, valid, fd);
    forall i | 0 <= i < |r.items|
      ensures inv(r.items[i])
    {
      if valid && ((g.editing.None? && i == |g.items|) || (g.editing.Some? && i == g.editing.value)) {
        assert r.items[i] == fd.fromForm(form);
      } else {
        assert r.items[i] == g.items[i];
      }
    }
  }

  /** `on_edit`: load item `i` into the form and remember `i`; an index out of range changes nothing. */
  function Edit<T, P>(g: GridModel<T, P>, i: nat, fd: FormData<T, P>): (r: GridModel<T, P>)
    ensures r.items == g.items
    ensures i < |g.items| ==> r.currentForm == fd.toForm(g.items[i]) && r.editing == Some(i)
    ensures i >= |g.items| ==> r == g
  {
    if i < |g.items| then g.(currentForm := fd.toForm(g.items[i]), editing := Some(i)) else g
  }

  /** `on_cancel`: reset the form and stop editing; the items stay. */
  function Cancel<T, P>(g: GridModel<T, P>, fd: FormData<T, P>): (r: GridModel<T, P>)
    ensures r.items == g.items && r.editing == None && r.currentForm == fd.defaultForm
  {
    GridModel(g.items, fd.defaultForm, None)
  }

  /** Removing position `i` keeps the other items in their relative order. */
  function RemoveAt<T>(s: seq<T>, i: nat): (r: seq<T>)
    requires i < |s|
    ensures |r| == |s| - 1
    ensures forall j :: 0 <= j < i ==> r[j] == s[j]
    ensures forall j :: i <= j < |r| ==> r[j] == s[j + 1]
  {
    s[..i] + s[i + 1..]
  }

  /** `on_delete` as written: remove item `i` (`Vec::remove` panics beyond the
      end, hence the precondition) and reset the form only when `i` is the
      item being edited; any other editing index is kept as it was. */
  function DeleteAsWritten<T, P>(g: GridModel<T, P>, i: nat, fd: FormData<T, P>): (r: GridModel<T, P>)
    requires i < |g.items|
    ensures r.items == RemoveAt(g.items, i)
    ensures g.editing == Some(i) ==> r.editing == None && r.currentForm == fd.defaultForm
    ensures g.editing != Some(i) ==> r.editing == g.editing && r.currentForm == g.currentForm
  {
    var items := RemoveAt(g.items, i);
    if g.editing == Some(i) then GridModel(items, fd.defaultForm, None) else g.(items := items)
  }

  /** `on_delete` with the editing index following its item: an index past
      the removed position moves down by one. */
  function Delete<T, P>(g: GridModel<T, P>, i: nat, fd: FormData<T, P>): (r: GridModel<T, P>)
    requires i < |g.items|
    ensures r.items == RemoveAt(g.items, i)
    ensures g.editing == Some(i) ==> r.editing == None && r.currentForm == fd.defaultForm
    ensures g.editing != Some(i) ==> r.currentForm == g.currentForm
    ensures g.editing.Some? && g.editing.value < i ==> r.editing == g.editing
    ensures g.editing.Some? && g.editing.value > i ==> r.editing == Some(g.editing.value - 1)
    ensures g.editing.None? ==> r.editing.None?
  {
    var items := RemoveAt(g.items, i);
    match g.editing
    case Some(j) =>
      if j == i then GridModel(items, fd.defaultForm, None)
      else if j > i then g.(items := items, editing := Some(j - 1))
      else g.(items := items)
    case None => g.(items := items)
  }

  /** The grid's invariant: while editing, the index is in range and the loaded
      form is the one of the item at that index. */
  ghost predicate Consistent<T, P>(g: GridModel<T, P>, fd: FormData<T, P>) {
    g.editing.Some? ==> g.editing.value < |g.items| && fd.toForm(g.items[g.editing.value]) == g.currentForm
  }

  /** One callback invocation; `Vec::remove` beyond the end is the only way to fail. */
  datatype Action<P> = SubmitForm(form: P) | EditItem(index: nat) | DeleteItem(index: nat) | CancelEdit

  function Step<T, P>(g: GridModel<T, P>, a: Action<P>, fd: FormData<T, P>): (r: Option<GridModel<T, P>>)
    ensures r.None? <==> a.DeleteItem? && a.index >= |g.items|
  {
    match a
    case SubmitForm(form) => Some(Submit(g, form, fd))
    case EditItem(i) => Some(Edit(g, i, fd))
    case DeleteItem(i) => if i < |g.items| then Some(Delete(g, i, fd)) else None
    case CancelEdit => Some(Cancel(g, fd))
  }

  function Run<T, P>(g: GridModel<T, P>, actions: seq<Action<P>>, fd: FormData<T, P>): Option<GridModel<T, P>>
    decreases |actions|
  {
    if |actions| == 0 then Some(g)
    else match Step(g, actions[0], fd)
      case None => None
      case Some(g') => Run(g', actions[1..], fd)
  }

  /** Every callback keeps the invariant. */
  lemma StepConsistent<T, P>(g: GridModel<T, P>, a: Action<P>, fd: FormData<T, P>)
    requires Consistent(g, fd)
    ensures Step(g, a, fd).Some? ==> Consistent(Step(g, a, fd).value, fd)
  {
    if a.DeleteItem? && a.index < |g.items| && g.editing.Some? && g.editing.value > a.index {
      var r := Delete(g, a.index, fd);
      assert r.items[g.editing.value - 1] == g.items[g.editing.value];
    }
  }

  /** A grid started from any initial list stays consistent through any run of callbacks. */
  lemma {:induction false} RunConsistent<T, P>(initial: seq<T>, actions: seq<Action<P>>, fd: FormData<T, P>)
    ensures Run(Init(initial, fd), actions, fd).Some? ==> Consistent(Run(Init(initial, fd), actions, fd).value, fd)
  {
    RunPreserves(Init(initial, fd), actions, fd);
  }

  lemma {:induction false} RunPreserves<T, P>(g: GridModel<T, P>, actions: seq<Action<P>>, fd: FormData<T, P>)
    requires Consistent(g, fd)
    ensures Run(g, actions, fd).Some? ==> Consistent(Run(g, actions, fd).value, fd)
    decreases |actions|
  {
    if |actions| > 0 {
      StepConsistent(g, actions[0], fd);
      if Step(g, actions[0], fd).Some? {
        RunPreserves(Step(g, actions[0], fd).value, actions[1..], fd);
      }
    }
  }

  /** One callback invocation as the component runs it, with `on_delete` as written. */
  function StepAsWritten<T, P>(g: GridModel<T, P>, a: Action<P>, fd: FormData<T, P>): (r: Option<GridModel<T, P>>)
    ensures r.None? <==> a.DeleteItem? && a.index >= |g.items|
  {
    match a
    case SubmitForm(form) => Some(Submit(g, form, fd))
    case EditItem(i) => Some(Edit(g, i, fd))
    case DeleteItem(i) => if i < |g.items| then Some(DeleteAsWritten(g, i, fd)) else None
    case CancelEdit => Some(Cancel(g, fd))
  }

  function RunAsWritten<T, P>(g: GridModel<T, P>, actions: seq<Action<P>>, fd: FormData<T, P>): Option<GridModel<T, P>>
    decreases |actions|
  {
    if |actions| == 0 then Some(g)
    else match StepAsWritten(g, actions[0], fd)
      case None => None
      case Some(g') => RunAsWritten(g', actions[1..], fd)
  }

  /** A delete before the item being edited. */
  predicate DeletesBeforeEdit<T, P>(g: GridModel<T, P>, a: Action<P>) {
    a.DeleteItem? && g.editing.Some? && a.index < g.editing.value
  }

  /** The component's callbacks and the corrected ones differ only on a delete
      before the item being edited; on a consistent grid such a delete breaks the
      invariant exactly when the item after the edited one does not have the
      loaded form, in particular whenever the edited item is the last. */
  lemma StepAsWrittenBreaks<T, P>(g: GridModel<T, P>, a: Action<P>, fd: FormData<T, P>)
    requires Consistent(g, fd)
    ensures !DeletesBeforeEdit(g, a) ==> StepAsWritten(g, a, fd) == Step(g, a, fd)
    ensures StepAsWritten(g, a, fd).Some? ==>
              (!Consistent(StepAsWritten(g, a, fd).value, fd) <==>
                 DeletesBeforeEdit(g, a) &&
                 (g.editing.value + 1 == |g.items| || fd.toForm(g.items[g.editing.value + 1]) != g.currentForm))
  {
    if DeletesBeforeEdit(g, a) {
      var j := g.editing.value;
      var r := DeleteAsWritten(g, a.index, fd);
      if j + 1 < |g.items| {
        assert r.items[j] == g.items[j + 1];
      }
    } else {
      StepConsistent(g, a, fd);
    }
  }

  /** Without deletes the component's run is the corrected run, so it keeps the invariant. */
  lemma {:induction false} RunAsWrittenWithoutDeletes<T, P>(g: GridModel<T, P>, actions: seq<Action<P>>, fd: FormData<T, P>)
    requires forall k :: 0 <= k < |actions| ==> !actions[k].DeleteItem?
    ensures RunAsWritten(g, actions, fd) == Run(g, actions, fd)
    ensures Consistent(g, fd) && RunAsWritten(g, actions, fd).Some? ==> Consistent(RunAsWritten(g, actions, fd).value, fd)
    decreases |actions|
  {
    if |actions| > 0 {
      assert StepAsWritten(g, actions[0], fd) == Step(g, actions[0], fd);
      var g' := Step(g, actions[0], fd).value;
      assert forall k :: 0 <= k < |actions[1..]| ==> !actions[1..][k].DeleteItem? by {
        forall k | 0 <= k < |actions[1..]| ensures !actions[1..][k].DeleteItem? {
          assert actions[1..][k] == actions[k + 1];
        }
      }
      RunAsWrittenWithoutDeletes(g', actions[1..], fd);
      if Consistent(g, fd) { RunPreserves(g, actions, fd); }
    }
  }

  /** The component's own callbacks break the invariant in two steps from a fresh grid. */
  lemma RunAsWrittenBreaks()
    ensures var r := RunAsWritten(Init([10, 20, 30, 40], IntForms()), [EditItem(2), DeleteItem(0)], IntForms());
            r.Some? && !Consistent(r.value, IntForms())
  {
    var g := Init([10, 20, 30, 40], IntForms());
    var e := Edit(g, 2, IntForms());
    assert e.items == [10, 20, 30, 40] && e.editing == Some(2) && e.currentForm == 30;
    var d := DeleteAsWritten(e, 0, IntForms());
    assert d.items == [20, 30, 40] && d.items[2] == 40;
    var acts: seq<Action<int>> := [EditItem(2), DeleteItem(0)];
    assert acts[1..] == [DeleteItem(0)];
    assert acts[1..][1..] == [];
  }

  /** Deleting some other item keeps the edited item under the editing index,
      so a later submit overwrites the item that was loaded into the form. */
  lemma DeleteKeepsEditedItem<T, P>(g: GridModel<T, P>, i: nat, fd: FormData<T, P>)
    requires i < |g.items| && g.editing.Some? && g.editing.value < |g.items| && g.editing.value != i
    ensures Delete(g, i, fd).editing.Some?
    ensures Delete(g, i, fd).items[Delete(g, i, fd).editing.value] == g.items[g.editing.value]
  {
    var r := Delete(g, i, fd);
    if g.editing.value > i {
      assert r.items[g.editing.value - 1] == g.items[g.editing.value];
    }
  }

  /** Integers edited through themselves, for concrete scenarios. */
  function IntForms(): FormData<int, int> {
    FormData(x => x, x => x, 0)
  }

  /** As written, deleting an item before the one being edited leaves the
      editing index pointing one item too far: editing 30 in [10, 20, 30, 40],
      deleting 10 and submitting 31 overwrites 40 and keeps 30. */
  lemma DeleteAsWrittenShiftsEdit()
    ensures var g := Edit(Init([10, 20, 30, 40], IntForms()), 2, IntForms());
            Consistent(g, IntForms())
            && !Consistent(DeleteAsWritten(g, 0, IntForms()), IntForms())
            && Submit(DeleteAsWritten(g, 0, IntForms()), 31, IntForms()).items == [20, 30, 31]
  {
    var g := Edit(Init([10, 20, 30, 40], IntForms()), 2, IntForms());
    assert g.items == [10, 20, 30, 40] && g.editing == Some(2) && g.currentForm == 30;
    var d := DeleteAsWritten(g, 0, IntForms());
    assert d.items == [20, 30, 40];
    assert d.items[2] == 40;
    assert Submit(d, 31, IntForms()).items == [20, 30, 40][2 := 31];
  }

  /** With the index following its item, the same scenario overwrites 30. */
  lemma DeleteShiftsEdit()
    ensures var g := Edit(Init([10, 20, 30, 40], IntForms()), 2, IntForms());
            Submit(Delete(g, 0, IntForms()), 31, IntForms()).items == [20, 31, 40]
  {
    var g := Edit(Init([10, 20, 30, 40], IntForms()), 2, IntForms());
    var d := Delete(g, 0, IntForms());
    assert d.items == [20, 30, 40] && d.editing == Some(1);
    assert Submit(d, 31, IntForms()).items == [20, 30, 40][1 := 31];
  }
}
