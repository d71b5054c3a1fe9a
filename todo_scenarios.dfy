/**
 * Concrete runs of the handlers. The bulk delete is derived from the general
 * lemmas of module TodoList; the others Dafny evaluates directly.
 */
module TodoScenarios {
  import opened TodoList

  /** Checking the only item and deleting it empties the list. */
  lemma CheckThenDeleteOnly()
    ensures PressDelete(Toggle(Todo(["Buy milk"], [false], ""), 0), 0) == Todo([], [], "")
  {
  }

  /** With two items checked, deleting a checked one deletes both. */
  lemma BulkDelete()
    ensures PressDelete(Todo(["A", "B", "C"], [true, true, false], ""), 0) == Todo(["C"], [false], "")
  {
    var t := Todo(["A", "B", "C"], [true, true, false], "");
    TwoCheckedCount(t.checkedItems, 0, 1);
    PressDeletePolicy(t, 0);
    DeleteCheckedClearsFlags(t);
    DeleteCheckedKeepsUnchecked(t, 2);
  }

  /** Deleting an unchecked item leaves the checked one alone. */
  lemma DeleteUncheckedOnly()
    ensures PressDelete(Todo(["A", "B"], [true, false], ""), 1) == Todo(["A"], [true], "")
  {
  }

  /** A checked item comes back unchecked after a save and a load. */
  lemma ReloadUnchecks(u: Todo)
    ensures Load(u, Some(Saved(Todo(["X"], [true], "")))) == Todo(["X"], [false], u.newItem)
  {
  }
}
