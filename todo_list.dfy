/**
 * The list store of the to-do screen as values: the two parallel arrays
 * `items` (texts) and `checkedItems` (completion flags), the text field
 * `newItem`, and the new values each handler computes from them.
 *
 * An item's identity is its position; the invariant that ties the two arrays
 * together is `Aligned`: they have the same length.
 */
module TodoList {
  import opened ArrayFilter
  import opened JsString

  datatype Option<T> = None | Some(value: T)

  /** The component's state: `items`, `checkedItems` and `newItem`. */
  datatype Todo = Todo(items: seq<string>, checkedItems: seq<bool>, newItem: string)

  /** The state the component starts in: every `useState` initial value. */
  const Initial := Todo([], [], "")

  /** Position `i` of `items` and position `i` of `checkedItems` describe one item. */
  predicate Aligned(t: Todo) {
    |t.items| == |t.checkedItems|
  }

  /** `checkedItems[i]`; reading past the end gives `undefined`, which is falsy. */
  function IsChecked(flags: seq<bool>, i: nat): (b: bool)
    ensures |flags| <= i ==> !b
    ensures i < |flags| ==> b == flags[i]
  {
    i < |flags| && flags[i]
  }

  // ---------------------------------------------------------------------------
  // The filter callbacks the handlers use

  /** `(_, i) => i !== index` */
  function SkipIndex<T>(index: nat): (T, nat) -> bool {
    (_, i: nat) => i != index
  }

  /** `(_, i) => !checkedItems[i]` */
  function KeepUncheckedAt(flags: seq<bool>): (string, nat) -> bool {
    (_, i: nat) => !IsChecked(flags, i)
  }

  /** `item => !item` */
  function IsFalse(c: bool, i: nat): bool {
    !c
  }

  /** `checked => checked` */
  function IsTrue(c: bool, i: nat): bool {
    c
  }

  // ---------------------------------------------------------------------------
  // The pure expressions inside the handlers

  /** `a.filter((_, i) => i !== index)` */
  function WithoutIndex<T>(s: seq<T>, index: nat): seq<T> {
    Filter(s, SkipIndex(index))
  }

  /** `items.filter((_, i) => !checkedItems[i])` */
  function UncheckedItems(items: seq<string>, flags: seq<bool>): seq<string> {
    Filter(items, KeepUncheckedAt(flags))
  }

  /** `checkedItems.filter(item => !item)` */
  function UncheckedFlags(flags: seq<bool>): seq<bool> {
    Filter(flags, IsFalse)
  }

  /** `checkedItems.filter(checked => checked).length`: together with the
      unchecked flags it accounts for every flag, and it is zero exactly when
      no flag is set. */
  function CheckedCount(flags: seq<bool>): (n: nat)
    ensures n + |UncheckedFlags(flags)| == |flags|
    ensures n == 0 <==> forall i :: 0 <= i < |flags| ==> !flags[i]
  {
    FilterComplement(flags, IsTrue, IsFalse);
    NoneCheckedIffZero(flags);
    |Filter(flags, IsTrue)|
  }

  /** No flag is checked exactly when filtering for checked flags keeps nothing. */
  lemma {:induction false} NoneCheckedIffZero(flags: seq<bool>)
    ensures |Filter(flags, IsTrue)| == 0 <==> forall i :: 0 <= i < |flags| ==> !flags[i]
  {
    if |Filter(flags, IsTrue)| == 0 {
      forall i | 0 <= i < |flags| ensures !flags[i] {
        if flags[i] {
          FilterAt(flags, IsTrue, i);
        }
      }
    } else {
      FilterFrom(flags, IsTrue, 0);
    }
  }

  /** Filtering the texts by the flags of an aligned state keeps as many texts
      as flags. */
  lemma UncheckedItemsAligned(items: seq<string>, flags: seq<bool>)
    ensures |items| == |flags| ==> |UncheckedItems(items, flags)| == |UncheckedFlags(flags)|
  {
    if |items| == |flags| {
      FilterSameCount(items, KeepUncheckedAt(flags), flags, IsFalse);
    }
  }

  /** The number of unchecked items before position `k`: the position an
      unchecked item at `k` moves to when the checked items are deleted. */
  function UncheckedBefore(flags: seq<bool>, k: nat): nat
    requires k <= |flags|
  {
    |UncheckedFlags(flags[..k])|
  }

  // ---------------------------------------------------------------------------
  // The handlers, as functions from the old state to the new one

  /** `handleAddItem`: the entries already present are never altered, and at
      most one entry is added: the typed text, unchecked, after which the input
      is cleared. */
  function Add(t: Todo): (r: Todo)
    ensures t.items <= r.items && t.checkedItems <= r.checkedItems
    ensures |r.items| <= |t.items| + 1
    ensures |r.items| == |t.items| + 1 ==>
      r.items[|t.items|] == t.newItem && r.checkedItems == t.checkedItems + [false] && r.newItem == ""
    ensures Aligned(t) ==> Aligned(r)
  {
    if Trim(t.newItem) != [] then Todo(t.items + [t.newItem], t.checkedItems + [false], "")
    else t
  }

  /** `handleDeleteItem`: delete every checked item. The flags shrink by
      exactly the number that were checked, the texts never grow, alignment
      is kept and the input is untouched. */
  function DeleteChecked(t: Todo): (r: Todo)
    ensures |r.checkedItems| == |t.checkedItems| - CheckedCount(t.checkedItems)
    ensures |r.items| <= |t.items|
    ensures Aligned(t) ==> Aligned(r)
    ensures r.newItem == t.newItem
  {
    UncheckedItemsAligned(t.items, t.checkedItems);
    Todo(UncheckedItems(t.items, t.checkedItems), UncheckedFlags(t.checkedItems), t.newItem)
  }

  /** `handleDeleteItemByIndex(index)`: each array loses one entry when `index`
      is inside it and none otherwise; alignment is kept and the input is
      untouched. */
  function DeleteByIndex(t: Todo, index: nat): (r: Todo)
    ensures |r.items| == if index < |t.items| then |t.items| - 1 else |t.items|
    ensures |r.checkedItems| == if index < |t.checkedItems| then |t.checkedItems| - 1 else |t.checkedItems|
    ensures Aligned(t) ==> Aligned(r)
    ensures r.newItem == t.newItem
  {
    WithoutIndexSplices(t.items, index);
    WithoutIndexSplices(t.checkedItems, index);
    Todo(WithoutIndex(t.items, index), WithoutIndex(t.checkedItems, index), t.newItem)
  }

  /** `toggleCheck(index)` */
  function Toggle(t: Todo, index: nat): (r: Todo)
    requires index < |t.checkedItems|
    ensures r.items == t.items && r.newItem == t.newItem
    ensures |r.checkedItems| == |t.checkedItems|
    ensures r.checkedItems[index] == !t.checkedItems[index]
    ensures forall j :: 0 <= j < |t.checkedItems| && j != index ==> r.checkedItems[j] == t.checkedItems[j]
    ensures Aligned(t) ==> Aligned(r)
  {
    t.(checkedItems := t.checkedItems[index := !t.checkedItems[index]])
  }

  /** The delete button of the item at `index`: with more than one item checked,
      deleting a checked item deletes every checked item; otherwise only the
      item at `index` goes. Either way, on an aligned state with `index` inside
      the list, the list gets shorter: the pressed item is never kept. */
  function PressDelete(t: Todo, index: nat): (r: Todo)
    ensures Aligned(t) && index < |t.items| ==> |r.items| < |t.items|
    ensures Aligned(t) ==> Aligned(r)
    ensures r.newItem == t.newItem
  {
    if CheckedCount(t.checkedItems) > 1 && IsChecked(t.checkedItems, index) then DeleteChecked(t)
    else DeleteByIndex(t, index)
  }

  /** `saveItemsToStorage`: the payload written is the texts alone, in order;
      neither the flags nor the input are part of it. */
  function Saved(t: Todo): (payload: seq<string>)
    ensures payload == t.items
  {
    t.items
  }

  /** `loadItemsFromStorage`, given what the storage slot holds. */
  function Load(t: Todo, stored: Option<seq<string>>): (r: Todo)
    ensures stored.None? ==> r == t
    ensures stored.Some? ==> r.items == stored.value && Aligned(r)
    ensures forall i :: stored.Some? && 0 <= i < |r.checkedItems| ==> !r.checkedItems[i]
    ensures r.newItem == t.newItem
  {
    match stored
    case None => t
    case Some(parsed) => Todo(parsed, seq(|parsed|, _ => false), t.newItem)
  }

  // ---------------------------------------------------------------------------
  // Properties

  /** A text that is not blank is appended as typed (not trimmed) with an unchecked
      flag and the input is cleared; a blank text changes nothing at all. */
  lemma AddAppendsNonBlank(t: Todo)
    ensures !IsBlank(t.newItem) ==>
      && Add(t).items == t.items + [t.newItem]
      && Add(t).checkedItems == t.checkedItems + [false]
      && Add(t).newItem == ""
    ensures IsBlank(t.newItem) ==> Add(t) == t
    ensures Aligned(t) ==> Aligned(Add(t))
  {
  }

  /** Toggling the same item twice restores the state. */
  lemma ToggleTwice(t: Todo, index: nat)
    requires index < |t.checkedItems|
    ensures Toggle(Toggle(t, index), index) == t
  {
  }

  /** Deleting by an index inside the list removes exactly that position from
      both arrays; an index past the end removes nothing. */
  lemma DeleteByIndexRemovesOne(t: Todo, index: nat)
    ensures index < |t.items| ==> DeleteByIndex(t, index).items == t.items[..index] + t.items[index + 1..]
    ensures index < |t.checkedItems| ==>
      DeleteByIndex(t, index).checkedItems == t.checkedItems[..index] + t.checkedItems[index + 1..]
    ensures |t.items| <= index ==> DeleteByIndex(t, index).items == t.items
    ensures |t.checkedItems| <= index ==> DeleteByIndex(t, index).checkedItems == t.checkedItems
    ensures DeleteByIndex(t, index).newItem == t.newItem
    ensures Aligned(t) ==> Aligned(DeleteByIndex(t, index))
  {
    WithoutIndexSplices(t.items, index);
    WithoutIndexSplices(t.checkedItems, index);
  }

  lemma WithoutIndexSplices<T>(s: seq<T>, index: nat)
    ensures index < |s| ==> WithoutIndex(s, index) == s[..index] + s[index + 1..]
    ensures |s| <= index ==> WithoutIndex(s, index) == s
  {
    if index < |s| {
      FilterDropsOne(s, SkipIndex(index), index);
    } else {
      FilterKeepsAll(s, SkipIndex(index));
    }
  }

  /** After deleting the checked items every flag left is false, one per
      remaining text, and as many texts remain as were unchecked. */
  lemma DeleteCheckedClearsFlags(t: Todo)
    ensures DeleteChecked(t).checkedItems == seq(|t.checkedItems| - CheckedCount(t.checkedItems), _ => false)
    ensures Aligned(t) ==> Aligned(DeleteChecked(t))
    ensures Aligned(t) ==> |DeleteChecked(t).items| == |t.items| - CheckedCount(t.checkedItems)
  {
    var flags := t.checkedItems;
    var r := UncheckedFlags(flags);
    FilterComplement(flags, IsTrue, IsFalse);
    forall j | 0 <= j < |r| ensures !r[j] {
      FilterFrom(flags, IsFalse, j);
    }
    if Aligned(t) {
      FilterSameCount(t.items, KeepUncheckedAt(flags), flags, IsFalse);
    }
  }

  /** Deleting the checked items keeps every unchecked item: it moves to the
      position given by the number of unchecked items before it. */
  lemma DeleteCheckedKeepsUnchecked(t: Todo, k: nat)
    requires Aligned(t) && k < |t.items| && !t.checkedItems[k]
    ensures UncheckedBefore(t.checkedItems, k) < |DeleteChecked(t).items|
    ensures DeleteChecked(t).items[UncheckedBefore(t.checkedItems, k)] == t.items[k]
  {
    FilterAt(t.items, KeepUncheckedAt(t.checkedItems), k);
    RankOfUnchecked(t, k);
  }

  /** Deleting the checked items keeps nothing else: every text left comes from
      an unchecked position, and the one at `j` from the position with `j`
      unchecked items before it. */
  lemma DeleteCheckedOnlyUnchecked(t: Todo, j: nat)
    requires Aligned(t) && j < |DeleteChecked(t).items|
    ensures exists k ::
      && 0 <= k < |t.items| && !t.checkedItems[k]
      && UncheckedBefore(t.checkedItems, k) == j
      && DeleteChecked(t).items[j] == t.items[k]
  {
    FilterFrom(t.items, KeepUncheckedAt(t.checkedItems), j);
    var k :| 0 <= k < |t.items| && KeepUncheckedAt(t.checkedItems)(t.items[k], k)
      && Rank(t.items, KeepUncheckedAt(t.checkedItems), k) == j && DeleteChecked(t).items[j] == t.items[k];
    RankOfUnchecked(t, k);
  }

  /** The unchecked items keep their relative order. */
  lemma DeleteCheckedKeepsOrder(t: Todo, i: nat, k: nat)
    requires Aligned(t) && i < k < |t.items| && !t.checkedItems[i]
    ensures UncheckedBefore(t.checkedItems, i) < UncheckedBefore(t.checkedItems, k)
  {
    FilterOrder(t.checkedItems, IsFalse, i, k);
  }

  /** The rank of an item among the kept texts is its count of unchecked flags before it. */
  lemma RankOfUnchecked(t: Todo, k: nat)
    requires Aligned(t) && k < |t.items|
    ensures Rank(t.items, KeepUncheckedAt(t.checkedItems), k) == UncheckedBefore(t.checkedItems, k)
  {
    FilterSameCount(t.items[..k], KeepUncheckedAt(t.checkedItems), t.checkedItems[..k], IsFalse);
  }

  /** Two different checked positions make the checked count at least two. */
  lemma TwoCheckedCount(flags: seq<bool>, i: nat, k: nat)
    requires i < k < |flags| && flags[i] && flags[k]
    ensures CheckedCount(flags) >= 2
  {
    FilterOrder(flags, IsTrue, i, k);
    FilterAt(flags, IsTrue, k);
  }

  /** The delete policy. Deleting a checked item always gives the same result as
      deleting every checked item (with only one item checked, that item is the
      one deleted); deleting an unchecked item removes that item alone. */
  lemma PressDeletePolicy(t: Todo, index: nat)
    ensures IsChecked(t.checkedItems, index) ==> PressDelete(t, index) == DeleteChecked(t)
    ensures !IsChecked(t.checkedItems, index) ==> PressDelete(t, index) == DeleteByIndex(t, index)
  {
    var flags := t.checkedItems;
    if IsChecked(flags, index) && CheckedCount(flags) <= 1 {
      forall i | 0 <= i < |flags| && i != index ensures !flags[i] {
        if flags[i] {
          if i < index { TwoCheckedCount(flags, i, index); } else { TwoCheckedCount(flags, index, i); }
        }
      }
      FilterSameKeep(t.items, KeepUncheckedAt(flags), SkipIndex(index));
      FilterSameKeep(flags, IsFalse, SkipIndex(index));
    }
  }

  /** Saving and loading again restores every text in order and clears every flag. */
  lemma SaveLoadClearsFlags(t: Todo, u: Todo)
    ensures Load(u, Some(Saved(t))).items == t.items
    ensures Load(u, Some(Saved(t))).checkedItems == seq(|t.items|, _ => false)
    ensures Aligned(Load(u, Some(Saved(t))))
  {
  }
}
