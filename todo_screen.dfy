/**
 * The to-do screen component (`Index`): its three pieces of React state as
 * fields, and one method per handler that replaces them. What each handler
 * computes is given by the functions of module TodoList; the storage it
 * persists to is a key-value slot.
 */
module TodoScreen {
  import opened TodoList
  import opened JsString

  /** The storage key the texts are saved under. */
  const ItemsKey: string := "@items"

  /** The durable key-value store. A value is kept already decoded: the JSON
      array of texts as a sequence of strings. */
  class AsyncStorage {
    var entries: map<string, seq<string>>

    constructor ()
      ensures entries == map[]
    {
      entries := map[];
    }

    /** `getItem(key)`: `null` when nothing is stored under `key`. */
    function GetItem(key: string): Option<seq<string>>
      reads this
    {
      if key in entries then Some(entries[key]) else None
    }

    /** `setItem(key, value)` overwrites the slot. */
    method SetItem(key: string, value: seq<string>)
      modifies this
      ensures entries == old(entries)[key := value]
    {
      entries := entries[key := value];
    }
  }

  class Index {
    var items: seq<string>
    var newItem: string
    var checkedItems: seq<bool>

    /** The state as a value. */
    function State(): Todo
      reads this
    {
      Todo(items, checkedItems, newItem)
    }

    /** `useState<string[]>([])`, `useState("")`, `useState<boolean[]>([])` */
    constructor ()
      ensures State() == Initial && Aligned(State())
    {
      items := [];
      newItem := "";
      checkedItems := [];
    }

    /** `onChangeText={setNewItem}`: the text field edits `newItem` only. */
    method SetNewItem(text: string)
      modifies this
      ensures newItem == text
      ensures items == old(items) && checkedItems == old(checkedItems)
    {
      newItem := text;
    }

    /** `handleAddItem` */
    method HandleAddItem()
      modifies this
      ensures State() == Add(old(State()))
      ensures !IsBlank(old(newItem)) ==>
        && items == old(items) + [old(newItem)]
        && checkedItems == old(checkedItems) + [false]
        && newItem == ""
      ensures IsBlank(old(newItem)) ==> State() == old(State())
      ensures Aligned(old(State())) ==> Aligned(State())
    {
      AddAppendsNonBlank(State());
      if Trim(newItem) != [] {
        items := items + [newItem];
        checkedItems := checkedItems + [false];
        newItem := "";
      }
    }

    /** `handleDeleteItem`: delete every checked item. */
    method HandleDeleteItem()
      modifies this
      ensures State() == DeleteChecked(old(State()))
      ensures checkedItems == seq(|old(checkedItems)| - CheckedCount(old(checkedItems)), _ => false)
      ensures Aligned(old(State())) ==> Aligned(State())
    {
      DeleteCheckedClearsFlags(State());
      var remainingItems := UncheckedItems(items, checkedItems);
      items := remainingItems;
      checkedItems := UncheckedFlags(checkedItems);
    }

    /** `handleDeleteItemByIndex(index)` */
    method HandleDeleteItemByIndex(index: nat)
      modifies this
      ensures State() == DeleteByIndex(old(State()), index)
      ensures index < |old(items)| ==> items == old(items)[..index] + old(items)[index + 1..]
      ensures index < |old(checkedItems)| ==>
        checkedItems == old(checkedItems)[..index] + old(checkedItems)[index + 1..]
      ensures Aligned(old(State())) ==> Aligned(State())
    {
      DeleteByIndexRemovesOne(State(), index);
      var remainingItems := WithoutIndex(items, index);
      items := remainingItems;
      checkedItems := WithoutIndex(checkedItems, index);
    }

    /** `toggleCheck(index)`: copy the flags, negate one of them in the copy,
        store the copy. */
    method ToggleCheck(index: nat)
      requires index < |checkedItems|
      modifies this
      ensures State() == Toggle(old(State()), index)
      ensures Aligned(old(State())) ==> Aligned(State())
    {
      var flags := checkedItems;
      var updatedCheckedItems := new bool[|flags|](j requires 0 <= j < |flags| => flags[j]);
      updatedCheckedItems[index] := !updatedCheckedItems[index];
      checkedItems := updatedCheckedItems[..];
    }

    /** The `onPress` of the delete button on the item at `index`. */
    method PressDelete(index: nat)
      modifies this
      ensures State() == TodoList.PressDelete(old(State()), index)
      ensures IsChecked(old(checkedItems), index) ==> State() == DeleteChecked(old(State()))
      ensures !IsChecked(old(checkedItems), index) ==> State() == DeleteByIndex(old(State()), index)
    {
      PressDeletePolicy(State(), index);
      var selectedCount := CheckedCount(checkedItems);
      if selectedCount > 1 && IsChecked(checkedItems, index) {
        HandleDeleteItem();
      } else {
        HandleDeleteItemByIndex(index);
      }
    }

    /** `saveItemsToStorage`: only the texts are written. */
    method SaveItemsToStorage(storage: AsyncStorage)
      modifies storage
      ensures storage.entries == old(storage.entries)[ItemsKey := Saved(State())]
    {
      storage.SetItem(ItemsKey, items);
    }

    /** `loadItemsFromStorage`: when something is stored, its texts replace the
        list and every flag is reset to unchecked. */
    method LoadItemsFromStorage(storage: AsyncStorage)
      modifies this
      ensures State() == Load(old(State()), storage.GetItem(ItemsKey))
      ensures storage.GetItem(ItemsKey).Some? ==>
        && items == storage.GetItem(ItemsKey).value
        && checkedItems == seq(|items|, _ => false)
      ensures storage.GetItem(ItemsKey).None? ==> State() == old(State())
      ensures storage.GetItem(ItemsKey).Some? ==> Aligned(State())
    {
      var storedItems := storage.GetItem(ItemsKey);
      if storedItems.Some? {
        var parsedItems := storedItems.value;
        items := parsedItems;
        checkedItems := seq(|parsedItems|, _ => false);
      }
    }
  }

  /** A save followed by a load through one storage gives back the texts in
      order with every flag cleared. */
  method SaveThenLoad(screen: Index, storage: AsyncStorage)
    modifies screen, storage
    ensures storage.entries == old(storage.entries)[ItemsKey := old(screen.items)]
    ensures screen.items == old(screen.items)
    ensures screen.checkedItems == seq(|old(screen.items)|, _ => false)
    ensures screen.newItem == old(screen.newItem)
  {
    screen.SaveItemsToStorage(storage);
    screen.LoadItemsFromStorage(storage);
  }
}
