/** The inventory component's state and the handlers that change it. */
module Component {
  import opened Records
  import opened Adapter
  import opened Validation
  import opened Snapshot
  import Names

  class Inventory {
    /** The items of the latest snapshot; only the snapshot callback writes it. */
    var items: seq<Item>
    /** The add form's current field values. */
    var newItem: Record
    /** The error text shown above the form; empty when there is none. */
    var error: string
    /** The item being edited, if any. */
    var editingItem: Option<Item>
    /** Every write sent to the remote collection, oldest first. */
    ghost var log: seq<Call>

    /** The error shown is one the form can produce, and every record pushed
        passed the field checks. */
    ghost predicate Valid()
      reads this
    {
      && (error == "" || error == DuplicateNameMessage || error == InvalidFieldsMessage)
      && forall c :: c in log && c.Push? ==> FieldsValid(c.rec)
    }

    /** The component's initial state: no items, an empty form, no error,
        nothing being edited and nothing sent. */
    constructor ()
      ensures Valid()
      ensures items == [] && newItem == EmptyRecord && error == ""
      ensures editingItem == None && log == []
    {
      items := [];
      newItem := EmptyRecord;
      error := "";
      editingItem := None;
      log := [];
    }

    /** The snapshot callback: the item list is replaced as a whole by the
        decoding of the delivered value, enumerated in `order`. */
    method OnValue(data: Data, order: seq<string>)
      requires Valid()
      requires data.Some? ==> IsEnumeration(order, data.value)
      modifies this`items
      ensures Valid()
      ensures items == Decode(data, order)
    {
      items := Decode(data, order);
    }

    /** The form's change handlers, one per field: each replaces that field
        of the form and keeps the others. */
    method SetName(v: string)
      requires Valid()
      modifies this`newItem
      ensures Valid()
      ensures newItem == old(newItem).(name := v)
    {
      newItem := newItem.(name := v);
    }

    method SetStock(v: int)
      requires Valid()
      modifies this`newItem
      ensures Valid()
      ensures newItem == old(newItem).(stock := v)
    {
      newItem := newItem.(stock := v);
    }

    method SetMin(v: int)
      requires Valid()
      modifies this`newItem
      ensures Valid()
      ensures newItem == old(newItem).(min := v)
    {
      newItem := newItem.(min := v);
    }

    method SetMax(v: int)
      requires Valid()
      modifies this`newItem
      ensures Valid()
      ensures newItem == old(newItem).(max := v)
    {
      newItem := newItem.(max := v);
    }

    method SetLink(v: string)
      requires Valid()
      modifies this`newItem
      ensures Valid()
      ensures newItem == old(newItem).(link := v)
    {
      newItem := newItem.(link := v);
    }

    /** The add button: a candidate whose name is already listed (ignoring
        case) is refused with the duplicate message; otherwise one with a bad
        field is refused with the fill-in message. A refusal sends nothing
        and keeps the form. An accepted candidate is pushed once, the form is
        reset and the error cleared. The listing itself is never touched. */
    method AddItem()
      requires Valid()
      modifies this`newItem, this`error, this`log
      ensures Valid()
      ensures IsDuplicate(old(items), old(newItem).name) ==>
                error == DuplicateNameMessage && newItem == old(newItem) && log == old(log)
      ensures !IsDuplicate(old(items), old(newItem).name) && !FieldsValid(old(newItem)) ==>
                error == InvalidFieldsMessage && newItem == old(newItem) && log == old(log)
      ensures Validate(old(items), old(newItem)) == None ==>
                log == old(log) + [Push(old(newItem))] && newItem == EmptyRecord && error == ""
      ensures Validate(old(items), old(newItem)).Some? ==>
                error == Message(Validate(old(items), old(newItem)).value)
      ensures error == "" <==> Validate(old(items), old(newItem)) == None
    {
      if IsDuplicate(items, newItem.name) {
        error := Message(DuplicateName);
        return;
      }
      if !FieldsValid(newItem) {
        error := Message(InvalidFields);
        return;
      }
      log := log + [Push(newItem)];
      newItem := EmptyRecord;
      error := "";
    }

    /** The delete button: one remove for `id` is sent, whether or not `id`
        is listed; nothing local changes. */
    method DeleteItem(id: string)
      requires Valid()
      modifies this`log
      ensures Valid()
      ensures log == old(log) + [Remove(id)]
    {
      log := log + [Remove(id)];
    }

    /** Saving an edit: with an item being edited, one update is sent for
        its id carrying its other fields, and the edit ends; with none,
        nothing happens. */
    method UpdateItem()
      requires Valid()
      modifies this`editingItem, this`log
      ensures Valid()
      ensures old(editingItem).None? ==> editingItem == None && log == old(log)
      ensures old(editingItem).Some? ==>
                editingItem == None &&
                log == old(log) + [Update(old(editingItem).value.id, old(editingItem).value.rec)]
    {
      if editingItem.Some? {
        var edited := editingItem.value;
        log := log + [Update(edited.id, edited.rec)];
        editingItem := None;
      }
    }
  }

  /** A client of the component: filling in the form and adding "Bolt" sends
      exactly one push with those fields and does not list it; once the store
      delivers the collection with the record under a new key, it is listed,
      and a second add of "bolt" is refused without a write. */
  method AddBoltScenario(key: string) returns (inv: Inventory)
    ensures inv.log == [Push(Record("Bolt", 5, 0, 10, ""))]
    ensures inv.items == [Item(key, Record("Bolt", 5, 0, 10, ""))]
    ensures inv.error == DuplicateNameMessage
  {
    inv := new Inventory();
    inv.SetName("Bolt");
    inv.SetStock(5);
    inv.SetMax(10);
    inv.AddItem();
    assert inv.items == [] && inv.newItem == EmptyRecord;
    inv.OnValue(Some(map[key := Record("Bolt", 5, 0, 10, "")]), [key]);
    inv.SetName("bolt");
    assert Names.Lower("Bolt") == Names.Lower("bolt");
    inv.AddItem();
  }
}
