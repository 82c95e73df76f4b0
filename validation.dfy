/** The checks the add form runs before anything is written remotely. */
module Validation {
  import opened Records
  import opened Names

  datatype ErrorKind = DuplicateName | InvalidFields

  const DuplicateNameMessage := "An item with this name already exists."
  const InvalidFieldsMessage := "Please fill in all fields with valid values."

  /** The text the form shows for each rejection; the form shows an error
      exactly when its error text is non-empty. */
  function Message(e: ErrorKind): (m: string)
    ensures m != ""
    ensures m == DuplicateNameMessage <==> e == DuplicateName
  {
    match e
    case DuplicateName => DuplicateNameMessage
    case InvalidFields => InvalidFieldsMessage
  }

  /** Some listed item already carries `name`, ignoring case. */
  function IsDuplicate(items: seq<Item>, name: string): (r: bool)
    ensures r <==> exists i :: 0 <= i < |items| && SameName(items[i].rec.name, name)
  {
    if items == [] then false
    else SameName(items[0].rec.name, name) || IsDuplicate(items[1..], name)
  }

  /** The field checks: a non-empty name, non-negative stock and min, positive max.
      No order between min and max is demanded. */
  predicate FieldsValid(r: Record) {
    r.name != "" && r.stock >= 0 && r.min >= 0 && r.max > 0
  }

  /** The verdict of the add form on candidate `cand` against the listed
      `items`: the duplicate check runs first, the field checks second. */
  function Validate(items: seq<Item>, cand: Record): (r: Option<ErrorKind>)
    ensures r == Some(DuplicateName) <==>
              exists i :: 0 <= i < |items| && SameName(items[i].rec.name, cand.name)
    ensures r == Some(InvalidFields) <==>
              !IsDuplicate(items, cand.name) &&
              (cand.name == "" || cand.stock < 0 || cand.min < 0 || cand.max <= 0)
    ensures r == None <==> !IsDuplicate(items, cand.name) && FieldsValid(cand)
  {
    if IsDuplicate(items, cand.name) then Some(DuplicateName)
    else if !FieldsValid(cand) then Some(InvalidFields)
    else None
  }

  /** When a candidate is both a duplicate and malformed, the duplicate
      message wins. */
  lemma DuplicateReportedFirst(items: seq<Item>, cand: Record)
    requires IsDuplicate(items, cand.name) && !FieldsValid(cand)
    ensures Validate(items, cand) == Some(DuplicateName)
  {
  }

  /** A candidate whose min exceeds its max is accepted when everything else
      is in order. */
  lemma InvertedBandAccepted(items: seq<Item>, cand: Record)
    requires !IsDuplicate(items, cand.name)
    requires cand.name != "" && cand.stock >= 0 && 0 < cand.max < cand.min
    ensures Validate(items, cand) == None
  {
  }

  /** The verdict on a candidate depends on its name only up to case. */
  lemma VerdictIgnoresCase(items: seq<Item>, a: Record, b: Record)
    requires SameName(a.name, b.name)
    requires a.(name := b.name) == b
    ensures Validate(items, a) == Validate(items, b)
  {
  }

  /** No two listed items share a name, ignoring case. */
  ghost predicate NamesUnique(items: seq<Item>) {
    forall i, j :: 0 <= i < j < |items| ==> !SameName(items[i].rec.name, items[j].rec.name)
  }

  /** Accepting a candidate keeps the names of the list unique once the new
      record shows up at the end of it. */
  lemma AcceptKeepsNamesUnique(items: seq<Item>, cand: Record, id: string)
    requires NamesUnique(items)
    requires Validate(items, cand) == None
    ensures NamesUnique(items + [Item(id, cand)])
  {
  }

  /** Worked cases: "Widget" collides with a listed "widget"; "Bolt" with
      stock 5 and band 0..10 is accepted on an empty list; an empty name and
      a zero max are both refused as bad fields. */
  lemma WorkedCases()
    ensures Validate([Item("k1", Record("widget", 3, 1, 9, ""))], Record("Widget", 5, 0, 10, ""))
            == Some(DuplicateName)
    ensures Validate([], Record("Bolt", 5, 0, 10, "")) == None
    ensures Validate([], Record("", 5, 0, 10, "")) == Some(InvalidFields)
    ensures Validate([], Record("X", 5, 0, 0, "")) == Some(InvalidFields)
  {
    assert Lower("Widget") == Lower("widget");
  }
}
