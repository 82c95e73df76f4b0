/** The values the inventory component works with. */
module Records {

  datatype Option<T> = None | Some(value: T)

  /** The fields of one inventory record, as the store keeps it under its key
      and as the add form holds it. */
  datatype Record = Record(name: string, stock: int, min: int, max: int, link: string)

  /** A record as the component lists it: the store key surfaced as `id`
      beside the record's own fields. */
  datatype Item = Item(id: string, rec: Record)

  /** The add form's initial value, and the value it is reset to after an add. */
  const EmptyRecord := Record("", 0, 0, 0, "")
}

/** The writes the component issues to the remote collection of the signed-in
    user; the transport itself is not modelled, only the sequence of calls. */
module Adapter {
  import opened Records

  datatype Call =
    | Push(rec: Record)                  // insert under a fresh store-generated key
    | Remove(id: string)                 // delete the record under `id`
    | Update(id: string, fields: Record) // merge `fields` into the record under `id`
}
