/** The record kept in the expense tracker's ledger, and the Option type the
    rest of the model uses for "absent" and for parse failures. */
module Records {

  /** Conventional Some/None, usable with `:-` in expressions. */
  datatype Option<+T> = None | Some(value: T) {
    predicate IsFailure() {
      None?
    }

    function PropagateFailure<U>(): Option<U>
      requires None?
    {
      None
    }

    function Extract(): T
      requires Some?
    {
      value
    }
  }

  /** One ledger entry, as built by the form's submit handler.
      `kind` is the record's `type` field: the form offers "income" and
      "expense", but the record keeps whatever string it was given, so the
      model keeps it as a string too. Amounts and ids are integers. */
  datatype Transaction = Transaction(
    id: int,
    amount: int,
    kind: string,
    category: string,
    date: string,
    notes: string
  )

  /** The ids held by a ledger. */
  function Ids(ts: seq<Transaction>): (ids: set<int>)
    ensures forall i :: 0 <= i < |ts| ==> ts[i].id in ids
    ensures forall x :: x in ids ==> exists i :: 0 <= i < |ts| && ts[i].id == x
  {
    set i | 0 <= i < |ts| :: ts[i].id
  }

  /** No two records of the ledger share an id. */
  predicate UniqueIds(ts: seq<Transaction>)
  {
    forall i, j :: 0 <= i < j < |ts| ==> ts[i].id != ts[j].id
  }
}
