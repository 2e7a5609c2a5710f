/**
 The one primitive every writer is built on: `submit` of a guarded ticket, as
 one atomic step. A receipt under the ticket's operation decides alone when
 there is one; otherwise the guard decides whether the body runs.
 */
module GuardedStore {
  datatype Verdict =
    | Replayed   // the same ticket already committed; its body does not run again
    | Clash      // the operation's receipt belongs to a different ticket
    | Applied    // body and receipt are written together
    | Refused    // the guard failed; nothing is written

  function Judge<O, T(==)>(receipts: map<O, T>, operation: O, ticket: T, guard: bool): Verdict
  {
    if operation in receipts then
      if receipts[operation] == ticket then Replayed else Clash
    else if guard then Applied
    else Refused
  }
}
