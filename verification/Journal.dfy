/** The durable record of the one account operation that may be under way. */
module Journal {
  import opened Catalog

  datatype OperationKind = CreateAccount | UpdateAccount | DeleteAccount | ClearAccountAuth | ChangePolicy

  datatype Phase =
    | Accepted
    | RoutesPrepared
    | RoutesEvacuated
    | FilesPrepared
    | ControlApplied
    | ProjectionRendered
    | RuntimePrepared
    | SnapshotActivated

  /** newAccount is "" for every kind but an update. */
  datatype Operation = Operation(
    id: string,
    kind: OperationKind,
    phase: Phase,
    account: Id,
    newAccount: Id,
    evacuated: map<User, Id>)

  predicate ValidOperation(operation: Operation) {
    && ValidId(operation.account)
    && (if operation.kind == UpdateAccount then ValidId(operation.newAccount) else operation.newAccount == "")
  }

  /** The accounts whose files and containers the operation may touch. */
  function OwnedIds(operation: Operation): set<Id> {
    if operation.kind == UpdateAccount then {operation.account, operation.newAccount} else {operation.account}
  }
}
