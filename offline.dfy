/** lib/offline/sync.ts: the queue of writes made while offline, replayed by the
    sync manager once the network is back. Only the queueing is modelled. */
module Offline {
  import opened Records

  class SyncQueue {
    /** Queued operations, oldest first. */
    var ops: seq<OfflineOperation>

    constructor ()
      ensures ops == []
    {
      ops := [];
    }

    /** `addOfflineOperation`: appends one operation, not yet synced. */
    method Add(kind: OpKind, table: TableName, data: OpData)
      modifies this
      ensures ops == old(ops) + [OfflineOperation(kind, table, data)]
    {
      ops := ops + [OfflineOperation(kind, table, data)];
    }
  }
}
