/** The readiness of a client, after src/data_sync/status.rs; the waiting half is in StatusMonitor.dfy. */
module Status {
  datatype SyncStatus = Starting | Ready | Stale | Closed

  class StatusTracker {
    var status: SyncStatus
    var initialized: bool

    constructor (status: SyncStatus, initialized: bool)
      ensures this.status == status && this.initialized == initialized
    {
      this.status, this.initialized := status, initialized;
    }

    /** The lock makes the two stores one step. */
    method Set(status: SyncStatus)
      modifies this
      ensures this.status == status
      ensures initialized == (old(initialized) || status == Ready)
    {
      if status == Ready {
        initialized := true;
      }
      this.status := status;
    }
  }
}
