/** A queued request in the in-memory queue (QueueEntry.java). */
module QueueEntries {
  import opened Wrappers
  import opened Status
  import opened Requests

  class QueueEntry {
    const request: BatchRequest
    /** The request's key, fixed when the entry is made. */
    const requestKey: string
    var status: StatusFlag
    var started: Option<int>

    /** A new entry is Pending, not started, and keyed by the request's key (which getKey memoises). */
    constructor (request: BatchRequest)
      modifies request`key
      ensures this.request == request
      ensures requestKey == old(request.Key()) && request.key == Some(requestKey)
      ensures request.Key() == old(request.Key())
      ensures old(request.Valid()) ==> request.Valid()
      ensures status == Pending && started == None
    {
      this.request := request;
      var k := request.GetKey();
      requestKey := k;
      status := Pending;
      started := None;
    }

    /** setStarted: the entry is in progress from `now`, the clock reading System.currentTimeMillis gives. */
    method SetStarted(now: int)
      modifies this`status, this`started
      ensures status == InProgress && started == Some(now)
    {
      status := InProgress;
      started := Some(now);
    }

    method SetStatus(status: StatusFlag)
      modifies this`status
      ensures this.status == status
    {
      this.status := status;
    }

    /** The status getStatus reports: the key, the flag and the start time if there is one. */
    function StatusView(): StatusRecord
      reads this
    {
      Minimal(requestKey, status).(started := started)
    }

    /** getStatus: a new status object holding the key, the flag and the start time if any. */
    method GetStatus() returns (s: BatchStatus)
      ensures fresh(s)
      ensures s.Record() == StatusView()
      ensures s.Record().key == requestKey && s.Record().status == status && s.Record().started == started
      ensures s.Record().url.None? && s.Record().positionInQueue.None?
      ensures s.Record().estimatedTime.None? && s.Record().eta.None?
    {
      s := new BatchStatus(requestKey, status);
      if started.Some? {
        s.SetStarted(started.value);
      }
    }

    /** isFinished: the entry has completed or failed. */
    predicate IsFinished()
      reads this
    {
      status == Completed || status == Failed
    }
  }
}
