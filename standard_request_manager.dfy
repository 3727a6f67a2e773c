/**
 * The request manager clients call (StandardRequestManager.java): it answers
 * from the result cache where it can and otherwise from the queue, and works
 * out queue positions and ETAs. Here it composes the in-memory queue and the
 * file cache.
 */
module StandardManager {
  import opened Wrappers
  import opened Status
  import opened Requests
  import opened QueueEntries
  import opened MemQueue
  import opened FileCache

  // ---------------------------------------------------------------------------
  // Status reconciliation
  // ---------------------------------------------------------------------------

  /** The status of a key whose result the cache holds: Completed, with the result URL. */
  function Cached(key: string, url: string): StatusRecord
  {
    Minimal(key, Completed).(url := Some(url))
  }

  /**
   * getStatus: Completed from the cache when the result is ready; a queue-side
   * Completed whose result is gone becomes Unknown; anything else the queue says.
   */
  function Reconciled(ready: bool, url: string, key: string, queued: StatusRecord): StatusRecord
  {
    if ready then Cached(key, url)
    else if queued.status == Completed then Minimal(key, Unknown)
    else queued
  }

  /** Completed is reported exactly when the cache holds the result; other queue flags pass through. */
  lemma ReconciledCompletedIffReady(ready: bool, url: string, key: string, queued: StatusRecord)
    ensures Reconciled(ready, url, key, queued).status == Completed <==> ready
    ensures ready ==> Reconciled(ready, url, key, queued).url == Some(url)
    ensures !ready && queued.status != Completed ==> Reconciled(ready, url, key, queued) == queued
    ensures !ready && queued.status == Completed ==> Reconciled(ready, url, key, queued) == Minimal(key, Unknown)
  {
  }

  // ---------------------------------------------------------------------------
  // Queue position and ETA
  // ---------------------------------------------------------------------------

  /** An entry's estimated time, 0 when it has none. */
  function Estimate(r: StatusRecord): int
  {
    if r.estimatedTime.Some? then r.estimatedTime.value else 0
  }

  /** The estimates of the first `n` queue statuses, added up. */
  function EtaUpTo(qs: seq<StatusRecord>, n: nat): int
    requires n <= |qs|
  {
    if n == 0 then 0 else EtaUpTo(qs, n - 1) + Estimate(qs[n - 1])
  }

  /** The 1-based position of the last queue status with the key, 0 when there is none. */
  function LastPosition(qs: seq<StatusRecord>, key: string): (p: nat)
    ensures p <= |qs|
    ensures p == 0 <==> forall j :: 0 <= j < |qs| ==> qs[j].key != key
    ensures p > 0 ==> qs[p - 1].key == key && forall j :: p <= j < |qs| ==> qs[j].key != key
  {
    if qs == [] then 0
    else if qs[|qs| - 1].key == key then |qs|
    else LastPosition(qs[..|qs| - 1], key)
  }

  /** The Pending case of getFullStatus: position and ETA of the key's queue entry, if it is queued. */
  function Placed(st: StatusRecord, qs: seq<StatusRecord>, key: string): StatusRecord
  {
    var p := LastPosition(qs, key);
    if p == 0 then st else st.(eta := Some(EtaUpTo(qs, p)), positionInQueue := Some(p))
  }

  /** The InProgress case of getFullStatus: position 0, and the time still expected if it is positive. */
  function Running(st: StatusRecord, now: int): StatusRecord
  {
    if st.started.Some? && st.estimatedTime.Some? then
      var sofar := now - st.started.value;
      var expected := st.estimatedTime.value;
      (if sofar < expected then st.(eta := Some(expected - sofar)) else st).(positionInQueue := Some(0))
    else st
  }

  /** getFullStatus when the cache does not hold the result, from the queue's status for the key, the queue and the clock. */
  function QueueSide(key: string, queued: StatusRecord, qs: seq<StatusRecord>, now: int): StatusRecord
  {
    match queued.status
    case Pending => Placed(queued, qs, key)
    case InProgress => Running(queued, now)
    case Completed => Minimal(key, Unknown)
    case _ => queued
  }

  /** getFullStatus, as a function of the cache's answer, the queue's status for the key, the queue and the clock. */
  function FullStatus(ready: bool, url: string, key: string, queued: StatusRecord, qs: seq<StatusRecord>, now: int): StatusRecord
  {
    if ready then Cached(key, url) else QueueSide(key, queued, qs, now)
  }

  /** In a queue with distinct keys, the entry at index `i` is at position `i + 1` with the estimates up to it summed. */
  lemma PlacedAtIndex(st: StatusRecord, qs: seq<StatusRecord>, key: string, i: nat)
    requires i < |qs| && qs[i].key == key
    requires forall j :: 0 <= j < |qs| && j != i ==> qs[j].key != key
    ensures Placed(st, qs, key) == st.(eta := Some(EtaUpTo(qs, i + 1)), positionInQueue := Some(i + 1))
  {
  }

  /** A key that is not queued gets neither a position nor an ETA. */
  lemma PlacedAbsent(st: StatusRecord, qs: seq<StatusRecord>, key: string)
    requires forall j :: 0 <= j < |qs| ==> qs[j].key != key
    ensures Placed(st, qs, key) == st
  {
  }

  /** With no negative estimates, an entry further back never has a smaller ETA. */
  lemma {:induction false} EtaMonotone(qs: seq<StatusRecord>, m: nat, n: nat)
    requires m <= n <= |qs|
    requires forall j :: 0 <= j < |qs| ==> Estimate(qs[j]) >= 0
    ensures 0 <= EtaUpTo(qs, m) <= EtaUpTo(qs, n)
    decreases n
  {
    if m < n {
      EtaMonotone(qs, m, n - 1);
    } else if n > 0 {
      EtaMonotone(qs, m - 1, n - 1);
    }
  }

  /** Statuses without estimates add up to an ETA of 0. */
  lemma {:induction false} EtaWithoutEstimates(qs: seq<StatusRecord>, n: nat)
    requires n <= |qs|
    requires forall j :: 0 <= j < |qs| ==> qs[j].estimatedTime.None?
    ensures EtaUpTo(qs, n) == 0
  {
    if n > 0 { EtaWithoutEstimates(qs, n - 1); }
  }

  /** An InProgress status gets position 0 and a positive ETA, or none, when it has a start and an estimate. */
  lemma RunningShape(st: StatusRecord, now: int)
    requires st.started.Some? && st.estimatedTime.Some?
    ensures Running(st, now).positionInQueue == Some(0)
    ensures var sofar := now - st.started.value;
      if sofar < st.estimatedTime.value then
        Running(st, now).eta == Some(st.estimatedTime.value - sofar) && Running(st, now).eta.value > 0
      else Running(st, now).eta == st.eta
    ensures Running(st, now).(eta := st.eta, positionInQueue := st.positionInQueue) == st
  {
  }

  /** Without a start time or an estimate, an InProgress status is reported as the queue gave it. */
  lemma RunningUnchanged(st: StatusRecord, now: int)
    requires st.started.None? || st.estimatedTime.None?
    ensures Running(st, now) == st
  {
  }

  /** The full status reports Completed exactly when the cache holds the result, like getStatus. */
  lemma FullStatusCompletedIffReady(ready: bool, url: string, key: string, queued: StatusRecord, qs: seq<StatusRecord>, now: int)
    ensures FullStatus(ready, url, key, queued, qs, now).status == Completed <==> ready
    ensures FullStatus(ready, url, key, queued, qs, now).status == Reconciled(ready, url, key, queued).status
  {
  }

  /** The in-memory queue's statuses carry no estimate, so the ETA it yields is always 0. */
  lemma MemQueueEtaIsZero(qm: MemQueueManager, n: nat)
    requires n <= |qm.queue|
    ensures EtaUpTo(qm.QueueView(), n) == 0
  {
    EtaWithoutEstimates(qm.QueueView(), n);
  }

  /** The keys of the in-memory queue's statuses are distinct, so the position found is the entry's own. */
  lemma MemQueueKeysDistinct(qm: MemQueueManager, i: nat, j: nat)
    requires qm.Valid() && i < j < |qm.queue|
    ensures qm.QueueView()[i].key != qm.QueueView()[j].key
  {
  }

  // ---------------------------------------------------------------------------
  // The manager
  // ---------------------------------------------------------------------------

  class StandardRequestManager {
    const queueManager: MemQueueManager
    const cacheManager: FileCacheManager

    ghost predicate Valid()
      reads queueManager, queueManager.queue, cacheManager
    {
      queueManager.Valid() && cacheManager.Valid()
    }

    /** A manager with its queue and cache set, as setQueueManager and setCacheManager do. */
    constructor (queueManager: MemQueueManager, cacheManager: FileCacheManager)
      ensures this.queueManager == queueManager && this.cacheManager == cacheManager
    {
      this.queueManager := queueManager;
      this.cacheManager := cacheManager;
    }

    /**
     * submit: a cached result answers at once. Otherwise the queue takes the
     * request; when it says Completed but the cache has lost the result, the
     * request is resubmitted.
     */
    method Submit(request: BatchRequest) returns (s: BatchStatus)
      requires Valid()
      modifies queueManager`index, queueManager`queue, queueManager`completed, request`key
      ensures Valid()
      ensures fresh(s)
      ensures request.Key() == old(request.Key()) && request.key.Some?
      ensures var k := old(request.Key());
        if old(cacheManager.IsReady(k)) then
          && s.Record() == Cached(k, cacheManager.ResultURL(k))
          && queueManager.index == old(queueManager.index) && queueManager.queue == old(queueManager.queue)
          && queueManager.completed == old(queueManager.completed)
        else if k in old(queueManager.index) && old(queueManager.index[k].status) == Completed then
          && s.Record() == Minimal(k, Pending)
          && k in queueManager.index && fresh(queueManager.index[k])
          && queueManager.index == old(queueManager.index)[k := queueManager.index[k]]
          && queueManager.queue == old(queueManager.queue) + [queueManager.index[k]]
          && queueManager.completed == RemoveFirst(old(queueManager.completed), old(queueManager.index[k]))
        else if k in old(queueManager.index) then
          && s.Record() == old(queueManager.index[k].StatusView())
          && queueManager.index == old(queueManager.index) && queueManager.queue == old(queueManager.queue)
          && queueManager.completed == old(queueManager.completed)
        else
          && s.Record() == Minimal(k, Pending)
          && k in queueManager.index && fresh(queueManager.index[k])
          && queueManager.index == old(queueManager.index)[k := queueManager.index[k]]
          && queueManager.queue == old(queueManager.queue) + [queueManager.index[k]]
          && queueManager.completed == old(queueManager.completed)
    {
      var requestKey := request.GetKey();
      if cacheManager.IsReady(requestKey) {
        var url := cacheManager.GetResultURL(request);
        s := new BatchStatus.WithUrl(requestKey, Some(url), Completed);
      } else {
        ghost var entry := if requestKey in queueManager.index then Some(queueManager.index[requestKey]) else None;
        if entry.Some? && entry.value.status == Completed {
          CompletedNotQueued(entry.value);
        }
        s := queueManager.Submit(request);
        if s.status == Completed {
          if !cacheManager.IsReady(requestKey) {
            s := queueManager.Resubmit(request);
          }
        }
      }
    }

    /** A Completed entry is never in the queue. */
    lemma CompletedNotQueued(e: QueueEntry)
      requires Valid() && e.status == Completed
      ensures e !in queueManager.queue
      ensures RemoveFirst(queueManager.queue, e) == queueManager.queue
    {
      ActiveMembers(queueManager.queue);
    }

    /** getStatus: the cache's Completed, or the queue's status with a lost Completed turned into Unknown. */
    method GetStatus(requestKey: string) returns (s: BatchStatus)
      ensures fresh(s)
      ensures s.Record() == Reconciled(cacheManager.IsReady(requestKey), cacheManager.ResultURL(requestKey),
        requestKey, queueManager.StatusOf(requestKey))
    {
      if cacheManager.IsReady(requestKey) {
        s := new BatchStatus.WithUrl(requestKey, Some(cacheManager.ResultURL(requestKey)), Completed);
      } else {
        s := queueManager.GetStatus(requestKey);
        if s.status == Completed {
          s := new BatchStatus(requestKey, Unknown);
        }
      }
    }

    /**
     * getFullStatus at time `now`: getStatus, plus for a Pending key its
     * 1-based queue position and the estimates summed up to it, and for an
     * InProgress key the time still expected.
     */
    method GetFullStatus(requestKey: string, now: int) returns (s: BatchStatus)
      ensures fresh(s)
      ensures s.Record() == FullStatus(cacheManager.IsReady(requestKey), cacheManager.ResultURL(requestKey),
        requestKey, queueManager.StatusOf(requestKey), queueManager.QueueView(), now)
    {
      if cacheManager.IsReady(requestKey) {
        s := new BatchStatus.WithUrl(requestKey, Some(cacheManager.ResultURL(requestKey)), Completed);
        return;
      }
      var queued := queueManager.GetStatus(requestKey);
      var queue := queueManager.GetQueue();
      ghost var qs := queueManager.QueueView();
      assert forall i :: 0 <= i < |queue| ==> queue[i] != queued;
      s := Detail(queued, queue, qs, requestKey, now);
    }

    /**
     * The queue side of getFullStatus, for any queue's status of the key and
     * its getQueue() list: Pending gets a place, InProgress its remaining time,
     * a lost Completed becomes Unknown.
     */
    static method Detail(queued: BatchStatus, queue: seq<BatchStatus>, ghost qs: seq<StatusRecord>, requestKey: string, now: int)
      returns (s: BatchStatus)
      requires queued !in queue
      requires |qs| == |queue| && forall i :: 0 <= i < |queue| ==> queue[i].Record() == qs[i]
      modifies queued
      ensures s == queued || fresh(s)
      ensures s.Record() == QueueSide(requestKey, old(queued.Record()), qs, now)
    {
      s := queued;
      if s.status == Pending {
        Place(s, queue, qs, requestKey);
      } else if s.status == InProgress {
        if s.started.Some? && s.estimatedTime.Some? {
          var sofar := now - s.started.value;
          var expected := s.estimatedTime.value;
          if sofar < expected {
            s.SetEta(expected - sofar);
          }
          s.SetPositionInQueue(0);
        }
      } else if s.status == Completed {
        s := new BatchStatus(requestKey, Unknown);
      }
    }

    /** The loop of getFullStatus over getQueue(): count positions, sum estimates, and mark the key's entry. */
    static method Place(s: BatchStatus, queue: seq<BatchStatus>, ghost qs: seq<StatusRecord>, requestKey: string)
      requires s !in queue
      requires |qs| == |queue| && forall i :: 0 <= i < |queue| ==> queue[i].Record() == qs[i]
      modifies s
      ensures s.Record() == Placed(old(s.Record()), qs, requestKey)
    {
      ghost var st := s.Record();
      var eta := 0;
      var position := 0;
      for i := 0 to |queue|
        invariant position == i
        invariant eta == EtaUpTo(qs, i)
        invariant s.Record() == Placed(st, qs[..i], requestKey)
        invariant forall j :: 0 <= j < |queue| ==> queue[j].Record() == qs[j]
      {
        var q := queue[i];
        position := position + 1;
        if q.estimatedTime.Some? {
          eta := eta + q.estimatedTime.value;
        }
        PlacedSnoc(st, qs, i, requestKey);
        if q.key == requestKey {
          s.SetEta(eta);
          s.SetPositionInQueue(position);
        }
      }
      assert qs[..|queue|] == qs;
    }

    /** getQueue: the queue's statuses, in queue order. */
    method GetQueue() returns (r: seq<BatchStatus>)
      ensures |r| == |queueManager.queue|
      ensures forall i :: 0 <= i < |r| ==> fresh(r[i]) && r[i].Record() == queueManager.QueueView()[i]
    {
      r := queueManager.GetQueue();
    }

    /** findRequest: the queue's answer. */
    function FindRequest(key: string): (r: Option<BatchRequest>)
      reads queueManager
      ensures r == queueManager.FindRequest(key)
      ensures r.None? <==> key !in queueManager.index
    {
      queueManager.FindRequest(key)
    }
  }

  /** The loop step of Place: one more queue status either marks the key's position or leaves the result as it was. */
  lemma PlacedSnoc(st: StatusRecord, qs: seq<StatusRecord>, i: nat, key: string)
    requires i < |qs|
    ensures Placed(st, qs[..i + 1], key) ==
      if qs[i].key == key then st.(eta := Some(EtaUpTo(qs, i + 1)), positionInQueue := Some(i + 1))
      else Placed(st, qs[..i], key)
  {
    var ps := qs[..i + 1];
    assert ps[..|ps| - 1] == qs[..i];
    EtaPrefix(qs, i + 1);
    if qs[i].key != key {
      var p := LastPosition(qs[..i], key);
      EtaPrefix(qs, p);
      assert qs[..i + 1][..p] == qs[..i][..p];
      EtaPrefix(qs[..i + 1], p);
      EtaPrefix(qs[..i], p);
    }
  }

  /** The ETA up to `n` depends only on the first `n` statuses. */
  lemma {:induction false} EtaPrefix(qs: seq<StatusRecord>, n: nat)
    requires n <= |qs|
    ensures EtaUpTo(qs[..n], n) == EtaUpTo(qs, n)
    decreases n
  {
    if n > 0 {
      EtaPrefix(qs, n - 1);
      assert qs[..n][..n - 1] == qs[..n - 1];
      EtaPrefix(qs[..n], n - 1);
    }
  }
}
