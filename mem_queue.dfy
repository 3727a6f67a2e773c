/**
 * The non-persistent queue manager (MemQueueManager.java): a queue of
 * entries awaiting or under processing, a list of finished entries, and an
 * index from request key to entry.
 */
module MemQueue {
  import opened Wrappers
  import opened Status
  import opened Requests
  import opened QueueEntries

  /** `List.remove(x)`: drop the first occurrence of `x`, if any. */
  function RemoveFirst<T(==)>(s: seq<T>, x: T): (r: seq<T>)
    ensures x !in s ==> r == s
    ensures x in s ==> |r| == |s| - 1
  {
    if s == [] then []
    else if s[0] == x then s[1..]
    else [s[0]] + RemoveFirst(s[1..], x)
  }

  /** Removing keeps every other element, with its multiplicity, and one fewer `x`. */
  lemma {:induction false} RemoveFirstMultiset<T>(s: seq<T>, x: T)
    ensures multiset(RemoveFirst(s, x)) == multiset(s) - multiset{x}
  {
    if s != [] {
      assert s == [s[0]] + s[1..];
      if s[0] != x {
        RemoveFirstMultiset(s[1..], x);
      }
    }
  }

  /** The status flags of a sequence of entries. */
  function Flags(q: seq<QueueEntry>): (fs: seq<StatusFlag>)
    reads q
    ensures |fs| == |q| && forall i :: 0 <= i < |q| ==> fs[i] == q[i].status
  {
    if q == [] then [] else [q[0].status] + Flags(q[1..])
  }

  /** The position of the first Pending flag, if there is one. */
  function FirstPending(fs: seq<StatusFlag>): (r: Option<nat>)
    ensures r.Some? ==> r.value < |fs| && fs[r.value] == Pending
    ensures r.Some? ==> forall j :: 0 <= j < r.value ==> fs[j] != Pending
    ensures r.None? <==> forall j :: 0 <= j < |fs| ==> fs[j] != Pending
  {
    if fs == [] then None
    else if fs[0] == Pending then Some(0)
    else
      match FirstPending(fs[1..])
      case None => None
      case Some(k) => Some(k + 1)
  }

  /** Claiming the first Pending entry moves the next claim strictly later in the queue. */
  lemma ClaimAdvances(fs: seq<StatusFlag>, i: nat)
    requires FirstPending(fs) == Some(i)
    ensures FirstPending(fs[i := InProgress]).None? || FirstPending(fs[i := InProgress]).value > i
  {
    var gs := fs[i := InProgress];
    if FirstPending(gs).Some? {
      var k := FirstPending(gs).value;
      assert k != i;
    }
  }

  /** Setting the claimed entry back to Pending (abortRequest) makes it the next claim again. */
  lemma AbortRestoresClaim(fs: seq<StatusFlag>, i: nat)
    requires FirstPending(fs) == Some(i)
    ensures FirstPending(fs[i := InProgress][i := Pending]) == Some(i)
  {
    assert fs[i := InProgress][i := Pending] == fs;
  }

  predicate DistinctKeys(q: seq<QueueEntry>)
  {
    forall i, j :: 0 <= i < j < |q| ==> q[i].requestKey != q[j].requestKey
  }

  lemma DistinctKeysTail(q: seq<QueueEntry>)
    requires DistinctKeys(q) && q != []
    ensures DistinctKeys(q[1..])
    ensures forall e :: e in q[1..] ==> e.requestKey != q[0].requestKey
  {
    forall e | e in q[1..] ensures e.requestKey != q[0].requestKey {
      var j :| 0 <= j < |q| - 1 && q[1..][j] == e;
      assert q[j + 1] == e;
    }
  }

  lemma ConsDistinctKeys(e0: QueueEntry, rest: seq<QueueEntry>)
    requires DistinctKeys(rest) && forall e :: e in rest ==> e.requestKey != e0.requestKey
    ensures DistinctKeys([e0] + rest)
  {
    var r := [e0] + rest;
    forall i, j | 0 <= i < j < |r| ensures r[i].requestKey != r[j].requestKey {
      assert r[j] == rest[j - 1];
      if i > 0 { assert r[i] == rest[i - 1]; }
    }
  }

  lemma RemoveFirstSubset<T>(q: seq<T>, x: T)
    ensures forall e :: e in RemoveFirst(q, x) ==> e in q
  {
    RemoveFirstMultiset(q, x);
    forall e | e in RemoveFirst(q, x) ensures e in q {
      assert multiset(RemoveFirst(q, x))[e] > 0;
    }
  }

  /** Removing an entry keeps the keys distinct. */
  lemma {:induction false} RemoveFirstKeepsDistinctKeys(q: seq<QueueEntry>, x: QueueEntry)
    requires DistinctKeys(q)
    ensures DistinctKeys(RemoveFirst(q, x))
  {
    if q != [] {
      DistinctKeysTail(q);
      if q[0] != x {
        RemoveFirstKeepsDistinctKeys(q[1..], x);
        var rest := RemoveFirst(q[1..], x);
        RemoveFirstSubset(q[1..], x);
        ConsDistinctKeys(q[0], rest);
      }
    }
  }

  /** Removing an entry of a queue with distinct keys leaves no entry with that key. */
  lemma RemoveFirstDropsKey(q: seq<QueueEntry>, x: QueueEntry)
    requires DistinctKeys(q) && x in q
    ensures forall e :: e in RemoveFirst(q, x) ==> e.requestKey != x.requestKey
  {
    var r := RemoveFirst(q, x);
    var i :| 0 <= i < |q| && q[i] == x;
    assert x !in q[..i] by {
      forall j | 0 <= j < i ensures q[..i][j] != x { assert q[j].requestKey != q[i].requestKey; }
    }
    RemoveFirstAt(q, x, i);
    forall e | e in r ensures e.requestKey != x.requestKey {
      var j :| 0 <= j < |r| && r[j] == e;
      if j < i { assert q[j] == e; } else { assert q[j + 1] == e; }
    }
  }

  lemma {:induction false} RemoveFirstAt<T>(q: seq<T>, x: T, i: nat)
    requires i < |q| && q[i] == x && x !in q[..i]
    ensures RemoveFirst(q, x) == q[..i] + q[i + 1..]
  {
    if i > 0 {
      assert q[0] != x by { assert q[0] == q[..i][0]; }
      assert q[1..][..i - 1] == q[1..i];
      assert x !in q[1..][..i - 1];
      RemoveFirstAt(q[1..], x, i - 1);
      assert q[..i] == [q[0]] + q[1..i];
      assert q[i + 1..] == q[1..][i..];
    }
  }

  /**
   * Each indexed entry carries its own key, each queue entry is the indexed
   * entry for its key, and no two queue entries share a key.
   */
  predicate Indexed(index: map<string, QueueEntry>, queue: seq<QueueEntry>)
  {
    && (forall k :: k in index ==> index[k].requestKey == k)
    && (forall i :: 0 <= i < |queue| ==> queue[i].requestKey in index && index[queue[i].requestKey] == queue[i])
    && DistinctKeys(queue)
  }

  /** Only Pending and InProgress entries wait in the queue. */
  predicate AllActive(fs: seq<StatusFlag>)
  {
    forall i :: 0 <= i < |fs| ==> fs[i] == Pending || fs[i] == InProgress
  }

  lemma ActiveMembers(q: seq<QueueEntry>)
    ensures AllActive(Flags(q)) <==> forall e :: e in q ==> e.status == Pending || e.status == InProgress
  {
    if AllActive(Flags(q)) {
      forall e | e in q ensures e.status == Pending || e.status == InProgress {
        var i :| 0 <= i < |q| && q[i] == e;
        assert Flags(q)[i] == e.status;
      }
    }
  }

  lemma ActiveByIndex(q: seq<QueueEntry>)
    requires forall j :: 0 <= j < |q| ==> q[j].status == Pending || q[j].status == InProgress
    ensures AllActive(Flags(q))
  {
  }

  /** Entries whose statuses are `fs`, one by one, have flags `fs`. */
  lemma FlagsAre(q: seq<QueueEntry>, fs: seq<StatusFlag>)
    requires |fs| == |q| && forall j :: 0 <= j < |q| ==> q[j].status == fs[j]
    ensures Flags(q) == fs
  {
  }

  lemma RemoveKeepsActive(q: seq<QueueEntry>, x: QueueEntry)
    requires AllActive(Flags(q))
    ensures AllActive(Flags(RemoveFirst(q, x)))
  {
    ActiveMembers(q);
    RemoveFirstSubset(q, x);
    ActiveMembers(RemoveFirst(q, x));
  }

  lemma AppendKeepsActive(q: seq<QueueEntry>, e: QueueEntry)
    requires AllActive(Flags(q)) && (e.status == Pending || e.status == InProgress)
    ensures AllActive(Flags(q + [e]))
  {
    ActiveMembers(q);
    ActiveMembers(q + [e]);
  }

  /** A new entry for a key not yet indexed can be indexed and queued last. */
  lemma IndexedAppend(index: map<string, QueueEntry>, queue: seq<QueueEntry>, e: QueueEntry)
    requires Indexed(index, queue) && e.requestKey !in index
    ensures Indexed(index[e.requestKey := e], queue + [e])
  {
    var q := queue + [e];
    forall i, j | 0 <= i < j < |q| ensures q[i].requestKey != q[j].requestKey {
      if j == |queue| { assert q[i] == queue[i]; } else { assert q[i] == queue[i] && q[j] == queue[j]; }
    }
    forall i | 0 <= i < |q| ensures q[i].requestKey in index[e.requestKey := e] && index[e.requestKey := e][q[i].requestKey] == q[i] {
      if i < |queue| { assert q[i] == queue[i]; }
    }
  }

  /** Removing an entry from the queue alone keeps the index consistent with it. */
  lemma IndexedRemoveFromQueue(index: map<string, QueueEntry>, queue: seq<QueueEntry>, x: QueueEntry)
    requires Indexed(index, queue)
    ensures Indexed(index, RemoveFirst(queue, x))
    ensures x in queue ==> x !in RemoveFirst(queue, x)
  {
    var r := RemoveFirst(queue, x);
    RemoveFirstKeepsDistinctKeys(queue, x);
    RemoveFirstSubset(queue, x);
    if x in queue {
      RemoveFirstDropsKey(queue, x);
    }
    forall e | e in r ensures e.requestKey in index && index[e.requestKey] == e {
      var i :| 0 <= i < |queue| && queue[i] == e;
    }
  }

  /** Dropping the entry indexed under `k` from the queue and the index leaves no trace of `k`. */
  lemma IndexedRemove(index: map<string, QueueEntry>, queue: seq<QueueEntry>, k: string)
    requires Indexed(index, queue) && k in index
    ensures Indexed(index - {k}, RemoveFirst(queue, index[k]))
    ensures k !in index - {k}
  {
    var x := index[k];
    var r := RemoveFirst(queue, x);
    RemoveFirstKeepsDistinctKeys(queue, x);
    RemoveFirstSubset(queue, x);
    if x in queue {
      RemoveFirstDropsKey(queue, x);
    }
    forall e | e in r ensures e.requestKey != k && e.requestKey in index && index[e.requestKey] == e {
      var i :| 0 <= i < |queue| && queue[i] == e;
    }
  }

  lemma MapRemoveUpdate<K, V>(m: map<K, V>, k: K, v: V)
    ensures (m - {k})[k := v] == m[k := v]
  {
  }

  class MemQueueManager {
    /** Entries waiting for or under processing, in submission order. */
    var queue: seq<QueueEntry>
    /** Entries that have been finished or failed, in the order that happened. */
    var completed: seq<QueueEntry>
    /** Every entry the manager knows, by request key. */
    var index: map<string, QueueEntry>
    /** How long (ms) nextRequest sleeps between looks at the queue. */
    var checkInterval: int

    /**
     * The queue invariant: every queue entry is the indexed entry for its key,
     * queue keys are distinct, and queue entries are Pending or InProgress.
     */
    predicate Valid()
      reads this`index, this`queue, queue
    {
      Indexed(index, queue) && AllActive(Flags(queue))
    }

    /** The statuses getQueue reports, one per queue entry. */
    function QueueView(): seq<StatusRecord>
      reads this, queue
    {
      seq(|queue|, i reads this, queue requires 0 <= i < |queue| => queue[i].StatusView())
    }

    /** The entry getEntry locates for a key, as a set (empty when it would throw). */
    function EntryFor(key: string): set<QueueEntry>
      reads this
    {
      if key in index then {index[key]} else {}
    }

    /** The status getStatus reports for a key: the entry's, or Unknown for a key never submitted. */
    function StatusOf(key: string): StatusRecord
      reads this, index.Values
    {
      if key in index then index[key].StatusView() else Minimal(key, Unknown)
    }

    constructor ()
      ensures queue == [] && completed == [] && index == map[] && checkInterval == 100
      ensures Valid()
    {
      queue := [];
      completed := [];
      index := map[];
      checkInterval := 100;
    }

    method SetCheckInterval(checkInterval: int)
      modifies this`checkInterval
      ensures this.checkInterval == checkInterval
    {
      this.checkInterval := checkInterval;
    }

    /**
     * submit: a key already indexed keeps its entry, whatever its flag, and
     * nothing changes; a new key gets a fresh Pending entry at the end of the queue.
     */
    method Submit(request: BatchRequest) returns (s: BatchStatus)
      requires Valid()
      modifies this`index, this`queue, this`completed, request`key
      ensures Valid()
      ensures fresh(s)
      ensures request.Key() == old(request.Key()) && request.key.Some?
      ensures var k := old(request.Key());
        if k in old(index) then
          && index == old(index) && queue == old(queue) && completed == old(completed)
          && s.Record() == old(index[k].StatusView())
        else
          && k in index && fresh(index[k]) && index == old(index)[k := index[k]]
          && queue == old(queue) + [index[k]] && completed == old(completed)
          && index[k].request == request && index[k].status == Pending && index[k].started == None
          && s.Record() == Minimal(k, Pending)
      ensures checkInterval == old(checkInterval)
    {
      var k := request.GetKey();
      if k in index {
        var entry := index[k];
        s := entry.GetStatus();
      } else {
        s := Admit(request);
      }
    }

    /** `entry = new QueueEntry(request); index.put(key, entry); queue.add(entry); entry.getStatus()` for a key not yet indexed. */
    method Admit(request: BatchRequest) returns (s: BatchStatus)
      requires Valid() && request.Key() !in index
      modifies this`index, this`queue, request`key
      ensures Valid()
      ensures fresh(s)
      ensures request.Key() == old(request.Key()) && request.key.Some?
      ensures var k := old(request.Key());
        && k in index && fresh(index[k]) && index == old(index)[k := index[k]]
        && queue == old(queue) + [index[k]]
        && index[k].request == request && index[k].status == Pending && index[k].started == None
        && s.Record() == Minimal(k, Pending)
    {
      var entry := new QueueEntry(request);
      Enqueue(entry);
      s := entry.GetStatus();
    }

    /** `index.put(key, entry); queue.add(entry)` for a Pending entry whose key is not yet indexed. */
    method Enqueue(entry: QueueEntry)
      requires Valid() && entry.requestKey !in index && entry.status == Pending
      modifies this`index, this`queue
      ensures Valid()
      ensures index == old(index)[entry.requestKey := entry] && queue == old(queue) + [entry]
    {
      IndexedAppend(index, queue, entry);
      assert forall j :: 0 <= j < |queue| ==> Flags(queue)[j] == queue[j].status;
      var q := queue + [entry];
      assert forall j :: 0 <= j < |q| ==> q[j].status == Pending || q[j].status == InProgress;
      index := index[entry.requestKey := entry];
      queue := q;
      ActiveByIndex(queue);
    }

    /** `queue.remove(e); completed.remove(e); index.remove(key)` for the entry `e` indexed under `key`. */
    method Forget(key: string)
      requires Valid() && key in index
      modifies this`index, this`queue, this`completed
      ensures Valid()
      ensures index == old(index) - {key} && key !in index
      ensures queue == RemoveFirst(old(queue), old(index)[key])
      ensures completed == RemoveFirst(old(completed), old(index)[key])
    {
      var x := index[key];
      IndexedRemove(index, queue, key);
      RemoveKeepsActive(queue, x);
      var rest := RemoveFirst(queue, x);
      assert forall j :: 0 <= j < |rest| ==> Flags(rest)[j] == rest[j].status;
      queue := rest;
      completed := RemoveFirst(completed, x);
      index := index - {key};
      ActiveByIndex(queue);
    }

    /**
     * resubmit: drop any old entry for the key from the queue, the finished
     * list and the index, then queue a fresh Pending entry, so the key occurs once.
     */
    method Resubmit(request: BatchRequest) returns (s: BatchStatus)
      requires Valid()
      modifies this`index, this`queue, this`completed, request`key
      ensures Valid()
      ensures fresh(s)
      ensures request.Key() == old(request.Key()) && request.key.Some?
      ensures var k := old(request.Key());
        && k in index && fresh(index[k]) && index == old(index)[k := index[k]]
        && index[k].request == request && index[k].status == Pending && index[k].started == None
        && queue == (if k in old(index) then RemoveFirst(old(queue), old(index)[k]) else old(queue)) + [index[k]]
        && completed == (if k in old(index) then RemoveFirst(old(completed), old(index)[k]) else old(completed))
        && s.Record() == Minimal(k, Pending)
      ensures checkInterval == old(checkInterval)
    {
      var k := request.GetKey();
      ghost var index0 := index;
      if k in index {
        Forget(k);
      }
      s := Admit(request);
      MapRemoveUpdate(index0, k, index[k]);
    }

    /** No queue entry is finished: finishing or failing an entry takes it out of the queue. */
    lemma QueueHoldsNoFinished()
      requires Valid()
      ensures forall e :: e in queue ==> !e.IsFinished()
    {
      ActiveMembers(queue);
    }

    /** getStatus: the indexed entry's status, or a new Unknown status for an unknown key. */
    method GetStatus(key: string) returns (s: BatchStatus)
      ensures fresh(s)
      ensures s.Record() == StatusOf(key)
    {
      if key in index {
        s := index[key].GetStatus();
      } else {
        s := new BatchStatus(key, Unknown);
      }
    }

    /** getQueue: a new status object for each queue entry, in queue order. */
    method GetQueue() returns (r: seq<BatchStatus>)
      ensures |r| == |queue|
      ensures forall i :: 0 <= i < |r| ==> fresh(r[i]) && r[i].Record() == QueueView()[i]
      ensures forall i, j :: 0 <= i < j < |r| ==> r[i] != r[j]
    {
      r := [];
      for i := 0 to |queue|
        invariant |r| == i
        invariant forall j :: 0 <= j < i ==> fresh(r[j]) && r[j].Record() == queue[j].StatusView()
        invariant forall j, l :: 0 <= j < l < i ==> r[j] != r[l]
      {
        var s := queue[i].GetStatus();
        r := r + [s];
      }
    }

    /** findRequest: the request of the indexed entry, or None (Java's null) for an unknown key. */
    function FindRequest(key: string): (r: Option<BatchRequest>)
      reads this
      ensures r.None? <==> key !in index
      ensures r.Some? ==> r.value == index[key].request
    {
      if key in index then Some(index[key].request) else None
    }

    /** findNext: the first Pending entry in queue order, if any. */
    method FindNext() returns (r: Option<QueueEntry>)
      ensures r == match FirstPending(Flags(queue)) case None => None case Some(i) => Some(queue[i])
    {
      for i := 0 to |queue|
        invariant forall j :: 0 <= j < i ==> queue[j].status != Pending
      {
        if queue[i].status == Pending {
          return Some(queue[i]);
        }
      }
      return None;
    }

    /**
     * nextRequest(timeout): claim the first Pending entry, marking it InProgress
     * from `now`, and return its request. With none waiting it polls every
     * checkInterval ms until `timeout` ms have passed; the lock is held while it
     * sleeps, so the queue cannot change and the poll finds nothing new.
     * `slept` is the total time passed to Thread.sleep.
     */
    method NextRequest(timeout: int, now: int) returns (r: Option<BatchRequest>, ghost slept: int)
      requires Valid()
      requires FirstPending(Flags(queue)).None? && timeout > 0 ==> checkInterval > 0
      modifies queue
      ensures Valid()
      ensures queue == old(queue) && completed == old(completed) && index == old(index)
      ensures match FirstPending(old(Flags(queue)))
        case None =>
          && r.None? && unchanged(queue)
          && slept == (if timeout > 0 then timeout else 0)
        case Some(i) =>
          && r == Some(queue[i].request) && slept == 0
          && queue[i].status == InProgress && queue[i].started == Some(now)
          && Flags(queue) == old(Flags(queue))[i := InProgress]
          && forall j :: 0 <= j < |queue| && j != i ==> queue[j].started == old(queue[j].started)
    {
      var entry := FindNext();
      if entry.None? {
        entry, slept := Poll(timeout);
        return None, slept;
      }
      Claim(FirstPending(Flags(queue)).value, now);
      r, slept := Some(entry.value.request), 0;
    }

    /**
     * The waiting loop of nextRequest: sleep min(checkInterval, time left) and
     * look again until `timeout` ms have passed. Nothing can change the queue
     * meanwhile, so every look finds nothing; `slept` totals the sleeps.
     */
    method Poll(timeout: int) returns (entry: Option<QueueEntry>, ghost slept: int)
      requires FirstPending(Flags(queue)).None?
      requires timeout > 0 ==> checkInterval > 0
      ensures entry.None?
      ensures slept == (if timeout > 0 then timeout else 0)
    {
      entry, slept := None, 0;
      var count := 0;
      while entry.None? && count < timeout
        invariant entry.None? && 0 <= count
        invariant timeout > 0 ==> count <= timeout
        invariant timeout <= 0 ==> count == 0
        invariant slept == count
        decreases timeout - count
      {
        var sleep := if checkInterval < timeout - count then checkInterval else timeout - count;
        count := count + sleep;
        slept := slept + sleep;
        entry := FindNext();
      }
    }

    /** `entry.setStarted()` on queue entry `i`: it alone changes, to InProgress from `now`. */
    method Claim(i: nat, now: int)
      requires Valid() && i < |queue|
      modifies queue[i]
      ensures Valid()
      ensures queue[i].status == InProgress && queue[i].started == Some(now)
      ensures Flags(queue) == old(Flags(queue))[i := InProgress]
      ensures forall j :: 0 <= j < |queue| && j != i ==> queue[j].started == old(queue[j].started)
    {
      var e := queue[i];
      ghost var fs := Flags(queue);
      ghost var gs := fs[i := InProgress];
      assert forall j :: 0 <= j < |queue| && j != i ==> queue[j] != e && fs[j] == queue[j].status;
      e.SetStarted(now);
      assert forall j :: 0 <= j < |queue| ==> queue[j].status == gs[j];
      FlagsAre(queue, gs);
    }

    /**
     * finishRequest: an indexed entry becomes Completed, leaves the queue and is
     * appended to the finished list, and stays indexed; an unknown key throws
     * (`ok` false) and changes nothing.
     */
    method FinishRequest(key: string) returns (ok: bool)
      requires Valid()
      modifies this, EntryFor(key)
      ensures Valid()
      ensures ok <==> key in old(index)
      ensures index == old(index) && checkInterval == old(checkInterval)
      ensures !ok ==> queue == old(queue) && completed == old(completed)
      ensures ok ==>
        && index[key].status == Completed && index[key].started == old(index[key].started)
        && queue == RemoveFirst(old(queue), index[key]) && index[key] !in queue
        && completed == old(completed) + [index[key]]
    {
      ok := Finish(key, Completed);
    }

    /** failRequest: as finishRequest, with the entry marked Failed. */
    method FailRequest(key: string) returns (ok: bool)
      requires Valid()
      modifies this, EntryFor(key)
      ensures Valid()
      ensures ok <==> key in old(index)
      ensures index == old(index) && checkInterval == old(checkInterval)
      ensures !ok ==> queue == old(queue) && completed == old(completed)
      ensures ok ==>
        && index[key].status == Failed && index[key].started == old(index[key].started)
        && queue == RemoveFirst(old(queue), index[key]) && index[key] !in queue
        && completed == old(completed) + [index[key]]
    {
      ok := Finish(key, Failed);
    }

    /** The shared body of finishRequest and failRequest. */
    method Finish(key: string, flag: StatusFlag) returns (ok: bool)
      requires Valid()
      modifies this, EntryFor(key)
      ensures Valid()
      ensures ok <==> key in old(index)
      ensures index == old(index) && checkInterval == old(checkInterval)
      ensures !ok ==> queue == old(queue) && completed == old(completed)
      ensures ok ==>
        && index[key].status == flag && index[key].started == old(index[key].started)
        && queue == RemoveFirst(old(queue), index[key]) && index[key] !in queue
        && completed == old(completed) + [index[key]]
    {
      if key !in index {
        return false;
      }
      var entry := index[key];
      Dequeue(entry);
      entry.SetStatus(flag);
      completed := completed + [entry];
      return true;
    }

    /** `queue.remove(entry)`: the first occurrence of `entry` leaves the queue, keeping the invariant. */
    method Dequeue(entry: QueueEntry)
      requires Valid()
      modifies this`queue
      ensures Valid()
      ensures queue == RemoveFirst(old(queue), entry) && entry !in queue
    {
      IndexedRemoveFromQueue(index, queue, entry);
      RemoveKeepsActive(queue, entry);
      var rest := RemoveFirst(queue, entry);
      assert forall j :: 0 <= j < |rest| ==> Flags(rest)[j] == rest[j].status;
      queue := rest;
      ActiveByIndex(queue);
    }

    /**
     * abortRequest: an indexed entry goes back to Pending and nothing else
     * changes (an entry already finished becomes Pending outside the queue);
     * an unknown key throws (`ok` false).
     */
    method AbortRequest(key: string) returns (ok: bool)
      requires Valid()
      modifies EntryFor(key)
      ensures Valid()
      ensures ok <==> key in index
      ensures ok ==> index[key].status == Pending && index[key].started == old(index[key].started)
      ensures ok ==> forall j :: 0 <= j < |queue| ==>
        queue[j].status == (if queue[j] == index[key] then Pending else old(queue[j].status))
    {
      if key !in index {
        return false;
      }
      var entry := index[key];
      ghost var fs := Flags(queue);
      entry.SetStatus(Pending);
      forall j | 0 <= j < |queue| ensures queue[j].status == Pending || queue[j].status == InProgress {
        if queue[j] != entry { assert queue[j].status == fs[j]; }
      }
      return true;
    }
  }

  /**
   * Claim, abort, claim again: once the claimed request is put back with
   * abortRequest, nextRequest hands out that same request again.
   */
  method ClaimAbortReclaim(m: MemQueueManager, timeout: int, now1: int, now2: int)
    returns (first: Option<BatchRequest>, second: Option<BatchRequest>)
    requires m.Valid() && FirstPending(Flags(m.queue)).Some?
    modifies m.queue
    ensures m.Valid()
    ensures first.Some? && second == first
  {
    var i := FirstPending(Flags(m.queue)).value;
    ghost var fs := Flags(m.queue);
    ghost var slept;
    first, slept := m.NextRequest(timeout, now1);
    var e := m.queue[i];
    var ok := m.AbortRequest(e.requestKey);
    forall j | 0 <= j < |m.queue| ensures m.queue[j].status == fs[i := InProgress][i := Pending][j] {
      if j != i { assert m.queue[j].requestKey != e.requestKey; }
    }
    FlagsAre(m.queue, fs[i := InProgress][i := Pending]);
    AbortRestoresClaim(fs, i);
    second, slept := m.NextRequest(timeout, now2);
  }
}
