/**
 * The records the DynamoDB queue stores (DynQueueEntry.java,
 * DynCompletedEntry.java): enough of a request to rebuild it, plus the
 * status as a string, the timestamps and the optimistic-locking version.
 */
module DynEntries {
  import opened Wrappers
  import opened Status
  import opened JavaStrings
  import opened Requests

  /** getStatus on the stored status string: Pending when there is none, valueOf otherwise (None where valueOf throws). */
  function StatusFromString(statusStr: Option<string>): (r: Option<StatusFlag>)
    ensures statusStr.None? ==> r == Some(Pending)
    ensures statusStr.Some? ==> forall f :: r == Some(f) <==> statusStr.value == FlagName(f)
  {
    if statusStr.None? then Some(Pending) else FlagValueOf(statusStr.value)
  }

  /** Writing a flag's name and reading it back gives the flag. */
  lemma StatusStringRoundTrip(f: StatusFlag)
    ensures StatusFromString(Some(FlagName(f))) == Some(f)
  {
    FlagNameRoundTrip(f, FlagName(f));
  }

  /** Why getBatchRequest cannot rebuild the request: the three exceptions it can throw. */
  datatype RebuildError =
    | BadParameters(error: DecodeError)   // decodeParameterString fails in the constructor
    | IllegalKey(key: string)             // setKey throws IllegalArgumentException
    | NoEstimate                          // unboxing a null estimatedTime throws NullPointerException

  /** The parameters getBatchRequest rebuilds from the stored fields, or the exception it stops at. */
  function Rebuilt(parameters: string, key: string, estimatedTime: Option<int>): Result<Params, RebuildError>
  {
    match Decoded(parameters)
    case Failure(e) => Failure(BadParameters(e))
    case Success(p) =>
      DecodedDistinct(Split(parameters, '&'));
      if !ValidKey(key) then Failure(IllegalKey(key))
      else if estimatedTime.None? then Failure(NoEstimate)
      else Success(p)
  }

  /** The stored form of an encodable request with a valid key rebuilds to the same multimap. */
  lemma RebuildRoundTrip(p: Params, key: string, estimatedTime: int)
    requires Encodable(p) && ValidKey(key)
    ensures Rebuilt(Encoded(p), key, Some(estimatedTime)) == Success(p)
  {
    DecodeEncoded(p);
  }

  /** `Long.compareTo`: -1, 0 or 1 as `a` is below, equal to or above `b`. */
  function CompareLongs(a: int, b: int): (c: int)
    ensures c == -1 || c == 0 || c == 1
    ensures c < 0 <==> a < b
    ensures c == 0 <==> a == b
    ensures c > 0 <==> a > b
  {
    if a < b then -1 else if a == b then 0 else 1
  }

  /** The comparison is a total order: antisymmetric and transitive. */
  lemma CompareLongsOrder(a: int, b: int, c: int)
    ensures CompareLongs(a, b) == -CompareLongs(b, a)
    ensures CompareLongs(a, b) <= 0 && CompareLongs(b, c) <= 0 ==> CompareLongs(a, c) <= 0
  {
  }

  class DynQueueEntry {
    var requestURI: string
    var parameters: string
    var key: string
    var estimatedTime: Option<int>
    var sticky: bool
    var created: int
    var statusStr: Option<string>
    var started: Option<int>
    var version: Option<int>

    /**
     * An entry for a request created at `now`: the URI, the parameter string,
     * the key, the estimate and the sticky flag are copied; no status, start
     * or version yet.
     */
    constructor (request: BatchRequest, now: int)
      modifies request`key
      ensures requestURI == request.requestURI && parameters == Encoded(request.parameters)
      ensures key == old(request.Key()) && estimatedTime == Some(request.estimatedTime)
      ensures sticky == request.sticky && created == now
      ensures statusStr == None && started == None && version == None
      ensures request.Key() == old(request.Key()) && request.key == Some(key)
      ensures old(request.Valid()) ==> request.Valid() && ValidKey(key)
    {
      requestURI := request.requestURI;
      var ps := request.GetParameterString();
      parameters := ps;
      var k := request.GetKey();
      key := k;
      estimatedTime := Some(request.estimatedTime);
      sticky := request.sticky;
      created := now;
      statusStr := None;
      started := None;
      version := None;
      new;
      if old(request.Valid()) {
        request.KeyIsValid();
      }
    }

    /** getStatus. */
    function GetStatus(): Option<StatusFlag>
      reads this
    {
      StatusFromString(statusStr)
    }

    /** A new entry, with no status string, is Pending. */
    lemma NewEntryIsPending()
      requires statusStr.None?
      ensures GetStatus() == Some(Pending)
    {
    }

    /** setStarted at time `now`: the entry is claimed, InProgress from `now`. */
    method SetStarted(now: int)
      modifies this`started, this`statusStr
      ensures started == Some(now) && statusStr == Some(FlagName(InProgress))
      ensures GetStatus() == Some(InProgress)
    {
      started := Some(now);
      statusStr := Some(FlagName(InProgress));
      StatusStringRoundTrip(InProgress);
    }

    /** The status getBatchStatus builds: the key and flag, with the start and the estimate only when stored. */
    function BatchStatusView(): (r: Option<StatusRecord>)
      reads this
      ensures r.None? <==> GetStatus().None?
      ensures r.Some? ==>
        && r.value.key == key && Some(r.value.status) == GetStatus()
        && r.value.started == started && r.value.estimatedTime == estimatedTime
        && r.value.url.None? && r.value.positionInQueue.None? && r.value.eta.None?
    {
      match GetStatus()
      case None => None
      case Some(f) => Some(Minimal(key, f).(started := started, estimatedTime := estimatedTime))
    }

    /** getBatchStatus; None where getStatus throws on an unknown status string. */
    method GetBatchStatus() returns (r: Option<BatchStatus>)
      ensures r.None? <==> GetStatus().None?
      ensures r.Some? ==> fresh(r.value) && r.value.Record() == BatchStatusView().value
    {
      var flag := GetStatus();
      if flag.None? {
        return None;
      }
      var s := new BatchStatus(key, flag.value);
      if started.Some? {
        s.SetStarted(started.value);
      }
      if estimatedTime.Some? {
        s.SetEstimatedTime(estimatedTime.value);
      }
      r := Some(s);
    }

    /**
     * getBatchRequest: a request decoded from the stored parameter string,
     * with the stored key (checked by setKey) and the stored estimate.
     */
    method GetBatchRequest(md5: Md5) returns (r: Result<BatchRequest, RebuildError>)
      ensures Rebuilt(parameters, key, estimatedTime).Failure? ==>
        r == Failure(Rebuilt(parameters, key, estimatedTime).error)
      ensures Rebuilt(parameters, key, estimatedTime).Success? ==>
        && r.Success? && fresh(r.value)
        && r.value.requestURI == requestURI && r.value.parameters == Rebuilt(parameters, key, estimatedTime).value
        && r.value.sticky == sticky && r.value.md5 == md5
        && r.value.key == Some(key) && r.value.Key() == key && r.value.Valid()
        && Some(r.value.estimatedTime) == estimatedTime
    {
      var made := BatchRequest.FromParameterString(requestURI, parameters, sticky, md5);
      if made.Failure? {
        return Failure(BadParameters(made.error));
      }
      var req := made.value;
      var ok := req.SetKey(key);
      if !ok {
        return Failure(IllegalKey(key));
      }
      if estimatedTime.None? {
        return Failure(NoEstimate);
      }
      req.SetEstimatedTime(estimatedTime.value);
      r := Success(req);
    }

    /** compareTo: entries are ordered by creation time. */
    function CompareTo(other: DynQueueEntry): (c: int)
      reads this, other
      ensures c < 0 <==> created < other.created
      ensures c == 0 <==> created == other.created
      ensures c > 0 <==> created > other.created
    {
      CompareLongs(created, other.created)
    }
  }

  /** An entry in the completed table: a copy of a queue entry, marked Completed, with the time it finished. */
  class DynCompletedEntry {
    var requestURI: string
    var parameters: string
    var key: string
    var estimatedTime: Option<int>
    var sticky: bool
    var created: int
    var statusStr: Option<string>
    var started: Option<int>
    var version: Option<int>
    var finished: Option<int>

    /** The copy made when `entry` completes at time `now`; the version is not carried over. */
    constructor (entry: DynQueueEntry, now: int)
      ensures requestURI == entry.requestURI && parameters == entry.parameters && key == entry.key
      ensures estimatedTime == entry.estimatedTime && sticky == entry.sticky
      ensures created == entry.created && started == entry.started
      ensures statusStr == Some(FlagName(Completed)) && finished == Some(now) && version == None
      ensures GetStatus() == Some(Completed)
    {
      requestURI := entry.requestURI;
      parameters := entry.parameters;
      key := entry.key;
      estimatedTime := entry.estimatedTime;
      sticky := entry.sticky;
      created := entry.created;
      statusStr := Some(FlagName(Completed));
      started := entry.started;
      finished := Some(now);
      version := None;
      new;
      StatusStringRoundTrip(Completed);
    }

    /** getStatus, inherited from the queue entry. */
    function GetStatus(): Option<StatusFlag>
      reads this
    {
      StatusFromString(statusStr)
    }

    method SetFinished(finished: int)
      modifies this`finished
      ensures this.finished == Some(finished)
    {
      this.finished := Some(finished);
    }
  }
}
