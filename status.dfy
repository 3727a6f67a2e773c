/**
 * The status of a batch request (BatchStatus.java): a flag, the request key
 * and the optional details that some queries fill in.
 */
module Status {
  import opened Wrappers

  datatype StatusFlag = Unknown | Pending | InProgress | Failed | Completed

  /** `StatusFlag.toString()`: the constant's name. */
  function FlagName(f: StatusFlag): string
  {
    match f
    case Unknown => "Unknown"
    case Pending => "Pending"
    case InProgress => "InProgress"
    case Failed => "Failed"
    case Completed => "Completed"
  }

  /** `StatusFlag.valueOf(s)`, with None where Java throws IllegalArgumentException. */
  function FlagValueOf(s: string): Option<StatusFlag>
  {
    if s == "Unknown" then Some(Unknown)
    else if s == "Pending" then Some(Pending)
    else if s == "InProgress" then Some(InProgress)
    else if s == "Failed" then Some(Failed)
    else if s == "Completed" then Some(Completed)
    else None
  }

  /** valueOf recognises every name toString produces, and only those. */
  lemma FlagNameRoundTrip(f: StatusFlag, s: string)
    ensures FlagValueOf(FlagName(f)) == Some(f)
    ensures FlagValueOf(s) == Some(f) <==> s == FlagName(f)
  {
  }

  lemma FlagNamesDistinct(f: StatusFlag, g: StatusFlag)
    ensures FlagName(f) == FlagName(g) <==> f == g
  {
    FlagNameRoundTrip(f, FlagName(g));
  }

  /** The state of a BatchStatus object, as a value. */
  datatype StatusRecord = StatusRecord(
    key: string,
    status: StatusFlag,
    url: Option<string>,
    started: Option<int>,
    positionInQueue: Option<int>,
    estimatedTime: Option<int>,
    eta: Option<int>)

  /** A record with just a key and a flag, as the two-argument constructor makes. */
  function Minimal(key: string, status: StatusFlag): StatusRecord
  {
    StatusRecord(key, status, None, None, None, None, None)
  }

  /** A JSON value of the kinds asJson writes; `started` holds the time the formatted date shows. */
  datatype JsonValue = JString(s: string) | JNumber(n: int) | JDate(millis: int)

  const JSON_FIELDS: set<string> := {"key", "status", "url", "positionInQueue", "eta", "started"}

  /** The JSON object asJson builds for a status. */
  function JsonOf(r: StatusRecord): (o: map<string, JsonValue>)
    ensures "key" in o && o["key"] == JString(r.key)
    ensures "status" in o && o["status"] == JString(FlagName(r.status))
    ensures "url" in o <==> r.url.Some?
    ensures r.url.Some? ==> o["url"] == JString(r.url.value)
    ensures "positionInQueue" in o <==> r.positionInQueue.Some?
    ensures r.positionInQueue.Some? ==> o["positionInQueue"] == JNumber(r.positionInQueue.value)
    ensures "eta" in o <==> r.eta.Some?
    ensures r.eta.Some? ==> o["eta"] == JNumber(r.eta.value)
    ensures "started" in o <==> r.started.Some?
    ensures r.started.Some? ==> o["started"] == JDate(r.started.value)
    ensures o.Keys <= JSON_FIELDS
  {
    var o := map["key" := JString(r.key), "status" := JString(FlagName(r.status))];
    var o := if r.url.Some? then o["url" := JString(r.url.value)] else o;
    var o := if r.positionInQueue.Some? then o["positionInQueue" := JNumber(r.positionInQueue.value)] else o;
    var o := if r.eta.Some? then o["eta" := JNumber(r.eta.value)] else o;
    if r.started.Some? then o["started" := JDate(r.started.value)] else o
  }

  /**
   * The JSON form keeps the key and the status flag readable (valueOf of the
   * written status gives the flag back) and never includes the estimated time.
   */
  lemma JsonKeepsKeyAndStatus(r: StatusRecord)
    ensures JsonOf(r)["key"].s == r.key
    ensures FlagValueOf(JsonOf(r)["status"].s) == Some(r.status)
    ensures "estimatedTime" !in JsonOf(r)
  {
    FlagNameRoundTrip(r.status, "");
  }

  class BatchStatus {
    var key: string
    var status: StatusFlag
    var url: Option<string>
    var started: Option<int>
    var positionInQueue: Option<int>
    var estimatedTime: Option<int>
    var eta: Option<int>

    function Record(): StatusRecord
      reads this
    {
      StatusRecord(key, status, url, started, positionInQueue, estimatedTime, eta)
    }

    /** `new BatchStatus(key, url, status)`. */
    constructor WithUrl(key: string, url: Option<string>, status: StatusFlag)
      ensures Record() == Minimal(key, status).(url := url)
    {
      this.key := key;
      this.status := status;
      this.url := url;
      started := None;
      positionInQueue := None;
      estimatedTime := None;
      eta := None;
    }

    /** `new BatchStatus(key, status)`. */
    constructor (key: string, status: StatusFlag)
      ensures Record() == Minimal(key, status)
    {
      this.key := key;
      this.status := status;
      url := None;
      started := None;
      positionInQueue := None;
      estimatedTime := None;
      eta := None;
    }

    method SetUrl(url: Option<string>)
      modifies this`url
      ensures Record() == old(Record()).(url := url)
    {
      this.url := url;
    }

    method SetStatus(status: StatusFlag)
      modifies this`status
      ensures Record() == old(Record()).(status := status)
    {
      this.status := status;
    }

    method SetStarted(started: int)
      modifies this`started
      ensures Record() == old(Record()).(started := Some(started))
    {
      this.started := Some(started);
    }

    method SetPositionInQueue(position: int)
      modifies this`positionInQueue
      ensures Record() == old(Record()).(positionInQueue := Some(position))
    {
      positionInQueue := Some(position);
    }

    method SetEta(eta: int)
      modifies this`eta
      ensures Record() == old(Record()).(eta := Some(eta))
    {
      this.eta := Some(eta);
    }

    method SetEstimatedTime(estimatedTime: int)
      modifies this`estimatedTime
      ensures Record() == old(Record()).(estimatedTime := Some(estimatedTime))
    {
      this.estimatedTime := Some(estimatedTime);
    }

    /** asJson: key and status always, the other details only when present. */
    method AsJson() returns (o: map<string, JsonValue>)
      ensures o == JsonOf(Record())
    {
      o := map["key" := JString(key), "status" := JString(FlagName(status))];
      if url.Some? {
        o := o["url" := JString(url.value)];
      }
      if positionInQueue.Some? {
        o := o["positionInQueue" := JNumber(positionInQueue.value)];
      }
      if eta.Some? {
        o := o["eta" := JNumber(eta.value)];
      }
      if started.Some? {
        o := o["started" := JDate(started.value)];
      }
    }
  }
}
