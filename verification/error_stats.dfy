/** The statistics table: one counter per outcome kind, the initial table,
    and the three ways the fetch loop and the workers bump a counter. */
module ErrorStats {
  import opened DataType

  type StatsTable = map<Stats, nat>

  /** Every outcome kind has a counter. */
  predicate Total(t: StatsTable)
  {
    forall k: Stats :: k in t
  }

  /** The table the program starts from: every kind at zero. */
  function InitialStats(): (t: StatsTable)
    ensures Total(t)
    ensures forall k: Stats :: t[k] == 0
  {
    var t := map[IOErr := 0, Done := 0, Hits := 0, TimeOut := 0, DNSErr := 0,
                 C404 := 0, C200 := 0, C500 := 0, C403 := 0, C401 := 0,
                 C302 := 0, C301 := 0, C000 := 0];
    ListedKindsAreAll(t);
    t
  }

  /** A table with a counter for each of the thirteen kinds is total. */
  lemma ListedKindsAreAll(t: StatsTable)
    requires IOErr in t && Done in t && Hits in t && DNSErr in t && TimeOut in t
    requires C404 in t && C500 in t && C200 in t && C301 in t && C302 in t
    requires C403 in t && C401 in t && C000 in t
    ensures Total(t)
  {
    forall k: Stats ensures k in t {
      match k {
        case IOErr => case Done => case Hits => case DNSErr => case TimeOut =>
        case C404 => case C500 => case C200 => case C301 => case C302 =>
        case C403 => case C401 => case C000 =>
      }
    }
  }

  /** `t2` is `t1` with the counter for `k` one higher and nothing else changed. */
  predicate BumpedOnce(t1: StatsTable, t2: StatsTable, k: Stats)
  {
    && k in t1
    && t2.Keys == t1.Keys
    && t2[k] == t1[k] + 1
    && forall j | j in t1 && j != k :: t2[j] == t1[j]
  }

  /** `stats_inc`: add one to the counter of `k`, which must exist (the source unwraps it). */
  function StatsInc(t: StatsTable, k: Stats): (r: StatsTable)
    requires k in t
    ensures BumpedOnce(t, r, k)
  {
    t[k := t[k] + 1]
  }

  /** The sum of all counters of a total table. */
  function Sum(t: StatsTable): nat
    requires Total(t)
  {
    t[IOErr] + t[Done] + t[Hits] + t[DNSErr] + t[TimeOut]
    + t[C404] + t[C500] + t[C200] + t[C301] + t[C302]
    + t[C403] + t[C401] + t[C000]
  }

  /** Bumping one counter raises the total of a total table by exactly one. */
  lemma StatsIncRaisesSum(t: StatsTable, k: Stats)
    requires Total(t)
    ensures Total(StatsInc(t, k)) && Sum(StatsInc(t, k)) == Sum(t) + 1
  {
  }

  // ---------------------------------------------------------------------
  // Status codes

  /** The bucket of a status code; codes without a bucket of their own go to `C000`. */
  function CodeBucket(code: u16): (k: Stats)
    ensures k == C500 <==> code == 500
    ensures k == C200 <==> code == 200
    ensures k == C404 <==> code == 404
    ensures k == C403 <==> code == 403
    ensures k == C401 <==> code == 401
    ensures k == C301 <==> code == 301
    ensures k == C302 <==> code == 302
    ensures k == C000 <==> code !in {500, 200, 404, 403, 401, 301, 302}
  {
    match code
    case 500 => C500
    case 200 => C200
    case 404 => C404
    case 403 => C403
    case 401 => C401
    case 301 => C301
    case 302 => C302
    case _ => C000
  }

  /** The status buckets never touch the error, `Done` or `Hits` counters,
      and distinct bucketed codes land in distinct buckets. */
  lemma CodeBucketIsStatusBucket(a: u16, b: u16)
    ensures CodeBucket(a) !in {IOErr, Done, Hits, DNSErr, TimeOut}
    ensures CodeBucket(a) == CodeBucket(b) && CodeBucket(a) != C000 ==> a == b
  {
  }

  /** `stats_code_inc`: bump the bucket of `code`, and only that one. */
  function StatsCodeInc(t: StatsTable, code: u16): (r: StatsTable)
    requires Total(t)
    ensures BumpedOnce(t, r, CodeBucket(code))
    ensures Total(r) && Sum(r) == Sum(t) + 1
  {
    StatsIncRaisesSum(t, CodeBucket(code));
    StatsInc(t, CodeBucket(code))
  }

  // ---------------------------------------------------------------------
  // Transport errors

  /** A request error as the HTTP client classifies it. `isDnsNoRecords`
      stands for "the cause chain holds a resolver error of kind
      NoRecordsFound". */
  datatype ReqError = ReqError(isTimeout: bool, isDnsNoRecords: bool, isRequest: bool)

  /** `stats_err_inc`: a timeout counts as `TimeOut` before anything else; a
      DNS no-records error as `DNSErr`; any other request error as `IOErr`;
      an error that is none of these is not counted. */
  function StatsErrInc(t: StatsTable, e: ReqError): (r: StatsTable)
    requires Total(t)
    ensures e.isTimeout ==> BumpedOnce(t, r, TimeOut)
    ensures !e.isTimeout && e.isDnsNoRecords ==> BumpedOnce(t, r, DNSErr)
    ensures !e.isTimeout && !e.isDnsNoRecords && e.isRequest ==> BumpedOnce(t, r, IOErr)
    ensures !e.isTimeout && !e.isDnsNoRecords && !e.isRequest ==> r == t
  {
    if e.isTimeout then StatsInc(t, TimeOut)
    else if e.isDnsNoRecords then StatsInc(t, DNSErr)
    else if e.isRequest then StatsInc(t, IOErr)
    else t
  }

  /** At most one counter changes, by one, so the total grows by at most one. */
  lemma StatsErrIncAtMostOne(t: StatsTable, e: ReqError)
    requires Total(t)
    ensures var r := StatsErrInc(t, e);
      && Total(r)
      && (Sum(r) == Sum(t) || Sum(r) == Sum(t) + 1)
      && forall j: Stats, k: Stats | j != k && r[j] != t[j] :: r[k] == t[k]
  {
    if e.isTimeout {
      StatsIncRaisesSum(t, TimeOut);
    } else if e.isDnsNoRecords {
      StatsIncRaisesSum(t, DNSErr);
    } else if e.isRequest {
      StatsIncRaisesSum(t, IOErr);
    }
  }
}
