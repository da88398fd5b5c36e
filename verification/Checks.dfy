/** The records the core passes around. Instants are epoch seconds, latencies milliseconds. */
module Checks {
  import opened Prelude

  datatype Series = Pool | Egress

  const EGRESS_ID := "egress"

  datatype CheckRecord = CheckRecord(
    proxyId: string,
    series: Series,
    checkedAt: real,
    success: bool,
    latency: Option<real>,
    statusCode: Option<int>,
    error: Option<string>)

  datatype ProbeOutcome = ProbeOutcome(
    success: bool,
    latency: Option<real>,
    statusCode: Option<int>,
    error: Option<string>,
    checkedAt: real)

  datatype CheckApply = CheckApply(
    proxyId: string,
    success: bool,
    latency: Option<real>,
    statusCode: Option<int>,
    error: Option<string>,
    checkedAt: real)

  function Ratio(ok: int, total: int): (r: real)
    ensures 0 <= ok <= total ==> 0.0 <= r <= 1.0
  {
    if total <= 0 then 0.0 else ok as real / total as real
  }

  datatype SuccessRates = SuccessRates(
    ok24h: nat,
    total24h: nat,
    ok7d: nat,
    total7d: nat,
    ok1h: nat,
    total1h: nat)
  {
    function Success1h(): real { Ratio(ok1h, total1h) }
    function Success24h(): real { Ratio(ok24h, total24h) }
    function Success7d(): real { Ratio(ok7d, total7d) }
  }

  const NO_RATES := SuccessRates(0, 0, 0, 0, 0, 0)

  /** One bucket of the daily or the hourly rollup. */
  datatype Rollup = Rollup(
    proxyId: string,
    bucket: int,
    successCount: nat,
    failCount: nat,
    avgLatency: Option<real>)
}
