/**
 The result of one check run, with the fields the pipeline behind the probes reads.
 Instants and durations are integers in nanoseconds; the zero time is 0.
 */
module Check {
  import opened Wrappers

  const ZERO_TIME := 0

  const NANOS_PER_MILLI := 1_000_000

  /** The check types known to the configuration loader, in the order the status page lists them. */
  const TYPE_ORDER: seq<string> := [
    "http", "tcp", "udp", "dns", "icmp", "grpc", "ntp", "tls", "smtp",
    "traceroute", "bgp", "domain_expiry", "websocket", "playwright"
  ]

  datatype WebVitals = WebVitals(ttfb: real, fcp: real, lcp: real, cls: real, inp: real, domComplete: real)

  /** Per-type measurements that travel unchanged from a result to its history entry. */
  datatype Detail = Detail(error: string, statusCode: int, dns: int, tls: int, ttfb: int, responseBytes: int)

  datatype Cert = Cert(daysRemaining: int, valid: bool, warnDaysVal: int, critDaysVal: int) {
    function WarnDays(): int {
      if warnDaysVal > 0 then warnDaysVal else 30
    }

    function CriticalDays(): int {
      if critDaysVal > 0 then critDaysVal else 7
    }
  }

  datatype Result = Result(
    name: string,
    typ: string,
    group: string,
    target: string,
    success: bool,
    infraError: bool,
    duration: int,
    timestamp: int,
    detail: Detail,
    webVitals: Option<WebVitals>,
    harTransferBytes: Option<int>,
    resourceCount: int,
    cert: Cert,
    retries: int)
  {
    /** The target itself failed: neither a success nor a failure of the probing infrastructure. */
    predicate RealFailure() {
      !success && !infraError
    }
  }

  /** Go's integer division truncates toward zero. */
  function TruncDiv(a: int, b: int): int
    requires b > 0
  {
    if a >= 0 then a / b else -((-a) / b)
  }

  function Milliseconds(d: int): int {
    TruncDiv(d, NANOS_PER_MILLI)
  }
}
