/** The probes and the site evaluator of monitor.py (`NetworkMonitor`).
    The outside world enters as inputs: the outcome of running the ping
    tool (exit status and standard output, or the way it failed), the
    outcome of the HTTP request (final status code and elapsed time, or the
    kind of transport error), and the clock reading. */
module Monitor {
  import opened Wrappers
  import opened PyText
  import opened PingParse

  // ---------------------------------------------------------------------
  // Settings (config.py)

  const PingCount: nat := 3
  const PingTimeoutSeconds: nat := 5
  const HttpTimeoutSeconds: nat := 10
  /** The ping tool is given five seconds more than its own reply timeout. */
  const PingProcessTimeoutSeconds: nat := PingTimeoutSeconds + 5

  // ---------------------------------------------------------------------
  // The ping probe

  /** `str(n)`: the decimal digits of `n`, most significant first. */
  function NatToDecimal(n: nat): (t: string)
    ensures |t| > 0 && AllIn(t, IsDigit)
    ensures DecimalValue(t) == n
    ensures n < 10 <==> |t| == 1
  {
    var d := ['0' + (n % 10) as char];
    if n < 10 then d
    else
      var t := NatToDecimal(n / 10) + d;
      assert t[..|t| - 1] == NatToDecimal(n / 10);
      t
  }

  /** The argument vector `ping -c <count> -W <timeout> <host>`: the count and
      the reply timeout are written in decimal and the host is the last argument. */
  function PingCommand(host: string, count: nat): (cmd: seq<string>)
    ensures |cmd| == 6 && cmd[0] == "ping" && cmd[1] == "-c" && cmd[3] == "-W" && cmd[5] == host
    ensures AllIn(cmd[2], IsDigit) && DecimalValue(cmd[2]) == count
    ensures AllIn(cmd[4], IsDigit) && DecimalValue(cmd[4]) == PingTimeoutSeconds
  {
    ["ping", "-c", NatToDecimal(count), "-W", NatToDecimal(PingTimeoutSeconds), host]
  }

  /** How running a command ended: it exited with a status and its standard
      output, it outran its time limit, or it could not be run at all. */
  datatype ProcessOutcome = Exited(code: int, stdout: string) | TimedOut | LaunchFailed

  /** The operating system as the probe sees it: how running an argument
      vector under a time limit in seconds ends. */
  type ProcessRunner = (seq<string>, nat) -> ProcessOutcome

  /** `ping_host(host, count)`: runs `PingCommand(host, count)` with a limit
      of `PingProcessTimeoutSeconds`. The report is parsed only when the tool
      exits with status 0; any other status, a timeout or a failure to run
      gives the failure record. Either way the record is that of an
      attempted ping. */
  function PingHost(host: string, run: ProcessRunner, count: nat := PingCount): (r: PingResult)
    ensures ProbedPing(r)
    ensures var o := run(PingCommand(host, count), PingProcessTimeoutSeconds);
      && (o.Exited? && o.code == 0 ==> r == ParsePingOutput(o.stdout))
      && (!(o.Exited? && o.code == 0) ==> r == PingFailure)
  {
    match run(PingCommand(host, count), PingProcessTimeoutSeconds)
    case Exited(code, stdout) => if code == 0 then ParsePingOutput(stdout) else PingFailure
    case _ => PingFailure
  }

  /** A ping counts as passed only when the tool, run on the host with the
      default count, exited cleanly, reported under 100 percent loss, and
      every reported min/avg/max converted. */
  lemma PingPassed(host: string, run: ProcessRunner)
    ensures var o := run(PingCommand(host, PingCount), PingProcessTimeoutSeconds);
      PingHost(host, run).success == Some(true) <==>
        o.Exited? && o.code == 0 && !TimingMalformed(o.stdout) && PacketLoss(o.stdout) < 100
  {
  }

  // ---------------------------------------------------------------------
  // The HTTP probe

  /** How a GET request (redirects followed) ended: a final response with
      its status code and the elapsed time in milliseconds, or an error. */
  datatype HttpOutcome =
    | Response(statusCode: int, elapsedMs: real)
    | TimeoutError
    | ConnectionFailure
    | OtherFailure

  /** `{'success', 'status_code', 'response_time_ms'}`. */
  datatype HttpResult = HttpResult(success: Option<bool>, statusCode: Option<int>, responseTimeMs: Option<real>)

  /** The network as the probe sees it: how a GET of a URL under a time
      limit in seconds ends. */
  type HttpClient = (string, nat) -> HttpOutcome

  /** `check_http(url)`: fetches the URL with a limit of `HttpTimeoutSeconds`.
      Success exactly when a response arrived with final status 200; status
      and time are recorded exactly when a response arrived, and every error
      gives a plain failure. */
  function CheckHttp(url: string, get: HttpClient): (r: HttpResult)
    ensures r.success.Some?
    ensures var o := get(url, HttpTimeoutSeconds);
      && (r.success == Some(true) <==> o.Response? && o.statusCode == 200)
      && (r.statusCode.Some? <==> o.Response?)
      && (r.responseTimeMs.Some? <==> o.Response?)
      && (o.Response? ==> r.statusCode == Some(o.statusCode) && r.responseTimeMs == Some(o.elapsedMs))
  {
    match get(url, HttpTimeoutSeconds)
    case Response(code, ms) => HttpResult(Some(code == 200), Some(code), Some(ms))
    case _ => HttpResult(Some(false), None, None)
  }

  // ---------------------------------------------------------------------
  // One site

  /** The keys of a site dictionary the evaluator reads. */
  datatype SiteConfig = SiteConfig(name: Entry, url: Entry, pingHost: Entry)

  /** A `site_config['key']` lookup of a missing key. */
  datatype KeyError = KeyError(key: string)

  /** The result dictionary of one check of one site. */
  datatype CheckResult = CheckResult(
    timestamp: int,
    siteName: Option<string>,
    siteUrl: Option<string>,
    pingHost: Option<string>,
    httpStatusCode: Option<int>,
    httpResponseTimeMs: Option<real>,
    httpSuccess: Option<bool>,
    pingAvgMs: Option<string>,
    pingMinMs: Option<string>,
    pingMaxMs: Option<string>,
    pingPacketLossPercent: Option<nat>,
    pingSuccess: Option<bool>,
    overallSuccess: bool)

  /** The ping fields of a result, as a ping record. */
  function PingPart(r: CheckResult): PingResult {
    PingResult(r.pingSuccess, r.pingAvgMs, r.pingMinMs, r.pingMaxMs, r.pingPacketLossPercent)
  }

  /** What holds of every result a monitoring cycle produces: the verdict is
      "some probe passed"; a probe that was not run has all its fields `None`;
      an attempted ping carries the invariants of `ProbedPing`. */
  predicate WellFormedResult(r: CheckResult) {
    && r.overallSuccess == (r.httpSuccess == Some(true) || r.pingSuccess == Some(true))
    && (r.httpSuccess.None? ==> r.httpStatusCode.None? && r.httpResponseTimeMs.None?)
    && (r.pingSuccess.None? ==> PingPart(r) == PingResult(None, None, None, None, None))
    && (r.pingSuccess.Some? ==> ProbedPing(PingPart(r)))
  }

  /** `monitor_site`. A probe runs exactly when its target is present and not
      blank (the `enable_http`/`enable_ping` keys are not consulted); a probe
      that does not run has all its fields `None`, never `False`. The verdict
      is true exactly when some probe that ran passed, so with no probe at
      all it is `False`. The only error is a missing `name` key. A probe
      that runs is given the target exactly as configured. */
  function MonitorSite(site: SiteConfig, now: int, http: HttpClient, ping: ProcessRunner): (r: Result<CheckResult, KeyError>)
    ensures r.Failure? <==> site.name.Absent?
    ensures r.Failure? ==> r.error == KeyError("name")
    ensures r.Success? ==> WellFormedResult(r.value)
    ensures r.Success? ==>
      var v := r.value;
      && v.timestamp == now && v.siteName == Get(site.name)
      && v.siteUrl == Get(site.url) && v.pingHost == Get(site.pingHost)
      && (v.httpSuccess.Some? <==> HasText(site.url))
      && (v.pingSuccess.Some? <==> HasText(site.pingHost))
      && (HasText(site.url) ==>
            (v.httpSuccess == CheckHttp(site.url.s, http).success
             && v.httpStatusCode == CheckHttp(site.url.s, http).statusCode
             && v.httpResponseTimeMs == CheckHttp(site.url.s, http).responseTimeMs))
      && (HasText(site.pingHost) ==> PingPart(v) == PingHost(site.pingHost.s, ping))
      && (v.overallSuccess <==>
            (HasText(site.url) && CheckHttp(site.url.s, http).success == Some(true))
            || (HasText(site.pingHost) && PingHost(site.pingHost.s, ping).success == Some(true)))
  {
    var httpEnabled := HasText(site.url);
    var pingEnabled := HasText(site.pingHost);
    var h := if httpEnabled then CheckHttp(site.url.s, http) else HttpResult(None, None, None);
    var p := if pingEnabled then PingHost(site.pingHost.s, ping) else PingResult(None, None, None, None, None);
    if site.name.Absent? then Failure(KeyError("name"))
    else
      var overall :=
        if httpEnabled && pingEnabled then h.success.value || p.success.value
        else if httpEnabled then h.success.value
        else if pingEnabled then p.success.value
        else false;
      Success(CheckResult(now, Get(site.name), Get(site.url), Get(site.pingHost),
        h.statusCode, h.responseTimeMs, h.success,
        p.avgMs, p.minMs, p.maxMs, p.packetLossPercent, p.success, overall))
  }

  /** With both probes running the site is up when either passes; with one,
      when that one passes; with none it is down and nothing was probed. */
  lemma VerdictCases(site: SiteConfig, now: int, http: HttpClient, ping: ProcessRunner)
    requires site.name.Str?
    ensures var v := MonitorSite(site, now, http, ping).value;
      && (HasText(site.url) && HasText(site.pingHost) ==>
            v.overallSuccess == (v.httpSuccess.value || v.pingSuccess.value))
      && (HasText(site.url) && !HasText(site.pingHost) ==> v.overallSuccess == v.httpSuccess.value)
      && (!HasText(site.url) && HasText(site.pingHost) ==> v.overallSuccess == v.pingSuccess.value)
      && (!HasText(site.url) && !HasText(site.pingHost) ==>
            !v.overallSuccess && v.httpSuccess.None? && v.pingSuccess.None?)
  {
  }

  /** A blank target is never probed: `"   "` behaves as a missing one. */
  lemma BlankTargetNotProbed(name: string, url: string, host: Entry, now: int, http: HttpClient, ping: ProcessRunner)
    requires IsBlank(url)
    ensures var v := MonitorSite(SiteConfig(Str(name), Str(url), host), now, http, ping).value;
      v.httpSuccess.None? && v.httpStatusCode.None? && v.siteUrl == Some(url)
  {
    HasTextIsNonBlankString(Str(url));
  }

  // ---------------------------------------------------------------------
  // The monitoring cycle

  /** `monitor_all_sites`' handler for a site whose check raised, as written:
      it reads `site_config['url']` with a plain lookup, which itself raises
      for a site without a `url` key. The ping fields follow the
      truthiness of `ping_host` (a blank host counts). */
  function FallbackAsWritten(site: SiteConfig, now: int): (r: Result<CheckResult, KeyError>)
    ensures r.Failure? <==> site.name.Absent? || site.url.Absent?
    ensures r.Success? ==> r.value == FallbackRecord(site, now)
  {
    if site.name.Absent? then Failure(KeyError("name"))
    else if site.url.Absent? then Failure(KeyError("url"))
    else Success(FallbackRecord(site, now))
  }

  /** The handler with `site_config.get('url')`, as for every other optional
      key: it fails only when the `name` key itself is missing. */
  function Fallback(site: SiteConfig, now: int): (r: Result<CheckResult, KeyError>)
    ensures r.Failure? <==> site.name.Absent?
    ensures r.Success? ==> r.value == FallbackRecord(site, now)
  {
    if site.name.Absent? then Failure(KeyError("name")) else Success(FallbackRecord(site, now))
  }

  /** The synthetic record for a site whose check raised: down, HTTP failed,
      and the ping failed with full loss when a ping host is set. */
  function FallbackRecord(site: SiteConfig, now: int): (r: CheckResult)
    ensures WellFormedResult(r) && !r.overallSuccess && r.httpSuccess == Some(false)
    ensures r.siteName == Get(site.name) && r.siteUrl == Get(site.url) && r.pingHost == Get(site.pingHost)
    ensures r.pingSuccess == (if Truthy(site.pingHost) then Some(false) else None)
    ensures r.pingPacketLossPercent == (if Truthy(site.pingHost) then Some(100) else None)
  {
    var pinged := Truthy(site.pingHost);
    CheckResult(now, Get(site.name), Get(site.url), Get(site.pingHost), None, None, Some(false),
      None, None, None, if pinged then Some(100) else None, if pinged then Some(false) else None, false)
  }

  /** What the cycle meets at one site: the clock, the network and the
      operating system as the probes see them, and whether evaluating the
      site raised some other exception. */
  datatype Observation = Observation(now: int, http: HttpClient, ping: ProcessRunner, fault: bool)

  /** One turn of the cycle's loop: the site's result, or the fallback when
      evaluating it raised. A failure is an exception that leaves the loop. */
  function SiteStep(site: SiteConfig, o: Observation): (r: Result<CheckResult, KeyError>)
    ensures r.Failure? <==> site.name.Absent?
    ensures r.Success? ==> WellFormedResult(r.value) && r.value.siteName == Get(site.name)
  {
    var checked := MonitorSite(site, o.now, o.http, o.ping);
    if !o.fault && checked.Success? then checked else Fallback(site, o.now)
  }

  /** One turn of the loop as written, with `FallbackAsWritten`. */
  function SiteStepAsWritten(site: SiteConfig, o: Observation): (r: Result<CheckResult, KeyError>)
    ensures r.Failure? <==> site.name.Absent? || (o.fault && site.url.Absent?)
    ensures r.Success? ==> r == SiteStep(site, o)
  {
    var checked := MonitorSite(site, o.now, o.http, o.ping);
    if !o.fault && checked.Success? then checked else FallbackAsWritten(site, o.now)
  }

  /** `monitor_all_sites` over an explicit list of sites: one result per
      site, in order, each the site's own result or its fallback record;
      when a turn raises, the exception leaves the loop and no list is
      returned. */
  method MonitorAllSites(sites: seq<SiteConfig>, obs: seq<Observation>) returns (r: Result<seq<CheckResult>, KeyError>)
    requires |obs| == |sites|
    ensures r.Success? <==> forall i :: 0 <= i < |sites| ==> sites[i].name.Str? || sites[i].name.Null?
    ensures r.Success? ==> |r.value| == |sites|
    ensures r.Success? ==> forall i :: 0 <= i < |sites| ==> r.value[i] == SiteStep(sites[i], obs[i]).value
    ensures r.Success? ==> forall i :: 0 <= i < |sites| ==>
      WellFormedResult(r.value[i]) && r.value[i].siteName == Get(sites[i].name)
    ensures r.Failure? ==> r.error == KeyError("name")
  {
    var results: seq<CheckResult> := [];
    var i := 0;
    while i < |sites|
      invariant 0 <= i <= |sites| && |results| == i
      invariant forall k :: 0 <= k < i ==> !sites[k].name.Absent? && results[k] == SiteStep(sites[k], obs[k]).value
    {
      var step := SiteStep(sites[i], obs[i]);
      if step.Failure? {
        return Failure(step.error);
      }
      results := results + [step.value];
      i := i + 1;
    }
    return Success(results);
  }

  // ---------------------------------------------------------------------
  // The sites of config.py

  /** `MONITOR_SITES`. */
  const MonitorSites: seq<SiteConfig> := [
    SiteConfig(Str("Google"), Str("https://www.google.com"), Str("8.8.8.8")),
    SiteConfig(Str("GitHub"), Str("https://github.com"), Str("github.com")),
    SiteConfig(Str("Cloudflare"), Str("https://www.cloudflare.com"), Str("1.1.1.1")),
    SiteConfig(Str("Amazon"), Str("https://www.amazon.com"), Str("amazon.com")),
    SiteConfig(Str("Microsoft"), Str("https://www.microsoft.com"), Null),
    SiteConfig(Str("Netflix"), Str("https://www.netflix.com"), Null),
    SiteConfig(Str("Google DNS Secondary"), Absent, Str("8.8.4.4"))
  ]

  /** When the ping-only site's check raises, the handler as written raises
      `KeyError('url')` out of the loop, so the whole cycle is lost; with
      `.get('url')` the site gets its failed record. */
  lemma PingOnlySiteFaultAbortsCycle(o: Observation)
    requires o.fault
    ensures SiteStepAsWritten(MonitorSites[6], o) == Failure(KeyError("url"))
    ensures SiteStep(MonitorSites[6], o).Success?
    ensures var v := SiteStep(MonitorSites[6], o).value;
      !v.overallSuccess && v.siteUrl.None? && v.pingSuccess == Some(false) && v.pingPacketLossPercent == Some(100)
  {
    assert MonitorSites[6].pingHost == Str("8.8.4.4");
  }

  /** Every configured site has a usable target, so none yields the
      "no tests enabled" record; the last is ping-only and the two before it
      HTTP-only. */
  lemma SampleSitesProbed()
    ensures forall i :: 0 <= i < |MonitorSites| ==>
      HasText(MonitorSites[i].url) || HasText(MonitorSites[i].pingHost)
    ensures forall i :: 0 <= i < 4 ==> HasText(MonitorSites[i].url) && HasText(MonitorSites[i].pingHost)
    ensures HasText(MonitorSites[4].url) && !HasText(MonitorSites[4].pingHost)
    ensures HasText(MonitorSites[5].url) && !HasText(MonitorSites[5].pingHost)
    ensures !HasText(MonitorSites[6].url) && HasText(MonitorSites[6].pingHost)
  {
    SampleUrlsUsable();
    SampleHostsUsable();
  }

  lemma SampleUrlsUsable()
    ensures forall i :: 0 <= i < 6 ==> HasText(MonitorSites[i].url)
    ensures MonitorSites[6].url.Absent?
  {
    var urls := ["https://www.google.com", "https://github.com", "https://www.cloudflare.com",
                 "https://www.amazon.com", "https://www.microsoft.com", "https://www.netflix.com"];
    forall i | 0 <= i < 6 ensures HasText(MonitorSites[i].url) {
      assert MonitorSites[i].url == Str(urls[i]);
      HasTextByEdges(urls[i]);
    }
  }

  lemma SampleHostsUsable()
    ensures forall i :: 0 <= i < 4 ==> HasText(MonitorSites[i].pingHost)
    ensures MonitorSites[4].pingHost.Null? && MonitorSites[5].pingHost.Null?
    ensures HasText(MonitorSites[6].pingHost)
  {
    var hosts := ["8.8.8.8", "github.com", "1.1.1.1", "amazon.com"];
    forall i | 0 <= i < 4 ensures HasText(MonitorSites[i].pingHost) {
      assert MonitorSites[i].pingHost == Str(hosts[i]);
      HasTextByEdges(hosts[i]);
    }
    HasTextByEdges("8.8.4.4");
  }
}
