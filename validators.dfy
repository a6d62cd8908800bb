/** The configuration validator (validators.py, `validate_config`): four
    guards checked in order, the first that fails deciding the error. */
module Validators {
  import opened Wrappers
  import opened PyText
  import Monitor

  /** A site configuration dictionary as the validator and the storage
      layer see it. */
  datatype ConfigDict = ConfigDict(
    name: Entry,
    url: Entry,
    pingHost: Entry,
    enabled: Flag,
    enableHttp: Flag,
    enablePing: Flag)

  /** The four `ValueError`s, in the order the guards are checked. */
  datatype ValidationError = NameRequired | NoTestEnabled | UrlRequired | PingHostRequired

  /** The enable flags as the validator reads them: missing means off. */
  predicate HttpOn(c: ConfigDict) {
    FlagOn(c.enableHttp, false)
  }

  predicate PingOn(c: ConfigDict) {
    FlagOn(c.enablePing, false)
  }

  /** The configuration passes every guard: a usable name, at least one
      test enabled, and a usable target for each enabled test. */
  predicate Acceptable(c: ConfigDict) {
    && HasText(c.name)
    && (HttpOn(c) || PingOn(c))
    && (HttpOn(c) ==> HasText(c.url))
    && (PingOn(c) ==> HasText(c.pingHost))
  }

  /** `validate_config`. It passes exactly the acceptable configurations, and
      otherwise reports the first guard that fails: a missing or blank name;
      then both tests off; then HTTP on without a usable URL; then ping on
      without a usable host. */
  function ValidateConfig(c: ConfigDict): (r: Outcome<ValidationError>)
    ensures r.Pass? <==> Acceptable(c)
    ensures r == Fail(NameRequired) <==> !HasText(c.name)
    ensures r == Fail(NoTestEnabled) <==> HasText(c.name) && !HttpOn(c) && !PingOn(c)
    ensures r == Fail(UrlRequired) <==>
      HasText(c.name) && HttpOn(c) && !HasText(c.url)
    ensures r == Fail(PingHostRequired) <==>
      HasText(c.name) && (HttpOn(c) ==> HasText(c.url)) && PingOn(c) && !HasText(c.pingHost)
  {
    if !HasText(c.name) then Fail(NameRequired)
    else if !HttpOn(c) && !PingOn(c) then Fail(NoTestEnabled)
    else if HttpOn(c) && !HasText(c.url) then Fail(UrlRequired)
    else if PingOn(c) && !HasText(c.pingHost) then Fail(PingHostRequired)
    else Pass
  }

  /** A target is not inspected when its test is off: any URL (any host)
      may stand in its place without changing the verdict. */
  lemma TargetIgnoredWhenOff(c: ConfigDict, other: Entry)
    ensures !HttpOn(c) ==> ValidateConfig(c.(url := other)) == ValidateConfig(c)
    ensures !PingOn(c) ==> ValidateConfig(c.(pingHost := other)) == ValidateConfig(c)
  {
  }

  /** Both tests off is rejected whatever the targets, and a configuration
      with neither flag given counts as both off. */
  lemma BothOffRejected(c: ConfigDict)
    requires HasText(c.name) && c.enableHttp.FlagAbsent? && c.enablePing.FlagAbsent?
    ensures ValidateConfig(c) == Fail(NoTestEnabled)
  {
  }

  /** The keys of a configuration the site evaluator reads. */
  function SiteOf(c: ConfigDict): (s: Monitor.SiteConfig)
    ensures s.name == c.name && s.url == c.url && s.pingHost == c.pingHost
  {
    Monitor.SiteConfig(c.name, c.url, c.pingHost)
  }

  /** An accepted configuration never meets the "no tests enabled" branch of
      the evaluator: at least one probe runs and its fields are filled in. */
  lemma AcceptedConfigIsProbed(c: ConfigDict, now: int, http: Monitor.HttpClient, ping: Monitor.ProcessRunner)
    requires ValidateConfig(c).Pass?
    ensures var r := Monitor.MonitorSite(SiteOf(c), now, http, ping);
      r.Success? && (r.value.httpSuccess.Some? || r.value.pingSuccess.Some?)
  {
    HasTextIsNonBlankString(c.name);
  }

  // ---------------------------------------------------------------------
  // The cases of tests.py

  const TestName := Str("Test Site")
  const TestUrl := Str("https://example.com")
  const TestHost := Str("example.com")

  lemma TestTextsUsable()
    ensures HasText(TestName) && HasText(TestUrl) && HasText(TestHost)
  {
    HasTextByEdges("Test Site");
    HasTextByEdges("https://example.com");
    HasTextByEdges("example.com");
  }

  /** HTTP and ping, HTTP only, and ping only are accepted. */
  lemma AcceptedTestCases()
    ensures ValidateConfig(ConfigDict(TestName, TestUrl, TestHost, FlagAbsent, FlagValue(true), FlagValue(true))).Pass?
    ensures ValidateConfig(ConfigDict(TestName, TestUrl, Absent, FlagAbsent, FlagValue(true), FlagValue(false))).Pass?
    ensures ValidateConfig(ConfigDict(TestName, Absent, TestHost, FlagAbsent, FlagValue(false), FlagValue(true))).Pass?
  {
    TestTextsUsable();
  }

  /** A missing name, a blank name, both tests off, HTTP without a URL and
      ping without a host are rejected, each with its own error. */
  lemma RejectedTestCases()
    ensures ValidateConfig(ConfigDict(Absent, TestUrl, Absent, FlagAbsent, FlagValue(true), FlagAbsent)) == Fail(NameRequired)
    ensures ValidateConfig(ConfigDict(Str("   "), TestUrl, Absent, FlagAbsent, FlagValue(true), FlagAbsent)) == Fail(NameRequired)
    ensures ValidateConfig(ConfigDict(TestName, TestUrl, TestHost, FlagAbsent, FlagValue(false), FlagValue(false))) == Fail(NoTestEnabled)
    ensures ValidateConfig(ConfigDict(TestName, Absent, Absent, FlagAbsent, FlagValue(true), FlagValue(false))) == Fail(UrlRequired)
    ensures ValidateConfig(ConfigDict(TestName, Absent, Absent, FlagAbsent, FlagValue(false), FlagValue(true))) == Fail(PingHostRequired)
  {
    TestTextsUsable();
    assert IsBlank("   ");
    HasTextIsNonBlankString(Str("   "));
  }
}
