/** One monitoring cycle of monitoring_service.py (`run_monitoring_cycle`):
    read the enabled configurations, check every site, store every result.
    The per-site observations (clock, probe outcomes, faults) are inputs. */
module Service {
  import opened Wrappers
  import opened PyText
  import opened Monitor
  import opened Validators
  import opened Tables
  import opened Storage

  /** The site the evaluator sees for a stored configuration. */
  function SiteOfRow(row: ConfigRow): (s: SiteConfig)
    ensures s.name == Str(row.name)
  {
    SiteOf(RowToDict(row))
  }

  /** The results a cycle produces over the configuration table with the
      call written as intended: one result per enabled row, in name order,
      each well formed and named after its row. */
  function CycleChecks(configs: seq<ConfigRow>, obs: seq<Observation>): (r: seq<CheckResult>)
    requires |obs| == |EnabledRows(configs)|
    ensures |r| == |EnabledRows(configs)|
    ensures forall i :: 0 <= i < |r| ==>
      WellFormedResult(r[i]) && r[i].siteName == Some(EnabledRows(configs)[i].name)
  {
    var rows := EnabledRows(configs);
    seq(|rows|, i requires 0 <= i < |rows| => SiteStep(SiteOfRow(rows[i]), obs[i]).value)
  }

  /** With any site enabled, the intended cycle has something to store. */
  lemma SomeEnabledSomeChecks(configs: seq<ConfigRow>, obs: seq<Observation>)
    requires |obs| == |EnabledRows(configs)|
    requires exists k :: 0 <= k < |configs| && IsEnabled(configs[k])
    ensures |CycleChecks(configs, obs)| == |EnabledRows(configs)| > 0
  {
    var k :| 0 <= k < |configs| && IsEnabled(configs[k]);
    assert configs[k] in multiset(configs);
    assert configs[k] in multiset(EnabledRows(configs));
  }

  /** Result rows with consecutive ids starting at `first`. */
  function Stamped(checks: seq<CheckResult>, first: nat): (rows: seq<ResultRow>)
    ensures |rows| == |checks|
    ensures forall j :: 0 <= j < |rows| ==> rows[j].id == first + j && rows[j].check == checks[j]
  {
    seq(|checks|, j requires 0 <= j < |checks| => ResultRow(first + j, checks[j]))
  }

  /** How many positional arguments `monitor_all_sites` takes, counting
      the receiver as Python's message does: it is declared with `self`
      only (monitor.py:251). */
  const MonitorAllSitesTakes: nat := 1

  /** What the service passes to it: the receiver and the list of
      configurations just loaded (monitoring_service.py:46). */
  const MonitorAllSitesGiven: nat := 2

  /** A call that passes a different number of positional arguments than
      the function takes. */
  datatype TypeError = TypeError(takes: nat, given: nat)

  /** Binding a call's arguments: Python raises `TypeError` before the body
      runs unless the counts agree. */
  function BindArguments(takes: nat, given: nat): (r: Outcome<TypeError>)
    ensures r.Pass? <==> takes == given
    ensures r.Fail? ==> r.error == TypeError(takes, given)
  {
    if takes == given then Pass else Fail(TypeError(takes, given))
  }

  /** `run_monitoring_cycle` with `monitor_all_sites` declared to take
      `takes` positional arguments. The enabled configurations are loaded
      first. When the call's arguments do not bind, the `TypeError` is what
      the cycle's handler logs (monitoring_service.py:54-55), no site is
      checked and nothing is stored. Otherwise every enabled configuration
      is checked in order and every result is appended. */
  method RunCycle(db: DatabaseManager, obs: seq<Observation>, takes: nat) returns (logged: Option<TypeError>)
    requires db.Valid() && |obs| == |EnabledRows(db.configs)|
    modifies db
    ensures db.Valid()
    ensures db.configs == old(db.configs) && db.nextConfigId == old(db.nextConfigId)
    ensures logged.Some? <==> takes != MonitorAllSitesGiven
    ensures logged.Some? ==> logged.value == TypeError(takes, MonitorAllSitesGiven)
    ensures logged.Some? ==> db.results == old(db.results) && db.nextResultId == old(db.nextResultId)
    ensures logged.None? ==>
      db.results == old(db.results) + Stamped(CycleChecks(old(db.configs), obs), old(db.nextResultId))
  {
    var ds := db.GetEnabledConfigurations();
    var bound := BindArguments(takes, MonitorAllSitesGiven);
    if bound.Fail? {
      return Some(bound.error);
    }
    var sites := seq(|ds|, i requires 0 <= i < |ds| => SiteOf(ds[i]));
    EnabledSites(db.configs, ds, sites);
    var r := MonitorAllSites(sites, obs);
    assert r.Success?;
    CycleMatches(db.configs, obs, sites, r.value);
    StoreResults(db, r.value);
    return None;
  }

  /** The cycle as written: every run ends in the logged `TypeError`, and
      the results table is left as it was. */
  method RunMonitoringCycleAsWritten(db: DatabaseManager, obs: seq<Observation>) returns (logged: Option<TypeError>)
    requires db.Valid() && |obs| == |EnabledRows(db.configs)|
    modifies db
    ensures db.Valid()
    ensures logged == Some(TypeError(1, 2))
    ensures db.results == old(db.results) && db.nextResultId == old(db.nextResultId)
    ensures db.configs == old(db.configs) && db.nextConfigId == old(db.nextConfigId)
  {
    logged := RunCycle(db, obs, MonitorAllSitesTakes);
  }

  /** The cycle with `monitor_all_sites` declared to take the list it is
      given: the results table gains exactly the intended cycle's results,
      with consecutive ids. */
  method RunMonitoringCycle(db: DatabaseManager, obs: seq<Observation>)
    requires db.Valid() && |obs| == |EnabledRows(db.configs)|
    modifies db
    ensures db.Valid()
    ensures db.results == old(db.results) + Stamped(CycleChecks(old(db.configs), obs), old(db.nextResultId))
    ensures db.configs == old(db.configs) && db.nextConfigId == old(db.nextConfigId)
  {
    var logged := RunCycle(db, obs, MonitorAllSitesGiven);
  }

  /** With any site enabled, the cycle as written stores nothing, where the
      intended cycle would have appended one row per enabled site. */
  method ArityMismatchStoresNothing(db: DatabaseManager, obs: seq<Observation>) returns (logged: Option<TypeError>)
    requires db.Valid() && |obs| == |EnabledRows(db.configs)|
    requires exists k :: 0 <= k < |db.configs| && IsEnabled(db.configs[k])
    modifies db
    ensures logged.Some? && db.results == old(db.results)
    ensures |Stamped(CycleChecks(old(db.configs), obs), old(db.nextResultId))| > 0
  {
    SomeEnabledSomeChecks(db.configs, obs);
    logged := RunMonitoringCycleAsWritten(db, obs);
  }

  /** The sites the cycle builds from the enabled dictionaries are those of
      the enabled rows, each with a name. */
  lemma EnabledSites(configs: seq<ConfigRow>, ds: seq<ConfigDict>, sites: seq<SiteConfig>)
    requires |ds| == |EnabledRows(configs)|
    requires forall k :: 0 <= k < |ds| ==> ds[k] == RowToDict(EnabledRows(configs)[k])
    requires |sites| == |ds| && forall i :: 0 <= i < |ds| ==> sites[i] == SiteOf(ds[i])
    ensures forall i :: 0 <= i < |sites| ==> sites[i] == SiteOfRow(EnabledRows(configs)[i])
    ensures forall i :: 0 <= i < |sites| ==> sites[i].name.Str?
  {
    forall i | 0 <= i < |sites| ensures sites[i] == SiteOfRow(EnabledRows(configs)[i]) {
      assert ds[i] == RowToDict(EnabledRows(configs)[i]);
    }
  }

  /** The evaluator's results over the enabled rows' sites are the cycle's
      results. */
  lemma CycleMatches(configs: seq<ConfigRow>, obs: seq<Observation>, sites: seq<SiteConfig>, checks: seq<CheckResult>)
    requires |obs| == |EnabledRows(configs)| && |sites| == |obs| && |checks| == |sites|
    requires forall i :: 0 <= i < |sites| ==> sites[i] == SiteOfRow(EnabledRows(configs)[i])
    requires forall i :: 0 <= i < |sites| ==>
      SiteStep(sites[i], obs[i]).Success? && checks[i] == SiteStep(sites[i], obs[i]).value
    ensures checks == CycleChecks(configs, obs)
  {
  }

  /** `for result in results: insert_monitoring_result(result)`. */
  method StoreResults(db: DatabaseManager, checks: seq<CheckResult>)
    requires db.Valid()
    modifies db
    ensures db.Valid()
    ensures db.results == old(db.results) + Stamped(checks, old(db.nextResultId))
    ensures db.nextResultId == old(db.nextResultId) + |checks|
    ensures db.configs == old(db.configs) && db.nextConfigId == old(db.nextConfigId)
  {
    var k := 0;
    while k < |checks|
      invariant 0 <= k <= |checks| && db.Valid()
      invariant db.results == old(db.results) + Stamped(checks[..k], old(db.nextResultId))
      invariant db.nextResultId == old(db.nextResultId) + k
      invariant db.configs == old(db.configs) && db.nextConfigId == old(db.nextConfigId)
    {
      db.InsertMonitoringResult(checks[k]);
      assert Stamped(checks[..k + 1], old(db.nextResultId))
        == Stamped(checks[..k], old(db.nextResultId)) + [ResultRow(old(db.nextResultId) + k, checks[k])];
      k := k + 1;
    }
    assert checks[..k] == checks;
  }
}
