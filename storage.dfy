/** `DatabaseManager` (database.py): the two tables and their id sequences
    as fields, and each operation that changes them as a method. The
    queries are the functions of `Tables` applied to `results`. */
module Storage {
  import opened Wrappers
  import opened PyText
  import opened Ordering
  import opened Validators
  import opened Monitor
  import opened Tables

  class DatabaseManager {
    var configs: seq<ConfigRow>
    var nextConfigId: nat
    var results: seq<ResultRow>
    var nextResultId: nat

    /** Ids increase along each table and stay below their sequence;
        configuration names are unique. */
    ghost predicate Valid()
      reads this
    {
      ConfigsValid(configs, nextConfigId) && ResultsValid(results, nextResultId)
    }

    /** A fresh database file: both tables empty, both sequences at 1. */
    constructor ()
      ensures Valid()
      ensures configs == [] && results == [] && nextConfigId == 1 && nextResultId == 1
    {
      configs := [];
      nextConfigId := 1;
      results := [];
      nextResultId := 1;
    }

    /** `insert_configuration`: on success the table gains exactly the row
        `InsertedRow` describes; on an error nothing changes. */
    method InsertConfiguration(c: ConfigDict, now: int) returns (r: Outcome<StoreError>)
      requires Valid()
      modifies this
      ensures Valid()
      ensures var row := InsertedRow(old(configs), old(nextConfigId), c, now);
        && (r.Pass? <==> row.Success?)
        && (row.Failure? ==> r == Fail(row.error) && configs == old(configs) && nextConfigId == old(nextConfigId))
        && (row.Success? ==> configs == old(configs) + [row.value] && nextConfigId == old(nextConfigId) + 1)
      ensures results == old(results) && nextResultId == old(nextResultId)
    {
      var row := InsertedRow(configs, nextConfigId, c, now);
      if row.Failure? {
        r := Fail(row.error);
      } else {
        InsertKeepsValid(configs, nextConfigId, c, now);
        configs := configs + [row.value];
        nextConfigId := nextConfigId + 1;
        r := Pass;
      }
    }

    /** `update_configuration`. */
    method UpdateConfiguration(id: int, c: ConfigDict, now: int) returns (r: Outcome<StoreError>)
      requires Valid()
      modifies this
      ensures Valid()
      ensures var u := UpdateRows(old(configs), id, c, now);
        && (r.Pass? <==> u.Success?)
        && (u.Failure? ==> r == Fail(u.error) && configs == old(configs))
        && (u.Success? ==> configs == u.value)
      ensures nextConfigId == old(nextConfigId)
      ensures results == old(results) && nextResultId == old(nextResultId)
    {
      var u := UpdateRows(configs, id, c, now);
      if u.Failure? {
        r := Fail(u.error);
      } else {
        UpdateKeepsValid(configs, nextConfigId, id, c, now);
        configs := u.value;
        r := Pass;
      }
    }

    /** `delete_configuration`: a missing id is not an error. */
    method DeleteConfiguration(id: int)
      requires Valid()
      modifies this
      ensures Valid()
      ensures configs == DeleteRows(old(configs), id) && nextConfigId == old(nextConfigId)
      ensures results == old(results) && nextResultId == old(nextResultId)
    {
      DeleteKeepsValid(configs, nextConfigId, id);
      configs := DeleteRows(configs, id);
    }

    /** `get_enabled_configurations`: one dictionary per enabled row, in
        name order, each with `enabled` true. */
    method GetEnabledConfigurations() returns (ds: seq<ConfigDict>)
      ensures |ds| == |EnabledRows(configs)|
      ensures forall k :: 0 <= k < |ds| ==> ds[k] == RowToDict(EnabledRows(configs)[k])
      ensures forall k :: 0 <= k < |ds| ==> ds[k].enabled == FlagValue(true)
      ensures SortedBy(ds, DictByName)
    {
      ds := RowsToDicts(EnabledRows(configs));
      EnabledDictsFacts(configs, ds);
    }

    /** `initialize_default_configurations`: on an empty table, one insert
        per site in order, stopping at the first that raises (what was
        inserted before stays); on a non-empty table, nothing. */
    method InitializeDefaultConfigurations(sites: seq<SiteConfig>, now: int) returns (r: Outcome<StoreError>)
      requires Valid()
      modifies this
      ensures Valid()
      ensures old(configs) != [] ==> r.Pass? && configs == old(configs) && nextConfigId == old(nextConfigId)
      ensures old(configs) == [] ==>
        var b := InsertDefaults([], old(nextConfigId), sites, now);
        && configs == b.rows && nextConfigId == b.nextId
        && (r.Pass? <==> b.error.None?)
        && (b.error.Some? ==> r == Fail(b.error.value))
      ensures results == old(results) && nextResultId == old(nextResultId)
    {
      if configs != [] {
        return Pass;
      }
      var i := 0;
      while i < |sites|
        invariant 0 <= i <= |sites| && Valid()
        invariant InsertDefaults([], old(nextConfigId), sites[..i], now) == Batch(configs, nextConfigId, None)
        invariant results == old(results) && nextResultId == old(nextResultId)
      {
        ghost var prev := Batch(configs, nextConfigId, None);
        DefaultsExtend(old(nextConfigId), sites, i, now);
        var c := DefaultConfig(sites[i]);
        if c.Failure? {
          DefaultsStopAt(old(nextConfigId), sites, i, now);
          return Fail(c.error);
        }
        var o := InsertConfiguration(c.value, now);
        if o.Fail? {
          DefaultsStopAt(old(nextConfigId), sites, i, now);
          return Fail(o.error);
        }
        assert DefaultsStep(prev, sites[i], now) == Batch(configs, nextConfigId, None);
        i := i + 1;
      }
      assert sites[..i] == sites;
      r := Pass;
    }

    /** `insert_monitoring_result`: the row is appended with the next id. */
    method InsertMonitoringResult(check: CheckResult)
      requires Valid()
      modifies this
      ensures Valid()
      ensures results == old(results) + [ResultRow(old(nextResultId), check)]
      ensures nextResultId == old(nextResultId) + 1
      ensures configs == old(configs) && nextConfigId == old(nextConfigId)
    {
      results := results + [ResultRow(nextResultId, check)];
      nextResultId := nextResultId + 1;
    }

    /** `cleanup_old_data`: after the guard, only the rows not older than
        the cutoff stay. */
    method CleanupOldData(days: PyArg, now: int) returns (r: Outcome<StoreError>)
      requires Valid()
      modifies this
      ensures Valid()
      ensures r.Pass? <==> CheckDaysToKeep(days).Success?
      ensures r.Fail? ==> r.error == ArgumentError && results == old(results)
      ensures r.Pass? ==> results == Retained(old(results), now, CheckDaysToKeep(days).value)
      ensures nextResultId == old(nextResultId)
      ensures configs == old(configs) && nextConfigId == old(nextConfigId)
    {
      var d := CheckDaysToKeep(days);
      if d.Failure? {
        return Fail(d.error);
      }
      RetainedKeepsValid(results, nextResultId, now, d.value);
      results := Retained(results, now, d.value);
      r := Pass;
    }
  }

  /** `for row in result: configs.append({...})`: one dictionary per row,
      in order. */
  method RowsToDicts(rows: seq<ConfigRow>) returns (ds: seq<ConfigDict>)
    ensures |ds| == |rows|
    ensures forall k :: 0 <= k < |ds| ==> ds[k] == RowToDict(rows[k])
  {
    ds := [];
    var i := 0;
    while i < |rows|
      invariant 0 <= i <= |rows| && |ds| == i
      invariant forall k :: 0 <= k < i ==> ds[k] == RowToDict(rows[k])
    {
      ds := ds + [RowToDict(rows[i])];
      i := i + 1;
    }
  }

  /** After `i` clean inserts, the batch over the first `i + 1` sites is
      one more turn of the loop. */
  lemma DefaultsExtend(nextId: nat, sites: seq<SiteConfig>, i: nat, now: int)
    requires i < |sites|
    requires InsertDefaults([], nextId, sites[..i], now).error.None?
    ensures InsertDefaults([], nextId, sites[..i + 1], now)
      == DefaultsStep(InsertDefaults([], nextId, sites[..i], now), sites[i], now)
  {
    assert sites[..i + 1][..i] == sites[..i];
  }

  /** A batch that has run `i` inserts cleanly and fails on site `i` ends
      there: later sites change nothing. */
  lemma DefaultsStopAt(nextId: nat, sites: seq<SiteConfig>, i: nat, now: int)
    requires i < |sites|
    requires InsertDefaults([], nextId, sites[..i], now).error.None?
    requires DefaultsStep(InsertDefaults([], nextId, sites[..i], now), sites[i], now).error.Some?
    ensures InsertDefaults([], nextId, sites, now)
      == DefaultsStep(InsertDefaults([], nextId, sites[..i], now), sites[i], now)
  {
    DefaultsExtend(nextId, sites, i, now);
    DefaultsStayStopped(nextId, sites, i + 1, now);
  }

  /** Once a batch has failed, later sites change nothing. */
  lemma {:induction false} DefaultsStayStopped(nextId: nat, sites: seq<SiteConfig>, i: nat, now: int)
    requires i <= |sites|
    requires InsertDefaults([], nextId, sites[..i], now).error.Some?
    ensures InsertDefaults([], nextId, sites, now) == InsertDefaults([], nextId, sites[..i], now)
    decreases |sites|
  {
    if i == |sites| {
      assert sites[..i] == sites;
    } else {
      var front := sites[..|sites| - 1];
      assert front[..i] == sites[..i];
      DefaultsStayStopped(nextId, front, i, now);
    }
  }

  /** On a fresh database the seven shipped sites are all inserted, with
      HTTP off for the ping-only site and ping off for the two sites without
      a host. */
  lemma ShippedSitesAllInserted(now: int)
    ensures var b := InsertDefaults([], 1, MonitorSites, now);
      && b.error.None? && |b.rows| == 7 && b.nextId == 8
      && b.rows[6].enableHttp == Some(false) && b.rows[6].enablePing == Some(true)
      && b.rows[4].enablePing == Some(false) && b.rows[5].enablePing == Some(false)
      && b.rows[0].enableHttp == Some(true) && b.rows[0].enablePing == Some(true)
  {
    ShippedSitesComplete(now);
    var b := InsertDefaults([], 1, MonitorSites, now);
    SampleSitesProbed();
    assert FromSite(b.rows[0], MonitorSites[0], 1) && FromSite(b.rows[4], MonitorSites[4], 5);
    assert FromSite(b.rows[5], MonitorSites[5], 6) && FromSite(b.rows[6], MonitorSites[6], 7);
  }

  /** The seven shipped sites go in without an error. */
  lemma ShippedSitesComplete(now: int)
    ensures var b := InsertDefaults([], 1, MonitorSites, now);
      b.error.None? && |b.rows| == 7 && b.nextId == 8
  {
    SampleSitesProbed();
    ShippedNamesUsable();
    DefaultsAllInserted([], 1, MonitorSites, now);
  }

  /** The shipped names are usable, already stripped, and distinct. */
  lemma ShippedNamesUsable()
    ensures forall k :: 0 <= k < |MonitorSites| ==> HasText(MonitorSites[k].name)
    ensures forall i, j :: 0 <= i < j < |MonitorSites| ==>
      MonitorSites[i].name.Str? && MonitorSites[j].name.Str? &&
      Strip(MonitorSites[i].name.s) != Strip(MonitorSites[j].name.s)
  {
    var names := ShippedNamesStripped();
    ShippedNamesDistinct(names);
  }

  /** Each shipped name is usable and stripping leaves it as it is. */
  lemma ShippedNamesStripped() returns (names: seq<string>)
    ensures |names| == |MonitorSites|
    ensures forall k :: 0 <= k < |MonitorSites| ==>
      MonitorSites[k].name == Str(names[k]) && HasText(MonitorSites[k].name) && Strip(names[k]) == names[k]
  {
    names := ["Google", "GitHub", "Cloudflare", "Amazon", "Microsoft", "Netflix", "Google DNS Secondary"];
    forall k | 0 <= k < |names| ensures HasText(Str(names[k])) && Strip(names[k]) == names[k] {
      HasTextByEdges(names[k]);
    }
  }

  /** The shipped names differ pairwise: by length, or else at their first
      or second character. */
  lemma ShippedNamesDistinct(names: seq<string>)
    requires names == ["Google", "GitHub", "Cloudflare", "Amazon", "Microsoft", "Netflix", "Google DNS Secondary"]
    ensures forall i, j :: 0 <= i < j < |names| ==> names[i] != names[j]
  {
    assert |names[0]| == 6 && |names[1]| == 6 && |names[2]| == 10 && |names[3]| == 6;
    assert |names[4]| == 9 && |names[5]| == 7 && |names[6]| == 20;
    assert names[0][1] == 'o' && names[1][1] == 'i' && names[3][0] == 'A' && names[0][0] == 'G' && names[1][0] == 'G';
  }

  /** The storage cases of tests.py: a configuration with an empty name is
      refused, and of an enabled and a disabled site only the enabled one is
      read back. */
  lemma StorageTestCases(now: int)
    ensures InsertedRow([], 1, ConfigDict(Str(""), Str("https://example.com"), Absent, FlagAbsent, FlagValue(true), FlagAbsent), now)
      == Failure(Invalid(NameRequired))
    ensures var c1 := ConfigDict(Str("Enabled Site"), Str("https://enabled.com"), Absent, FlagValue(true), FlagValue(true), FlagValue(false));
      var c2 := ConfigDict(Str("Disabled Site"), Str("https://disabled.com"), Absent, FlagValue(false), FlagValue(true), FlagValue(false));
      var r1 := InsertedRow([], 1, c1, now);
      && r1.Success?
      && var r2 := InsertedRow([r1.value], 2, c2, now);
      && r2.Success?
      && EnabledRows([r1.value, r2.value]) == [r1.value]
      && RowToDict(r1.value).name == Str("Enabled Site")
  {
    assert !HasText(Str(""));
    var c1 := ConfigDict(Str("Enabled Site"), Str("https://enabled.com"), Absent, FlagValue(true), FlagValue(true), FlagValue(false));
    var c2 := ConfigDict(Str("Disabled Site"), Str("https://disabled.com"), Absent, FlagValue(false), FlagValue(true), FlagValue(false));
    TestSitesInserted(c1, c2, now);
    var r1 := InsertedRow([], 1, c1, now).value;
    var r2 := InsertedRow([r1], 2, c2, now).value;
    OnlyEnabledOfTwo(r1, r2);
  }

  lemma TestSitesInserted(c1: ConfigDict, c2: ConfigDict, now: int)
    requires c1 == ConfigDict(Str("Enabled Site"), Str("https://enabled.com"), Absent, FlagValue(true), FlagValue(true), FlagValue(false))
    requires c2 == ConfigDict(Str("Disabled Site"), Str("https://disabled.com"), Absent, FlagValue(false), FlagValue(true), FlagValue(false))
    ensures InsertedRow([], 1, c1, now).Success?
    ensures var r1 := InsertedRow([], 1, c1, now).value;
      && r1.name == "Enabled Site" && IsEnabled(r1)
      && InsertedRow([r1], 2, c2, now).Success? && !IsEnabled(InsertedRow([r1], 2, c2, now).value)
  {
    HasTextByEdges("Enabled Site");
    HasTextByEdges("https://enabled.com");
    HasTextByEdges("Disabled Site");
    HasTextByEdges("https://disabled.com");
    var r1 := InsertedRow([], 1, c1, now).value;
    assert "Enabled Site"[0] != "Disabled Site"[0];
    assert !NameTaken([r1], "Disabled Site");
  }

  /** Of an enabled and a disabled row, the query returns the enabled one. */
  lemma OnlyEnabledOfTwo(r1: ConfigRow, r2: ConfigRow)
    requires IsEnabled(r1) && !IsEnabled(r2)
    ensures EnabledRows([r1, r2]) == [r1]
  {
    var e := EnabledRows([r1, r2]);
    assert multiset([r1, r2])[r1] == 1;
    assert forall x :: x != r1 ==> multiset(e)[x] == 0;
    assert multiset(e) == multiset{r1};
    assert |e| == |multiset(e)| == 1;
    assert e[0] in multiset(e);
  }
}
