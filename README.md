# home-net-monitor: a Dafny model of the monitoring core

home-net-monitor checks a list of sites once a minute. It pings each site's
host and fetches its URL. A site is up when any probe it runs passes. Each
check is stored as a row of a results table, and a dashboard shows the latest
row per site under a one-line status header.

This project models that core in Dafny and proves what it promises. It covers:

- the ping report parser and the shaping of the ping and HTTP probe results
  (`PingParse`, `Monitor`);
- the site evaluator and the cycle over all sites (`Monitor`);
- the configuration validator (`Validators`);
- the storage layer: the configuration and results tables, their guards, and
  their queries (`Tables`, plus the class `Storage.DatabaseManager`);
- one monitoring cycle that reads the enabled configurations and stores the
  results (`Service`);
- the dashboard's status header (`StatusHeader`).

The outside world enters as inputs:

- the operating system, as a function from an argument vector and a time
  limit to how the process ended (exit status and standard output, a
  timeout, or a failure to start);
- the network, as a function from a URL and a time limit to how the request
  ended (final status code and elapsed milliseconds, or the kind of error);
- the clock, as whole seconds;
- whether evaluating a site raised some other exception.

Python values are modelled explicitly:

- A dictionary entry is `Absent` (no key), `Null` (`None`) or `Str`. A boolean
  entry is `FlagAbsent`, `FlagNull` or `FlagValue`.
- `str.strip()` uses Python's whitespace set.
- Regular-expression searches are first-match scans. Lemmas show that each
  scan accepts exactly the matches of its pattern (`LossMatchAtExact`,
  `GroupsFromExact`).
- The tables are sequences of rows in insertion order. `None` in a row is SQL
  `NULL`.
- A method changes table state. A query is a function of the table it reads.

Modules, in dependency order: `Wrappers`, `PyText`, `Ordering`, `PingParse`,
`Monitor`, `Validators`, `Tables`, `Storage`, `StatusHeader`, `Service`.

## Where the code and its own comments and interfaces differ

The model follows the code in each case:

- The configuration page offers "Enable HTTP Test" and "Enable Ping Test"
  check boxes (config_management.py:96-97, 157-158), and `validate_config`
  checks the two flags (validators.py:13-26). `monitor_site` never reads
  them. It probes a target exactly when the target is a non-blank string,
  as its comments say ("only if URL is specified", monitor.py:159-187).
  `Monitor.MonitorSite` states this.
- config.py:22 says a site is healthy if any enabled test passes. With the
  flags ignored, "enabled" means "has a usable target".
- `monitor_all_sites` builds a failed result for a site whose check raised
  (monitor.py:259-277). That handler reads `site_config['url']` and can
  itself raise, although config.py:12 lists `url` as optional and ships a
  site without one (see Findings). Its ping fields follow the truthiness of
  `ping_host`, and HTTP is always recorded as failed.
- A ping report with no loss line reads as 0 percent loss and counts as
  reachable (monitor.py:76, 94), even when it is an error message
  (`PingParse.NoReportCountsAsReachable`).
- The `hours` guard accepts 0 (database.py:234), although its message
  (database.py:235) asks for a positive number. `True` passes both guards as 1, because `bool` is a
  subclass of `int` (`Tables.GuardEdges`).
- The validator reads a missing enable flag as off (validators.py:13-14).
  `insert_configuration` stores it as on (database.py:103-104). So a ping-only
  configuration that omits `enable_http` is stored with HTTP on and no URL, and
  fails validation when it is read back (`Tables.OmittedHttpFlagDiverges`).
- `update_configuration` runs no validation and does not strip the name
  (`Tables.UpdateSkipsValidation`).

## Model

| member | source | states |
|---|---|---|
| PyText.GetFlag | validators.py:13-14 | `d.get(key, default)` on a flag: the default for a missing key, nothing for `None`, otherwise the value |
| PyText.Strip | monitor.py:161 | `str.strip()` keeps a contiguous piece of the text and cuts only whitespace from either end. The result neither starts nor ends with whitespace, and it is empty exactly when the text is blank |
| PyText.HasTextIsNonBlankString | monitor.py:161 | `x and x.strip()` holds exactly for a present, non-blank string, and such a value is truthy |
| PyText.HasTextByEdges | monitor.py:161 | a text whose first and last characters are not whitespace is usable, and stripping leaves it unchanged |
| PyText.StripIdempotent | database.py:112 | stripping a stored, already stripped name again changes nothing |
| Ordering.LexLeTotal | database.py:162 | `ORDER BY name` compares any two names |
| Ordering.LexLeAntisymmetric | database.py:162 | two names that sort both ways round are equal |
| Ordering.LexLeTransitive | database.py:162 | name order is transitive |
| Ordering.SortBy | database.py:162 | `ORDER BY`: the result is ordered by the key and is a permutation of its input |
| Ordering.Filter | database.py:161 | `WHERE`: keeps exactly the rows that satisfy the condition, each as often as before |
| Ordering.FilterKeepsOrder | database.py:146-148 | deleting rows keeps the relative order of those that remain |
| PingParse.LossMatchAtExact | monitor.py:75 | the scan matches exactly where `(\d+)% packet loss` matches, and its capture is the whole digit run |
| PingParse.FindLoss | monitor.py:75 | `re.search` finds a match at the returned position and none earlier |
| PingParse.FirstLossAt | monitor.py:75-76 | when the first loss match is at a known place, the loss is the value of that digit run |
| PingParse.FirstLossStartsRun | monitor.py:75-76 | the first loss match starts where its run of digits starts |
| PingParse.GroupsFromExact | monitor.py:79 | wherever the four `([\d.]+)` captures can be placed, the matcher places them there |
| PingParse.FindTiming | monitor.py:79-86 | the timing search finds a match at the returned position and none earlier |
| PingParse.SelectedTiming | monitor.py:79-92 | the full `min/avg/max/stddev = ` line is preferred, then the bare `= ` line. Every capture used is a non-empty `[\d.]+` text |
| PingParse.FullTimingContainsShort | monitor.py:79-86 | a full timing line contains a bare one 19 characters further on, with the same captures |
| PingParse.ParsePingOutput | monitor.py:71-112 | success is exactly "loss below 100", with or without timing. min, avg and max are captures 1 to 3 of the selected line. A capture that does not convert gives the failure record |
| PingParse.NoPercentNoLoss | monitor.py:75-76 | text without `%` has no loss line, and the loss reads as 0 |
| PingParse.NoEqualsNoTiming | monitor.py:79-92 | text without `=` has no timing line |
| PingParse.NoReportCountsAsReachable | monitor.py:94 | text with neither line parses as reachable with 0 percent loss and no timing |
| PingParse.StddevSampleParses | monitor.py:71-102 | a summary with `min/avg/max/stddev = 10.0/12.5/15.0/1.2 ms` and 0 percent loss parses, through the labelled pattern, as reachable with avg 12.5, min 10.0, max 15.0, loss 0 |
| PingParse.LinuxSampleParses | monitor.py:78-92 | a Linux (iputils) summary with `rtt min/avg/max/mdev = 10.0/12.5/15.0/1.2 ms` misses the labelled pattern and is read by the bare `= ` fallback, with the same result as the `stddev` summary |
| PingParse.LostSampleParses | monitor.py:94 | `100% packet loss` with no timing line parses as unreachable, with loss 100 and no timing |
| PingParse.DecimalLossSampleParses | monitor.py:75 | `100.0% packet loss` is read from the digits after the point, so as 0 percent and reachable |
| PingParse.MalformedSampleParses | monitor.py:104-112 | a minimum of `1.2.3` makes `float()` raise, and the parser returns the failure record |
| PingParse.OddDeviationSampleParses | monitor.py:79-83 | the stddev capture is never converted, so a malformed one is harmless |
| Monitor.NatToDecimal | monitor.py:31 | `str(n)` is a non-empty run of digits whose decimal value is `n` |
| Monitor.PingCommand | monitor.py:31 | the argument vector is `ping -c <count> -W 5 <host>`, with the host last |
| Monitor.PingHost | monitor.py:27-69 | the command run is `PingCommand(host, count)`, with `count` defaulting to 3 and a time limit of 10 seconds. Its report is parsed only after exit status 0. Any other status, a timeout or a launch failure gives the failure record. The result is always that of an attempted ping |
| Monitor.PingPassed | monitor.py:27-94 | a ping of a host passes exactly when the tool, run with the default count, exited with 0, reported under 100 percent loss, and every reported timing converted |
| Monitor.CheckHttp | monitor.py:114-153 | the URL is fetched with a time limit of 10 seconds. Success exactly for a final status of 200. Status and time are recorded exactly when a response arrived |
| Monitor.MonitorSite | monitor.py:155-249 | fails only on a missing `name` key. A probe runs exactly when its target is a non-blank string, on that target as configured, and its fields come from that probe. The verdict is "some probe that ran passed". Fields of a probe that did not run are empty |
| Monitor.VerdictCases | monitor.py:209-218 | the verdict with both probes, with HTTP only, with ping only, and with neither |
| Monitor.BlankTargetNotProbed | monitor.py:160-171 | a blank URL is not fetched, and the record keeps the URL as given |
| Monitor.FallbackAsWritten | monitor.py:259-276 | the handler as written fails when `name` or `url` is missing, and otherwise returns the fallback record |
| Monitor.Fallback | monitor.py:262-276 | the handler with `.get('url')` fails only when `name` is missing |
| Monitor.FallbackRecord | monitor.py:262-276 | the fallback record is down with HTTP failed. Ping is failed with 100 percent loss exactly when `ping_host` is truthy |
| Monitor.SiteStep | monitor.py:256-277 | one turn of the cycle yields a well-formed record named after the site, unless `name` is missing |
| Monitor.SiteStepAsWritten | monitor.py:256-277 | the turn as written also fails when a faulting site has no `url` key, and otherwise agrees with `SiteStep` |
| Monitor.MonitorAllSites | monitor.py:251-279 | returns one result per site, in order, each the site's own result or its fallback. The cycle fails, with `KeyError('name')`, exactly when some site has no name |
| Monitor.PingOnlySiteFaultAbortsCycle | monitor.py:265 | a fault at the shipped ping-only site makes the handler as written raise `KeyError('url')`. The corrected handler records the site as down, with loss 100 |
| Monitor.SampleSitesProbed | config.py:24-59 | every shipped site has a usable target. Which sites have a URL, a host, or both |
| Validators.ValidateConfig | validators.py:5-26 | passes exactly the acceptable configurations. Otherwise it reports the first failing guard, in order: name, some test on, URL for HTTP, host for ping |
| Validators.TargetIgnoredWhenOff | validators.py:22-26 | the target of a test that is off does not affect the verdict |
| Validators.BothOffRejected | validators.py:13-20 | a configuration giving neither enable flag counts as both off and is rejected |
| Validators.AcceptedConfigIsProbed | validators.py:16-26 | a configuration that passes the validator never reaches the evaluator's no-tests branch |
| Validators.AcceptedTestCases | tests.py:32-64 | HTTP with ping, HTTP only, and ping only are accepted |
| Validators.RejectedTestCases | tests.py:66-110 | a missing name, a blank name, both tests off, HTTP without a URL, and ping without a host are each rejected with their own error |
| Tables.IntValue | database.py:234 | `isinstance(a, int)` accepts integers and booleans, as 1 and 0 |
| Tables.CheckHours | database.py:234-235 | accepts exactly an integer from 0 to 8760 |
| Tables.CheckDaysToKeep | database.py:298-299 | accepts exactly an integer from 1 to 3650 |
| Tables.GuardEdges | database.py:234 | 0 and 8760 hours pass, -1 and 8761 do not. `True` passes as 1. 1 and 3650 days pass, 0 and 3651 do not |
| Tables.InsertedRow | database.py:95-124 | a validation error is re-raised. The row is added exactly when the configuration is acceptable and its stripped name is new. The row holds the stripped name, the targets, each flag defaulting to true, and the next id |
| Tables.InsertKeepsValid | database.py:69-70 | after an insert, ids still increase along the table and names stay unique |
| Tables.UpdatedRow | database.py:126-142 | an updated row keeps its id and creation time, takes every column from the dictionary, and takes the clock as its update time |
| Tables.UpdateRows | database.py:126-142 | a missing `name` key raises. A `NULL` name or another row's name raises only when a row has the id. Only rows with the id change |
| Tables.UpdateKeepsValid | database.py:126-142 | an update keeps the ids and the unique names |
| Tables.UpdateSkipsValidation | database.py:126-142 | a blank name with both tests off is written as given |
| Tables.DeleteRows | database.py:144-149 | exactly the rows with the id are removed, and the rows that remain keep their order |
| Tables.DeleteKeepsValid | database.py:144-149 | a delete keeps the ids and the unique names |
| Tables.ByNameIsTotalPreorder | database.py:162 | name order is a valid sort key |
| Tables.EnabledRows | database.py:156-162 | exactly the rows whose `enabled` is true, in name order |
| Tables.EnabledDictsFacts | database.py:164-176 | every dictionary read back says `enabled`, and the dictionaries come in name order |
| Tables.NonEmptyEntry | database.py:169-170 | `v if v else None`: an empty or `NULL` text reads as `None` |
| Tables.FlagOf | database.py:171-173 | a stored flag reads back as the same value, whatever the default |
| Tables.RowToDict | database.py:166-173 | the dictionary holds the stored name, the non-empty targets, and the stored flags |
| Tables.StoredConfigRevalidates | database.py:95-124 | a configuration that gave both enable flags, once stored and read back, passes validation again |
| Tables.OmittedHttpFlagDiverges | database.py:103 | accepted ping-only input without `enable_http` is stored with HTTP on and no URL, and fails validation when read back |
| Tables.DefaultConfig | database.py:190-201 | the default dictionary is enabled, and each test is on exactly when its target is a non-blank string. A site without `name` raises |
| Tables.NullIfAbsent | database.py:196-197 | `site.get(key)` written back: the same value, never a missing key |
| Tables.DefaultConfigValidity | database.py:190-203 | a default configuration fails validation only through its name or when neither target is usable |
| Tables.DefaultsStep | database.py:190-203 | one turn of the loop either adds exactly one row, with the next id, built from the site, or stops with an error and changes nothing |
| Tables.InsertDefaults | database.py:188-203 | the batch keeps the earlier rows and adds at most one row per site, in order, stopping at the first error. Each added row is enabled and has its site's stripped name, targets and derived flags |
| Tables.DefaultsAllInserted | database.py:188-203 | sites with usable names and targets, whose names are distinct after stripping, are all inserted |
| Tables.InsertDefaultsKeepsValid | database.py:188-203 | the batch keeps the ids and the unique names |
| Tables.Window | database.py:239 | `timestamp > NOW() - h hours` keeps exactly the rows inside the window |
| Tables.RecentResults | database.py:231-243 | after the guard: exactly the rows of the window, newest first |
| Tables.HistoricalData | database.py:281-293 | after the guard: exactly the named site's rows in the window, oldest first |
| Tables.CountSite | database.py:255 | `COUNT(*)` of a group: the number of rows whose site is the group's name |
| Tables.CountUp | database.py:256 | the sum of successes of a group: the number of its rows whose verdict is success, never more than its checks |
| Tables.CountSitePositive | database.py:255 | a site that has a row has a positive count |
| Tables.Tally | database.py:251-263 | `GROUP BY site_name` gives one group per site present, with `NULL` names as one group. Each group has its count of checks and of successes, with at least one check |
| Tables.SiteSummary | database.py:245-266 | after the guard: a group exactly for each site with a row in the window, each carrying that site's number of checks and of successful checks in the window; every group has at least one check and no more successes than checks |
| Tables.Retained | database.py:301-305 | the cleanup keeps exactly the rows not older than the cutoff |
| Tables.RetainedKeepsValid | database.py:295-305 | the cleanup keeps the results table's ids increasing |
| Tables.LatestPerSite | database.py:268-279 | `ROW_NUMBER() ... = 1` gives one row per site, each a row of the table, and none older than another row of its site |
| Tables.LatestEmpty | database.py:268-279 | the latest rows are empty exactly when the table is |
| Tables.LatestStep | database.py:271-277 | adding one row keeps the latest-per-site property |
| Storage.DatabaseManager.constructor | database.py:33-80 | a fresh database has empty tables and both sequences at 1 |
| Storage.DatabaseManager.InsertConfiguration | database.py:95-124 | the table gains exactly the row `InsertedRow` describes, or nothing changes and the error is returned |
| Storage.DatabaseManager.UpdateConfiguration | database.py:126-142 | the table becomes `UpdateRows`' table, or nothing changes and the error is returned |
| Storage.DatabaseManager.DeleteConfiguration | database.py:144-149 | the table loses exactly the rows with the id |
| Storage.RowsToDicts | database.py:164-176 | the loop builds one dictionary per row, in order |
| Storage.DatabaseManager.GetEnabledConfigurations | database.py:156-178 | returns one dictionary per enabled row, in name order, each with `enabled` true |
| Storage.DatabaseManager.InitializeDefaultConfigurations | database.py:180-203 | on an empty table the sites are inserted one by one until the first error, and what was inserted stays. A non-empty table is left alone |
| Storage.DatabaseManager.InsertMonitoringResult | database.py:205-229 | the row is appended with the next id |
| Storage.DatabaseManager.CleanupOldData | database.py:295-305 | the guard, then exactly the retained rows stay |
| Storage.DefaultsStopAt | database.py:188-203 | a batch that fails at one site ends as that failed turn left it: with its error and the rows inserted before it |
| Storage.DefaultsStayStopped | database.py:188-203 | once the batch has failed, later sites change nothing |
| Storage.ShippedSitesAllInserted | config.py:24-59 | on a fresh database all seven shipped sites are inserted. HTTP is off for the ping-only site, and ping is off for the two sites without a host |
| Storage.ShippedNamesUsable | config.py:24-59 | the shipped names are usable and pairwise distinct |
| Storage.StorageTestCases | tests.py:153-185 | an empty name is refused. Of an enabled and a disabled site, only the enabled one is read back |
| Storage.OnlyEnabledOfTwo | database.py:156-162 | of an enabled and a disabled row, the query returns the enabled one |
| StatusHeader.StatusHeader | status_header_demo.py:4-13 | no data exactly when there are no sites. All operational, partial outage or system outage exactly when all, some or none are online |
| StatusHeader.HeaderText | status_header_demo.py:7-13 | the header starts with the state's icon |
| StatusHeader.HeaderTextDistinct | status_header_demo.py:7-13 | different states have different header lines |
| StatusHeader.CountOnline | dashboard.py:99 | `overall_success.sum()` is at most the number of rows. It equals that number exactly when all succeeded, and is 0 exactly when none did |
| StatusHeader.DashboardAgrees | dashboard.py:97-113 | the dashboard's inline decision agrees with `get_status_header` on every status frame |
| StatusHeader.DashboardHeaderMeaning | dashboard.py:97-113 | on a status frame: no data exactly when it is empty. All operational exactly when every row succeeded, system outage exactly when every row failed, and partial outage exactly when some did and some did not |
| StatusHeader.CurrentHeaderMeaning | dashboard.py:94-115 | over the results table: no data exactly when it is empty, and otherwise the meaning above applied to each site's latest check |
| StatusHeader.DemoScenarios | status_header_demo.py:21-31 | (7,7) all operational; (5,7) and (1,7) partial outage; (0,7) system outage; (0,0) no data, each with its text |
| Service.CycleChecks | monitoring_service.py:43-46 | the intended cycle gives one well-formed result per enabled configuration, in name order, named after its row |
| Service.SomeEnabledSomeChecks | monitoring_service.py:43-46 | with any configuration enabled, the intended cycle has at least one result |
| Service.BindArguments | monitoring_service.py:46 | a call binds exactly when it passes as many positional arguments as the function takes, and otherwise raises `TypeError` with both counts |
| Service.RunCycle | monitoring_service.py:39-55 | after loading the enabled configurations: when the call to `monitor_all_sites` does not bind, the `TypeError` is logged and the results table is unchanged; otherwise it gains exactly the intended cycle's results. Configurations are unchanged either way |
| Service.RunMonitoringCycleAsWritten | monitoring_service.py:39-55 | as written (`monitor_all_sites` takes 1 positional argument and is given 2), every cycle logs `TypeError` and leaves the results table as it was |
| Service.ArityMismatchStoresNothing | monitoring_service.py:46 | with any site enabled, the cycle as written stores nothing, while the intended cycle would have appended at least one row |
| Service.RunMonitoringCycle | monitoring_service.py:39-55 | with the call binding, the results table gains exactly the intended cycle's results, with consecutive ids. Configurations are unchanged |
| Service.StoreResults | monitoring_service.py:49-50 | each result is appended in order, with consecutive ids |

## Left out

- The probes' own I/O (the ping subprocess, the HTTP session, the clock) is an
  input. So is the per-site unexpected exception. Which exception occurred is
  not modelled.
- Ping timings are kept as the captured decimal text. `float()` is modelled
  only as a check of whether conversion raises: at most one dot and at least
  one digit. Loss is the integer value of `\d+`. HTTP elapsed time is a `real`
  input. Floating-point rounding is not modelled.
- `\d` is taken as the ASCII digits. Python also accepts other Unicode digits.
  No ping tool prints them.
- `PingParse.ParsePingOutput`: any other exception inside the parser's `try`
  (for example, a non-string output) is not modelled. Standard output is
  always text.
- Non-string values under `name`, `url` or `ping_host`, and non-boolean
  values under the flags, are not modelled. Such a value would raise
  `AttributeError` in the code.
- DuckDB itself is not modelled: SQL text, connections, pandas frames and
  `VARCHAR` length limits. The tables are sequences, and the constraints are
  checked explicitly. The `created_at` and `updated_at` defaults are modelled
  as the caller's clock reading, passed in as `now`.
- Whether the id sequence advances on a failed insert is not modelled. The
  model advances it only on success.
- The SQL text built from a boolean `hours` (`'True hours'`) is not modelled:
  the window uses the accepted value 1.
- `get_site_summary`: the averages, the uptime percentage and the
  `ORDER BY uptime_percent` are not modelled. Only group membership and the two
  counts are.
- `Tables.LatestPerSite`: when two rows of a site share the newest timestamp,
  SQL picks one arbitrarily. The model keeps the earliest such row, and its
  contract states only that the kept row is a newest one.
- `Tables.RecentResults` and `Tables.HistoricalData` order by timestamp only.
  Ties come in any order, as in SQL.
- Time zones are not modelled: timestamps are seconds on one clock.
- The fallback record's second `datetime.now()` is the same clock reading as
  the site's.
- `get_all_configurations` is a plain `SELECT ... ORDER BY name`. It is the
  sort already proved for `EnabledRows`, without the filter.
- `DatabaseManager.__init__` runs the table creation and then
  `initialize_default_configurations`. The constructor models a fresh file.
  The default initialisation is the separate method.
- The rest of the monitoring service (its scheduling loop, signal handling and
  logging) is not part of this model. The dashboard, configuration UI, health
  check, setup and logging modules are not part of this model either. The
  dashboard appears only through its status header.

## Findings

| source | as written | input that shows it | evidently intended | confidence | as-written member | corrected member |
|---|---|---|---|---|---|---|
| monitor.py:265 | the handler for a site whose check raised reads `site_config['url']`, which raises `KeyError` for a site without a `url` key. The exception leaves `monitor_all_sites`, and the whole cycle's results are lost | the shipped ping-only site "Google DNS Secondary" (config.py:55-59) with any unexpected fault during its check | `site_config.get('url')`, as for the other optional keys: a fallback record with no URL, ping failed with 100 percent loss | not executed | Monitor.FallbackAsWritten, Monitor.SiteStepAsWritten, Monitor.PingOnlySiteFaultAbortsCycle | Monitor.Fallback, Monitor.SiteStep, Monitor.MonitorAllSites |
| monitoring_service.py:46 | `monitor_all_sites(self.site_configs)` passes an argument to a method that takes only `self` (monitor.py:251). Every cycle raises `TypeError`, which the cycle's handler logs, so no result is ever stored | any cycle with at least one enabled configuration | check the enabled configurations that were just loaded, and store one result per site | not executed | Service.RunMonitoringCycleAsWritten, Service.ArityMismatchStoresNothing | Service.CycleChecks, Service.RunMonitoringCycle |
