/** The two tables of database.py, `monitoring_config` and
    `monitoring_results`, held as sequences of rows in insertion order, and
    the pure parts of `DatabaseManager`: the argument guards, the row an
    insert or an update writes, the row-to-dictionary mapping, and the
    queries. Timestamps are whole seconds; `NOW()` is a parameter. */
module Tables {
  import opened Wrappers
  import opened PyText
  import opened Ordering
  import opened Validators
  import opened Monitor

  // ---------------------------------------------------------------------
  // Argument guards

  /** An argument as `isinstance(a, int)` sees it. */
  datatype PyArg = IntArg(n: int) | BoolArg(b: bool) | OtherArg

  /** The integer an argument passes the type guard as: `bool` is a
      subclass of `int`, so `True` and `False` pass as 1 and 0. */
  function IntValue(a: PyArg): (r: Option<int>)
    ensures r.Some? <==> !a.OtherArg?
    ensures a.IntArg? ==> r == Some(a.n)
    ensures a.BoolArg? ==> r == Some(if a.b then 1 else 0)
  {
    match a
    case IntArg(n) => Some(n)
    case BoolArg(b) => Some(if b then 1 else 0)
    case OtherArg => None
  }

  const MaxHours: nat := 8760
  const MaxDaysToKeep: nat := 3650
  const SecondsPerHour: nat := 3600
  const SecondsPerDay: nat := 86400

  /** Why a storage operation raised. */
  datatype StoreError =
    | ArgumentError
    | Invalid(reason: ValidationError)
    | DuplicateName
    | NullName
    | MissingKey(key: KeyError)

  /** The `hours` guard of the three time-window queries: an integer from 0
      to 8760, both ends included. */
  function CheckHours(a: PyArg): (r: Result<nat, StoreError>)
    ensures r.Success? <==> IntValue(a).Some? && 0 <= IntValue(a).value <= MaxHours
    ensures r.Success? ==> r.value == IntValue(a).value
    ensures r.Failure? ==> r.error == ArgumentError
  {
    var v := IntValue(a);
    if v.None? || v.value < 0 || v.value > MaxHours then Failure(ArgumentError) else Success(v.value)
  }

  /** The `days_to_keep` guard of the retention cleanup: an integer from 1
      to 3650, both ends included. */
  function CheckDaysToKeep(a: PyArg): (r: Result<nat, StoreError>)
    ensures r.Success? <==> IntValue(a).Some? && 1 <= IntValue(a).value <= MaxDaysToKeep
    ensures r.Success? ==> r.value == IntValue(a).value
    ensures r.Failure? ==> r.error == ArgumentError
  {
    var v := IntValue(a);
    if v.None? || v.value < 1 || v.value > MaxDaysToKeep then Failure(ArgumentError) else Success(v.value)
  }

  /** The edges of both ranges. A zero-hour window is accepted although the
      error message asks for a positive number, and `True` passes as one. */
  lemma GuardEdges()
    ensures CheckHours(IntArg(0)) == Success(0) && CheckHours(IntArg(8760)) == Success(8760)
    ensures CheckHours(IntArg(-1)).Failure? && CheckHours(IntArg(8761)).Failure?
    ensures CheckHours(BoolArg(true)) == Success(1) && CheckHours(OtherArg).Failure?
    ensures CheckDaysToKeep(IntArg(0)).Failure? && CheckDaysToKeep(IntArg(1)) == Success(1)
    ensures CheckDaysToKeep(IntArg(3650)) == Success(3650) && CheckDaysToKeep(IntArg(3651)).Failure?
    ensures CheckDaysToKeep(BoolArg(false)).Failure? && CheckDaysToKeep(OtherArg).Failure?
  {
  }

  // ---------------------------------------------------------------------
  // The configuration table

  /** One row of `monitoring_config`; `None` is SQL `NULL`. */
  datatype ConfigRow = ConfigRow(
    id: nat,
    name: string,
    url: Option<string>,
    pingHost: Option<string>,
    enabled: Option<bool>,
    enableHttp: Option<bool>,
    enablePing: Option<bool>,
    createdAt: int,
    updatedAt: int)

  /** Later rows have larger ids (the id sequence only grows) and no two
      rows share a name (`NOT NULL UNIQUE`). */
  predicate IdsAndNamesDistinct(a: ConfigRow, b: ConfigRow) {
    a.id < b.id && a.name != b.name
  }

  /** The table's standing invariant: ids increase along the table, stay
      below the next value of the id sequence, and names are unique. */
  predicate ConfigsValid(rows: seq<ConfigRow>, nextId: nat) {
    && SortedBy(rows, IdsAndNamesDistinct)
    && (forall k :: 0 <= k < |rows| ==> rows[k].id < nextId)
  }

  predicate NameTaken(rows: seq<ConfigRow>, name: string) {
    exists k :: 0 <= k < |rows| && rows[k].name == name
  }

  /** `insert_configuration`: the row it adds, or why it raises. The
      validator runs first and its error is re-raised; then the name, stored
      stripped, must not be taken. Every omitted flag is stored as true,
      although the validator read the omitted enable flags as false. */
  function InsertedRow(rows: seq<ConfigRow>, nextId: nat, c: ConfigDict, now: int): (r: Result<ConfigRow, StoreError>)
    ensures ValidateConfig(c).Fail? ==> r == Failure(Invalid(ValidateConfig(c).error))
    ensures r.Success? <==> Acceptable(c) && !NameTaken(rows, Strip(c.name.s))
    ensures Acceptable(c) && NameTaken(rows, Strip(c.name.s)) ==> r == Failure(DuplicateName)
    ensures r.Success? ==>
      var row := r.value;
      && row.id == nextId && row.name == Strip(c.name.s) && row.name != ""
      && row.url == Get(c.url) && row.pingHost == Get(c.pingHost)
      && row.enabled == GetFlag(c.enabled, true)
      && row.enableHttp == GetFlag(c.enableHttp, true)
      && row.enablePing == GetFlag(c.enablePing, true)
      && row.createdAt == now && row.updatedAt == now
  {
    match ValidateConfig(c)
    case Fail(e) => Failure(Invalid(e))
    case Pass =>
      var name := Strip(c.name.s);
      if NameTaken(rows, name) then Failure(DuplicateName)
      else
        Success(ConfigRow(nextId, name, Get(c.url), Get(c.pingHost),
          GetFlag(c.enabled, true), GetFlag(c.enableHttp, true), GetFlag(c.enablePing, true), now, now))
  }

  /** Appending an inserted row keeps the table valid. */
  lemma InsertKeepsValid(rows: seq<ConfigRow>, nextId: nat, c: ConfigDict, now: int)
    requires ConfigsValid(rows, nextId) && InsertedRow(rows, nextId, c, now).Success?
    ensures ConfigsValid(rows + [InsertedRow(rows, nextId, c, now).value], nextId + 1)
  {
  }

  /** The row an update writes over `row`: every column from the dictionary
      as given (no strip, flags defaulting to true), `updated_at` from the
      clock, id and `created_at` kept. */
  function UpdatedRow(row: ConfigRow, name: string, c: ConfigDict, now: int): (r: ConfigRow)
    ensures r.id == row.id && r.createdAt == row.createdAt && r.updatedAt == now && r.name == name
    ensures r.url == Get(c.url) && r.pingHost == Get(c.pingHost)
    ensures r.enabled == GetFlag(c.enabled, true)
    ensures r.enableHttp == GetFlag(c.enableHttp, true) && r.enablePing == GetFlag(c.enablePing, true)
  {
    row.(name := name, url := Get(c.url), pingHost := Get(c.pingHost), enabled := GetFlag(c.enabled, true),
      enableHttp := GetFlag(c.enableHttp, true), enablePing := GetFlag(c.enablePing, true), updatedAt := now)
  }

  predicate HasId(rows: seq<ConfigRow>, id: int) {
    exists k :: 0 <= k < |rows| && rows[k].id == id
  }

  predicate NameTakenByOther(rows: seq<ConfigRow>, id: int, name: string) {
    exists k :: 0 <= k < |rows| && rows[k].id != id && rows[k].name == name
  }

  /** `update_configuration`: the table after it, or why it raises. There
      is no validation: a missing `name` key raises before the statement, and
      the constraints bite only when a row has the id: `NULL` breaks
      `NOT NULL`, another row's name breaks `UNIQUE`. Only rows with the id
      change. */
  function UpdateRows(rows: seq<ConfigRow>, id: int, c: ConfigDict, now: int): (r: Result<seq<ConfigRow>, StoreError>)
    ensures c.name.Absent? ==> r == Failure(MissingKey(KeyError("name")))
    ensures r.Failure? <==>
      c.name.Absent? || (HasId(rows, id) && (c.name.Null? || (c.name.Str? && NameTakenByOther(rows, id, c.name.s))))
    ensures r.Failure? && !c.name.Absent? ==> r.error == (if c.name.Null? then NullName else DuplicateName)
    ensures r.Success? ==> |r.value| == |rows|
    ensures r.Success? ==> forall k :: 0 <= k < |rows| && rows[k].id != id ==> r.value[k] == rows[k]
    ensures r.Success? ==> forall k :: 0 <= k < |rows| && rows[k].id == id ==>
      c.name.Str? && r.value[k] == UpdatedRow(rows[k], c.name.s, c, now)
  {
    if c.name.Absent? then Failure(MissingKey(KeyError("name")))
    else if !HasId(rows, id) then Success(rows)
    else if c.name.Null? then Failure(NullName)
    else if NameTakenByOther(rows, id, c.name.s) then Failure(DuplicateName)
    else Success(seq(|rows|, k requires 0 <= k < |rows| =>
      if rows[k].id == id then UpdatedRow(rows[k], c.name.s, c, now) else rows[k]))
  }

  /** An update keeps the table valid. */
  lemma UpdateKeepsValid(rows: seq<ConfigRow>, nextId: nat, id: int, c: ConfigDict, now: int)
    requires ConfigsValid(rows, nextId) && UpdateRows(rows, id, c, now).Success?
    ensures ConfigsValid(UpdateRows(rows, id, c, now).value, nextId)
  {
    var r := UpdateRows(rows, id, c, now).value;
    forall i, j | 0 <= i < j < |r| ensures IdsAndNamesDistinct(r[i], r[j]) {
      assert IdsAndNamesDistinct(rows[i], rows[j]);
    }
  }

  /** The update skips the validator: a blank name and both tests off are
      written as given. */
  lemma UpdateSkipsValidation(row: ConfigRow, now: int)
    ensures var c := ConfigDict(Str("   "), Absent, Absent, FlagAbsent, FlagValue(false), FlagValue(false));
      && ValidateConfig(c) == Fail(NameRequired)
      && UpdateRows([row], row.id, c, now) == Success([UpdatedRow(row, "   ", c, now)])
  {
    var c := ConfigDict(Str("   "), Absent, Absent, FlagAbsent, FlagValue(false), FlagValue(false));
    assert IsBlank("   ");
    HasTextIsNonBlankString(c.name);
    assert [row][0].id == row.id;
    assert !NameTakenByOther([row], row.id, "   ");
    var r := UpdateRows([row], row.id, c, now).value;
    assert |r| == 1 && r[0] == UpdatedRow(row, "   ", c, now);
    assert r == [UpdatedRow(row, "   ", c, now)];
  }

  /** `delete_configuration`: exactly the rows with the id go, the others
      stay in their order. */
  function DeleteRows(rows: seq<ConfigRow>, id: int): (r: seq<ConfigRow>)
    ensures forall x :: x in r <==> x in rows && x.id != id
    ensures |r| <= |rows|
    ensures forall le: (ConfigRow, ConfigRow) -> bool :: SortedBy(rows, le) ==> SortedBy(r, le)
  {
    var keep := (x: ConfigRow) => x.id != id;
    var r := Filter(rows, keep);
    assert forall x :: x in r <==> multiset(r)[x] > 0;
    forall le: (ConfigRow, ConfigRow) -> bool | SortedBy(rows, le) ensures SortedBy(r, le) {
      FilterKeepsOrder(rows, keep, le);
    }
    r
  }

  lemma DeleteKeepsValid(rows: seq<ConfigRow>, nextId: nat, id: int)
    requires ConfigsValid(rows, nextId)
    ensures ConfigsValid(DeleteRows(rows, id), nextId)
  {
    var r := DeleteRows(rows, id);
    forall k | 0 <= k < |r| ensures r[k].id < nextId {
      assert r[k] in rows;
    }
  }

  // ---------------------------------------------------------------------
  // Reading the enabled configurations back

  /** `WHERE enabled = true`: a `NULL` flag does not qualify. */
  predicate IsEnabled(row: ConfigRow) {
    row.enabled == Some(true)
  }

  /** `ORDER BY name`. */
  predicate ByName(a: ConfigRow, b: ConfigRow) {
    LexLe(a.name, b.name)
  }

  lemma ByNameIsTotalPreorder()
    ensures TotalPreorder(ByName)
  {
    forall a: ConfigRow, b: ConfigRow ensures ByName(a, b) || ByName(b, a) {
      LexLeTotal(a.name, b.name);
    }
    forall a: ConfigRow, b: ConfigRow, c: ConfigRow | ByName(a, b) && ByName(b, c) ensures ByName(a, c) {
      LexLeTransitive(a.name, b.name, c.name);
    }
  }

  /** The rows `SELECT * FROM monitoring_config WHERE enabled = true ORDER BY
      name` returns: exactly the enabled rows, ordered by name. */
  function EnabledRows(rows: seq<ConfigRow>): (r: seq<ConfigRow>)
    ensures SortedBy(r, ByName)
    ensures forall x :: multiset(r)[x] == if IsEnabled(x) then multiset(rows)[x] else 0
  {
    ByNameIsTotalPreorder();
    SortBy(Filter(rows, IsEnabled), ByName)
  }

  /** Name order on dictionaries whose names are strings. */
  predicate DictByName(a: ConfigDict, b: ConfigDict) {
    a.name.Str? && b.name.Str? && LexLe(a.name.s, b.name.s)
  }

  /** The dictionaries built from the enabled rows all say `enabled` and
      come in name order. */
  lemma EnabledDictsFacts(rows: seq<ConfigRow>, ds: seq<ConfigDict>)
    requires |ds| == |EnabledRows(rows)|
    requires forall k :: 0 <= k < |ds| ==> ds[k] == RowToDict(EnabledRows(rows)[k])
    ensures forall k :: 0 <= k < |ds| ==> ds[k].enabled == FlagValue(true)
    ensures SortedBy(ds, DictByName)
  {
    var r := EnabledRows(rows);
    forall k | 0 <= k < |r| ensures IsEnabled(r[k]) {
      assert r[k] in multiset(r);
    }
    EnabledDictsInNameOrder(r, ds);
  }

  lemma EnabledDictsInNameOrder(r: seq<ConfigRow>, ds: seq<ConfigDict>)
    requires SortedBy(r, ByName) && |ds| == |r|
    requires forall k :: 0 <= k < |ds| ==> ds[k] == RowToDict(r[k])
    ensures SortedBy(ds, DictByName)
  {
    forall i, j | 0 <= i < j < |ds| ensures DictByName(ds[i], ds[j]) {
      assert ds[i].name == Str(r[i].name) && ds[j].name == Str(r[j].name);
      assert ByName(r[i], r[j]);
    }
  }

  /** `v if v else None` for a text column. */
  function NonEmptyEntry(v: Option<string>): (e: Entry)
    ensures e.Str? <==> v.Some? && v.value != ""
    ensures e.Str? ==> e.s == v.value
    ensures !e.Absent?
  {
    if v.Some? && v.value != "" then Str(v.value) else Null
  }

  /** A boolean column read into a dictionary value. */
  function FlagOf(v: Option<bool>): (f: Flag)
    ensures !f.FlagAbsent? && GetFlag(f, false) == v && GetFlag(f, true) == v
  {
    if v.Some? then FlagValue(v.value) else FlagNull
  }

  /** The dictionary `get_enabled_configurations` builds from one row:
      the name as stored, an empty or `NULL` target as `None`, the flags as
      stored. */
  function RowToDict(row: ConfigRow): (d: ConfigDict)
    ensures d.name == Str(row.name)
    ensures d.url == NonEmptyEntry(row.url) && d.pingHost == NonEmptyEntry(row.pingHost)
    ensures GetFlag(d.enabled, false) == row.enabled
    ensures GetFlag(d.enableHttp, false) == row.enableHttp && GetFlag(d.enablePing, false) == row.enablePing
  {
    ConfigDict(Str(row.name), NonEmptyEntry(row.url), NonEmptyEntry(row.pingHost),
      FlagOf(row.enabled), FlagOf(row.enableHttp), FlagOf(row.enablePing))
  }

  /** Round trip: a configuration that gave both enable flags, once stored
      and read back, passes the validator again. */
  lemma StoredConfigRevalidates(rows: seq<ConfigRow>, nextId: nat, c: ConfigDict, now: int)
    requires InsertedRow(rows, nextId, c, now).Success?
    requires !c.enableHttp.FlagAbsent? && !c.enablePing.FlagAbsent?
    ensures ValidateConfig(RowToDict(InsertedRow(rows, nextId, c, now).value)).Pass?
  {
    var row := InsertedRow(rows, nextId, c, now).value;
    var d := RowToDict(row);
    StripIdempotent(c.name.s);
    if HttpOn(c) {
      HasTextIsNonBlankString(c.url);
    }
    if PingOn(c) {
      HasTextIsNonBlankString(c.pingHost);
    }
    assert HttpOn(d) == HttpOn(c) && PingOn(d) == PingOn(c);
  }

  /** Without the round trip's condition it fails: a ping-only configuration
      that leaves out `enable_http` is accepted with HTTP read as off, stored
      with HTTP on and no URL, and rejected when read back. */
  lemma OmittedHttpFlagDiverges()
    ensures var c := ConfigDict(Str("Router"), Absent, Str("192.168.1.1"), FlagAbsent, FlagAbsent, FlagValue(true));
      && ValidateConfig(c).Pass?
      && InsertedRow([], 1, c, 0).Success?
      && InsertedRow([], 1, c, 0).value.enableHttp == Some(true)
      && InsertedRow([], 1, c, 0).value.url.None?
      && ValidateConfig(RowToDict(InsertedRow([], 1, c, 0).value)) == Fail(UrlRequired)
  {
    HasTextByEdges("Router");
    HasTextByEdges("192.168.1.1");
  }

  // ---------------------------------------------------------------------
  // Default configurations

  /** The dictionary `initialize_default_configurations` builds for one
      site: enabled, and each test enabled exactly when its target is
      present and not blank. A site without a `name` key raises. */
  function DefaultConfig(site: SiteConfig): (r: Result<ConfigDict, StoreError>)
    ensures r.Failure? <==> site.name.Absent?
    ensures r.Failure? ==> r.error == MissingKey(KeyError("name"))
    ensures r.Success? ==> var c := r.value;
      && c.name == site.name && c.url == NullIfAbsent(site.url) && c.pingHost == NullIfAbsent(site.pingHost)
      && c.enabled == FlagValue(true)
      && c.enableHttp == FlagValue(HasText(site.url)) && c.enablePing == FlagValue(HasText(site.pingHost))
  {
    if site.name.Absent? then Failure(MissingKey(KeyError("name")))
    else Success(ConfigDict(site.name, NullIfAbsent(site.url), NullIfAbsent(site.pingHost),
      FlagValue(true), FlagValue(HasText(site.url)), FlagValue(HasText(site.pingHost))))
  }

  /** `d.get(key)` written back under the same key. */
  function NullIfAbsent(e: Entry): (r: Entry)
    ensures Get(r) == Get(e) && !r.Absent? && HasText(r) == HasText(e)
  {
    if e.Absent? then Null else e
  }

  /** A default configuration always passes the enablement and target
      guards: only its name can make the validator reject it. */
  lemma DefaultConfigValidity(site: SiteConfig)
    requires site.name.Str?
    ensures var c := DefaultConfig(site).value;
      ValidateConfig(c).Pass? <==> HasText(site.name) && (HasText(site.url) || HasText(site.pingHost))
  {
  }

  /** The table after a sequence of inserts that stops at the first one
      that raises, and that error. */
  datatype Batch = Batch(rows: seq<ConfigRow>, nextId: nat, error: Option<StoreError>)

  /** The row `initialize_default_configurations` stores for `site` under
      `id`: enabled, with the site's stripped name and its targets, and each
      test on exactly when its target is usable. */
  predicate FromSite(row: ConfigRow, site: SiteConfig, id: nat) {
    && row.id == id
    && site.name.Str? && row.name == Strip(site.name.s)
    && row.enabled == Some(true)
    && row.url == Get(site.url) && row.pingHost == Get(site.pingHost)
    && row.enableHttp == Some(HasText(site.url))
    && row.enablePing == Some(HasText(site.pingHost))
  }

  /** One turn of the loop of `initialize_default_configurations`: build
      the site's dictionary and insert it, or stop with the error. */
  function DefaultsStep(prev: Batch, site: SiteConfig, now: int): (b: Batch)
    requires prev.error.None?
    ensures b.error.Some? ==> b.rows == prev.rows && b.nextId == prev.nextId
    ensures b.error.None? ==>
      && |b.rows| == |prev.rows| + 1 && b.rows[..|prev.rows|] == prev.rows && b.nextId == prev.nextId + 1
      && FromSite(b.rows[|prev.rows|], site, prev.nextId)
  {
    match DefaultConfig(site)
    case Failure(e) => Batch(prev.rows, prev.nextId, Some(e))
    case Success(c) =>
      match InsertedRow(prev.rows, prev.nextId, c, now)
      case Failure(e) => Batch(prev.rows, prev.nextId, Some(e))
      case Success(row) => Batch(prev.rows + [row], prev.nextId + 1, None)
  }

  /** The loop of `initialize_default_configurations` over `sites`: it
      keeps what it inserted before an error, and adds one row per site
      inserted, in order. */
  function InsertDefaults(rows: seq<ConfigRow>, nextId: nat, sites: seq<SiteConfig>, now: int): (b: Batch)
    ensures |rows| <= |b.rows| <= |rows| + |sites| && b.rows[..|rows|] == rows
    ensures b.nextId == nextId + (|b.rows| - |rows|)
    ensures b.error.None? ==> |b.rows| == |rows| + |sites|
    ensures forall k :: |rows| <= k < |b.rows| ==> FromSite(b.rows[k], sites[k - |rows|], nextId + (k - |rows|))
    decreases |sites|
  {
    if sites == [] then Batch(rows, nextId, None)
    else
      var prev := InsertDefaults(rows, nextId, sites[..|sites| - 1], now);
      if prev.error.Some? then prev
      else
        DefaultsStepRows(rows, nextId, sites, prev, now);
        DefaultsStep(prev, sites[|sites| - 1], now)
  }

  /** One more turn of the loop keeps what the batch promises about its
      rows. */
  lemma DefaultsStepRows(rows: seq<ConfigRow>, nextId: nat, sites: seq<SiteConfig>, prev: Batch, now: int)
    requires |sites| > 0 && prev.error.None?
    requires |prev.rows| == |rows| + |sites| - 1 && prev.rows[..|rows|] == rows
    requires prev.nextId == nextId + (|prev.rows| - |rows|)
    requires forall k :: |rows| <= k < |prev.rows| ==>
      FromSite(prev.rows[k], sites[..|sites| - 1][k - |rows|], nextId + (k - |rows|))
    ensures var b := DefaultsStep(prev, sites[|sites| - 1], now);
      && |rows| <= |b.rows| <= |rows| + |sites| && b.rows[..|rows|] == rows
      && b.nextId == nextId + (|b.rows| - |rows|)
      && (b.error.None? ==> |b.rows| == |rows| + |sites|)
      && forall k :: |rows| <= k < |b.rows| ==> FromSite(b.rows[k], sites[k - |rows|], nextId + (k - |rows|))
  {
    var b := DefaultsStep(prev, sites[|sites| - 1], now);
    if b.error.None? {
      assert b.rows[..|rows|] == b.rows[..|prev.rows|][..|rows|];
    }
    DefaultsStepFromSite(rows, nextId, sites, prev.rows, b.rows);
  }

  /** The rows before the turn keep their sites; the row it adds, if any,
      comes from the turn's site. */
  lemma DefaultsStepFromSite(rows: seq<ConfigRow>, nextId: nat, sites: seq<SiteConfig>, before: seq<ConfigRow>, after: seq<ConfigRow>)
    requires |sites| > 0 && |before| == |rows| + |sites| - 1
    requires forall k :: |rows| <= k < |before| ==>
      FromSite(before[k], sites[..|sites| - 1][k - |rows|], nextId + (k - |rows|))
    requires |before| <= |after| <= |before| + 1 && after[..|before|] == before
    requires |after| > |before| ==> FromSite(after[|before|], sites[|sites| - 1], nextId + (|before| - |rows|))
    ensures forall k :: |rows| <= k < |after| ==> FromSite(after[k], sites[k - |rows|], nextId + (k - |rows|))
  {
    forall k | |rows| <= k < |after|
      ensures FromSite(after[k], sites[k - |rows|], nextId + (k - |rows|))
    {
      if k < |before| {
        assert after[k] == after[..|before|][k];
        assert sites[..|sites| - 1][k - |rows|] == sites[k - |rows|];
      }
    }
  }

  /** Sites that all have a usable name and a usable target, whose names
      stay distinct after stripping and are not in the table yet, are all
      inserted. */
  lemma {:induction false} DefaultsAllInserted(rows: seq<ConfigRow>, nextId: nat, sites: seq<SiteConfig>, now: int)
    requires forall k :: 0 <= k < |sites| ==>
      HasText(sites[k].name) && (HasText(sites[k].url) || HasText(sites[k].pingHost))
    requires forall i, j :: 0 <= i < j < |sites| ==>
      sites[i].name.Str? && sites[j].name.Str? && Strip(sites[i].name.s) != Strip(sites[j].name.s)
    requires forall k, n :: 0 <= k < |sites| && 0 <= n < |rows| ==>
      sites[k].name.Str? && rows[n].name != Strip(sites[k].name.s)
    ensures InsertDefaults(rows, nextId, sites, now).error.None?
    decreases |sites|
  {
    if sites != [] {
      var front := sites[..|sites| - 1];
      DefaultsAllInserted(rows, nextId, front, now);
      var prev := InsertDefaults(rows, nextId, front, now);
      var site := sites[|sites| - 1];
      var c := DefaultConfig(site).value;
      DefaultConfigValidity(site);
      var name := Strip(site.name.s);
      assert !NameTaken(prev.rows, name) by {
        forall n | 0 <= n < |prev.rows| ensures prev.rows[n].name != name {
          if n < |rows| {
            assert prev.rows[n] == prev.rows[..|rows|][n];
          } else {
            assert front[n - |rows|] == sites[n - |rows|];
          }
        }
      }
    }
  }

  /** The batch keeps the table valid, whether it completes or stops. */
  lemma {:induction false} InsertDefaultsKeepsValid(rows: seq<ConfigRow>, nextId: nat, sites: seq<SiteConfig>, now: int)
    requires ConfigsValid(rows, nextId)
    ensures var b := InsertDefaults(rows, nextId, sites, now); ConfigsValid(b.rows, b.nextId)
    decreases |sites|
  {
    if sites != [] {
      var prev := InsertDefaults(rows, nextId, sites[..|sites| - 1], now);
      InsertDefaultsKeepsValid(rows, nextId, sites[..|sites| - 1], now);
      if prev.error.None? {
        var site := sites[|sites| - 1];
        if DefaultConfig(site).Success? && InsertedRow(prev.rows, prev.nextId, DefaultConfig(site).value, now).Success? {
          InsertKeepsValid(prev.rows, prev.nextId, DefaultConfig(site).value, now);
        }
      }
    }
  }

  // ---------------------------------------------------------------------
  // The results table

  /** One row of `monitoring_results`: the id and the check result's columns. */
  datatype ResultRow = ResultRow(id: nat, check: CheckResult)

  predicate IdsIncrease(a: ResultRow, b: ResultRow) {
    a.id < b.id
  }

  predicate ResultsValid(rows: seq<ResultRow>, nextId: nat) {
    && SortedBy(rows, IdsIncrease)
    && (forall k :: 0 <= k < |rows| ==> rows[k].id < nextId)
  }

  /** `timestamp > NOW() - INTERVAL 'h hours'`. */
  predicate InWindow(row: ResultRow, now: int, hours: nat) {
    row.check.timestamp > now - hours * SecondsPerHour
  }

  /** The rows of the last `hours` hours, in table order. */
  function Window(rows: seq<ResultRow>, now: int, hours: nat): (r: seq<ResultRow>)
    ensures forall x :: multiset(r)[x] == if InWindow(x, now, hours) then multiset(rows)[x] else 0
    ensures forall k :: 0 <= k < |r| ==> InWindow(r[k], now, hours)
  {
    Filter(rows, (x: ResultRow) => InWindow(x, now, hours))
  }

  /** `ORDER BY timestamp DESC` and `ORDER BY timestamp ASC`. */
  predicate NewerFirst(a: ResultRow, b: ResultRow) {
    a.check.timestamp >= b.check.timestamp
  }

  predicate OlderFirst(a: ResultRow, b: ResultRow) {
    a.check.timestamp <= b.check.timestamp
  }

  /** `get_recent_results`: after the guard, exactly the rows of the last
      `hours` hours, newest first (ties in any order). */
  function RecentResults(rows: seq<ResultRow>, hours: PyArg, now: int): (r: Result<seq<ResultRow>, StoreError>)
    ensures r.Failure? <==> CheckHours(hours).Failure?
    ensures r.Success? ==> SortedBy(r.value, NewerFirst)
    ensures r.Success? ==>
      forall x :: multiset(r.value)[x] == (if InWindow(x, now, CheckHours(hours).value) then multiset(rows)[x] else 0)
  {
    match CheckHours(hours)
    case Failure(e) => Failure(e)
    case Success(h) => Success(SortBy(Window(rows, now, h), NewerFirst))
  }

  /** `get_historical_data`: after the guard, exactly the rows of the named
      site in the last `hours` hours, oldest first. */
  function HistoricalData(rows: seq<ResultRow>, siteName: string, hours: PyArg, now: int): (r: Result<seq<ResultRow>, StoreError>)
    ensures r.Failure? <==> CheckHours(hours).Failure?
    ensures r.Success? ==> SortedBy(r.value, OlderFirst)
    ensures r.Success? ==> forall x ::
      multiset(r.value)[x] == (if Site(x) == Some(siteName) && InWindow(x, now, CheckHours(hours).value) then multiset(rows)[x] else 0)
  {
    match CheckHours(hours)
    case Failure(e) => Failure(e)
    case Success(h) =>
      Success(SortBy(Filter(Window(rows, now, h), (x: ResultRow) => x.check.siteName == Some(siteName)), OlderFirst))
  }

  /** The rows whose site is `name`. */
  function CountSite(rows: seq<ResultRow>, name: Option<string>): (n: nat)
    ensures n == |Filter(rows, (x: ResultRow) => x.check.siteName == name)|
  {
    if rows == [] then 0
    else (if rows[0].check.siteName == name then 1 else 0) + CountSite(rows[1..], name)
  }

  /** The rows whose site is `name` and whose verdict is success. */
  function CountUp(rows: seq<ResultRow>, name: Option<string>): (n: nat)
    ensures n <= CountSite(rows, name)
    ensures n == |Filter(rows, (x: ResultRow) => x.check.siteName == name && x.check.overallSuccess)|
  {
    if rows == [] then 0
    else (if rows[0].check.siteName == name && rows[0].check.overallSuccess then 1 else 0) + CountUp(rows[1..], name)
  }

  /** A site that has a row has a positive count. */
  lemma {:induction false} CountSitePositive(rows: seq<ResultRow>, k: nat)
    requires k < |rows|
    ensures CountSite(rows, rows[k].check.siteName) > 0
  {
    if k > 0 {
      CountSitePositive(rows[1..], k - 1);
    }
  }

  /** `total_checks` and `successful_checks` of one group. */
  datatype SiteCounts = SiteCounts(totalChecks: nat, successfulChecks: nat)

  /** `GROUP BY site_name` with `COUNT(*)` and the sum of successes: one
      group per site present (`NULL` names form one group), each with at
      least one check and no more successes than checks. */
  function Tally(rows: seq<ResultRow>): (m: map<Option<string>, SiteCounts>)
    ensures forall n :: n in m <==> exists k :: 0 <= k < |rows| && rows[k].check.siteName == n
    ensures forall n :: n in m ==> m[n] == SiteCounts(CountSite(rows, n), CountUp(rows, n))
    ensures forall n :: n in m ==> 0 < m[n].totalChecks && m[n].successfulChecks <= m[n].totalChecks
  {
    var names := set k | 0 <= k < |rows| :: rows[k].check.siteName;
    forall n | n in names ensures CountSite(rows, n) > 0 {
      var k :| 0 <= k < |rows| && rows[k].check.siteName == n;
      CountSitePositive(rows, k);
    }
    map n | n in names :: SiteCounts(CountSite(rows, n), CountUp(rows, n))
  }

  /** `get_site_summary`: after the guard, the counts per site over the last
      `hours` hours. */
  function SiteSummary(rows: seq<ResultRow>, hours: PyArg, now: int): (r: Result<map<Option<string>, SiteCounts>, StoreError>)
    ensures r.Failure? <==> CheckHours(hours).Failure?
    ensures r.Success? ==> forall n :: n in r.value <==>
      exists x :: x in rows && InWindow(x, now, CheckHours(hours).value) && x.check.siteName == n
    ensures r.Success? ==> forall n :: n in r.value ==>
      var w := Window(rows, now, CheckHours(hours).value);
      r.value[n] == SiteCounts(CountSite(w, n), CountUp(w, n))
    ensures r.Success? ==> forall n :: n in r.value ==>
      0 < r.value[n].totalChecks && r.value[n].successfulChecks <= r.value[n].totalChecks
  {
    match CheckHours(hours)
    case Failure(e) => Failure(e)
    case Success(h) =>
      var w := Window(rows, now, h);
      assert forall x :: x in w <==> x in rows && InWindow(x, now, h) by {
        assert forall x :: x in w <==> multiset(w)[x] > 0;
      }
      Success(Tally(w))
  }

  /** `timestamp < NOW() - INTERVAL 'd days'` is what the cleanup deletes. */
  predicate Kept(row: ResultRow, now: int, days: nat) {
    row.check.timestamp >= now - days * SecondsPerDay
  }

  /** The results table after `cleanup_old_data` with a valid argument:
      exactly the rows that are not older than the cutoff, in order. */
  function Retained(rows: seq<ResultRow>, now: int, days: nat): (r: seq<ResultRow>)
    ensures forall x :: x in r <==> x in rows && Kept(x, now, days)
    ensures forall x :: multiset(r)[x] == if Kept(x, now, days) then multiset(rows)[x] else 0
  {
    var r := Filter(rows, (x: ResultRow) => Kept(x, now, days));
    assert forall x :: x in r <==> multiset(r)[x] > 0;
    r
  }

  lemma RetainedKeepsValid(rows: seq<ResultRow>, nextId: nat, now: int, days: nat)
    requires ResultsValid(rows, nextId)
    ensures ResultsValid(Retained(rows, now, days), nextId)
  {
    FilterKeepsOrder(rows, (x: ResultRow) => Kept(x, now, days), IdsIncrease);
    var r := Retained(rows, now, days);
    forall k | 0 <= k < |r| ensures r[k].id < nextId {
      assert r[k] in rows;
    }
  }

  // ---------------------------------------------------------------------
  // The latest row per site

  function Site(x: ResultRow): Option<string> {
    x.check.siteName
  }

  /** No two kept rows belong to the same site. */
  predicate OnePerSite(r: seq<ResultRow>) {
    forall i, j :: 0 <= i < j < |r| ==> Site(r[i]) != Site(r[j])
  }

  /** Every kept row is a row of the table. */
  predicate DrawnFrom(r: seq<ResultRow>, rows: seq<ResultRow>) {
    forall k :: 0 <= k < |r| ==> r[k] in rows
  }

  /** Every site of the table has a kept row. */
  predicate CoversSites(r: seq<ResultRow>, rows: seq<ResultRow>) {
    forall y :: y in rows ==> exists k :: 0 <= k < |r| && Site(r[k]) == Site(y)
  }

  /** No row of the table is newer than the kept row of its site. */
  predicate NewestOfSite(r: seq<ResultRow>, rows: seq<ResultRow>) {
    forall y, k :: y in rows && 0 <= k < |r| && Site(y) == Site(r[k]) ==>
      y.check.timestamp <= r[k].check.timestamp
  }

  predicate LatestOf(r: seq<ResultRow>, rows: seq<ResultRow>) {
    OnePerSite(r) && DrawnFrom(r, rows) && CoversSites(r, rows) && NewestOfSite(r, rows)
  }

  /** Where the row kept for site `name` is, if any. */
  function SiteIndex(best: seq<ResultRow>, name: Option<string>): (r: Option<nat>)
    ensures r.Some? ==> r.value < |best| && Site(best[r.value]) == name
    ensures r.None? ==> forall k :: 0 <= k < |best| ==> Site(best[k]) != name
  {
    if best == [] then None
    else if Site(best[|best| - 1]) == name then Some(|best| - 1)
    else SiteIndex(best[..|best| - 1], name)
  }

  /** `get_current_status`, the rows numbered 1 when each site's rows are
      ranked newest first: one row per site present (`NULL` names form
      one site), each a row of the table, none older than another row of
      its site. */
  function LatestPerSite(rows: seq<ResultRow>): (r: seq<ResultRow>)
    ensures LatestOf(r, rows)
    decreases |rows|
  {
    if rows == [] then []
    else
      var front := rows[..|rows| - 1];
      assert rows == front + [rows[|rows| - 1]];
      LatestStep(front, LatestPerSite(front), rows[|rows| - 1])
  }
  /** The latest rows are empty exactly when the table is. */
  lemma LatestEmpty(rows: seq<ResultRow>)
    ensures LatestPerSite(rows) == [] <==> rows == []
  {
    if rows != [] {
      assert rows[0] in rows;
    }
  }


  /** Folding one more row into the latest rows of `front`: a new site is
      appended, a strictly newer row replaces its site's row. */
  function LatestStep(front: seq<ResultRow>, best: seq<ResultRow>, x: ResultRow): (r: seq<ResultRow>)
    requires LatestOf(best, front)
    ensures LatestOf(r, front + [x])
  {
    match SiteIndex(best, Site(x))
    case None =>
      NewSiteStep(front, best, x);
      best + [x]
    case Some(i) =>
      if x.check.timestamp > best[i].check.timestamp then
        NewerRowStep(front, best, x, i);
        best[i := x]
      else
        OlderRowStep(front, best, x, i);
        best
  }

  lemma NewSiteStep(front: seq<ResultRow>, best: seq<ResultRow>, x: ResultRow)
    requires LatestOf(best, front)
    requires forall k :: 0 <= k < |best| ==> Site(best[k]) != Site(x)
    ensures LatestOf(best + [x], front + [x])
  {
    var r := best + [x];
    var rows := front + [x];
    assert r[|best|] == x;
    forall k | 0 <= k < |r| ensures r[k] in rows {
      if k < |best| { assert r[k] == best[k]; assert best[k] in front; }
    }
    forall y | y in rows ensures exists k :: 0 <= k < |r| && Site(r[k]) == Site(y) {
      if y in front {
        var k :| 0 <= k < |best| && Site(best[k]) == Site(y);
        assert r[k] == best[k];
      } else {
        assert Site(r[|best|]) == Site(y);
      }
    }
    forall y, k | y in rows && 0 <= k < |r| && Site(y) == Site(r[k])
      ensures y.check.timestamp <= r[k].check.timestamp
    {
      if y in front {
        var j :| 0 <= j < |best| && Site(best[j]) == Site(y);
        if k < |best| {
          assert r[k] == best[k];
        }
      }
    }
  }

  /** Within one-row-per-site rows, the site determines the position. */
  lemma SameSiteSameIndex(best: seq<ResultRow>, a: nat, b: nat)
    requires OnePerSite(best) && a < |best| && b < |best| && Site(best[a]) == Site(best[b])
    ensures a == b
  {
  }

  lemma NewerRowStep(front: seq<ResultRow>, best: seq<ResultRow>, x: ResultRow, i: nat)
    requires LatestOf(best, front)
    requires i < |best| && Site(best[i]) == Site(x) && x.check.timestamp > best[i].check.timestamp
    ensures LatestOf(best[i := x], front + [x])
  {
    NewerRowKeepsSites(best, x, i);
    NewerRowDrawn(front, best, x, i);
    NewerRowCovers(front, best, x, i);
    var r := best[i := x];
    forall y, k | y in front + [x] && 0 <= k < |r| && Site(y) == Site(r[k])
      ensures y.check.timestamp <= r[k].check.timestamp
    {
      NewerRowCase(front, best, x, i, y, k);
    }
  }

  lemma NewerRowKeepsSites(best: seq<ResultRow>, x: ResultRow, i: nat)
    requires OnePerSite(best) && i < |best| && Site(best[i]) == Site(x)
    ensures OnePerSite(best[i := x])
  {
    var r := best[i := x];
    forall a, b | 0 <= a < b < |r| ensures Site(r[a]) != Site(r[b]) {
      assert Site(r[a]) == Site(best[a]) && Site(r[b]) == Site(best[b]);
    }
  }

  lemma NewerRowDrawn(front: seq<ResultRow>, best: seq<ResultRow>, x: ResultRow, i: nat)
    requires DrawnFrom(best, front) && i < |best|
    ensures DrawnFrom(best[i := x], front + [x])
  {
    var r := best[i := x];
    forall k | 0 <= k < |r| ensures r[k] in front + [x] {
      if k != i { assert best[k] in front; }
    }
  }

  lemma NewerRowCovers(front: seq<ResultRow>, best: seq<ResultRow>, x: ResultRow, i: nat)
    requires CoversSites(best, front) && i < |best| && Site(best[i]) == Site(x)
    ensures CoversSites(best[i := x], front + [x])
  {
    var r := best[i := x];
    forall y | y in front + [x] ensures exists k :: 0 <= k < |r| && Site(r[k]) == Site(y) {
      if y in front {
        var k :| 0 <= k < |best| && Site(best[k]) == Site(y);
        assert Site(r[k]) == Site(y);
      } else {
        assert Site(r[i]) == Site(y);
      }
    }
  }

  lemma NewerRowCase(front: seq<ResultRow>, best: seq<ResultRow>, x: ResultRow, i: nat, y: ResultRow, k: nat)
    requires OnePerSite(best) && NewestOfSite(best, front)
    requires i < |best| && Site(best[i]) == Site(x) && x.check.timestamp > best[i].check.timestamp
    requires y in front + [x] && k < |best| && Site(y) == Site(best[i := x][k])
    ensures y.check.timestamp <= best[i := x][k].check.timestamp
  {
    if y in front {
      assert y.check.timestamp <= best[k].check.timestamp;
    } else {
      SameSiteSameIndex(best, i, k);
    }
  }

  lemma OlderRowStep(front: seq<ResultRow>, best: seq<ResultRow>, x: ResultRow, i: nat)
    requires LatestOf(best, front)
    requires i < |best| && Site(best[i]) == Site(x) && x.check.timestamp <= best[i].check.timestamp
    ensures LatestOf(best, front + [x])
  {
    var rows := front + [x];
    assert DrawnFrom(best, rows) by {
      forall k | 0 <= k < |best| ensures best[k] in rows {
        assert best[k] in front;
      }
    }
    assert CoversSites(best, rows) by {
      forall y | y in rows ensures exists k :: 0 <= k < |best| && Site(best[k]) == Site(y) {
        if !(y in front) {
          assert Site(best[i]) == Site(y);
        }
      }
    }
    assert NewestOfSite(best, rows) by {
      forall y, k | y in rows && 0 <= k < |best| && Site(y) == Site(best[k])
        ensures y.check.timestamp <= best[k].check.timestamp
      {
        if !(y in front) {
          SameSiteSameIndex(best, i, k);
        }
      }
    }
  }
}
