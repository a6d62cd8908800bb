/** The dashboard's status header (status_header_demo.py, `get_status_header`,
    and the same decision written inline in dashboard.py): four states
    decided by how many sites are online out of how many report. */
module StatusHeader {
  import opened Monitor
  import opened Tables

  datatype Header = NoData | AllOperational | PartialOutage | SystemOutage

  /** `get_status_header` on counts: no sites means no data; otherwise all
      online, some online, or none online. */
  function StatusHeader(online: nat, total: nat): (h: Header)
    ensures h == NoData <==> total == 0
    ensures h == AllOperational <==> total > 0 && online == total
    ensures h == PartialOutage <==> total > 0 && online != total && online > 0
    ensures h == SystemOutage <==> total > 0 && online == 0
  {
    if total == 0 then NoData
    else if online == total then AllOperational
    else if online > 0 then PartialOutage
    else SystemOutage
  }

  function Icon(h: Header): char {
    match h
    case NoData => '\U{26aa}'
    case AllOperational => '\U{1f7e2}'
    case PartialOutage => '\U{1f7e1}'
    case SystemOutage => '\U{1f534}'
  }

  function Label(h: Header): string {
    match h
    case NoData => "No Data Available"
    case AllOperational => "All Systems Operational"
    case PartialOutage => "Partial Outage"
    case SystemOutage => "System Outage"
  }

  const Title := " Current Status - "

  /** The header line: icon, then the fixed title, then the state's label. */
  function HeaderText(h: Header): (t: string)
    ensures |t| > 0 && t[0] == Icon(h)
  {
    [Icon(h)] + Title + Label(h)
  }

  /** Each state has its own line, told apart by the icon. */
  lemma HeaderTextDistinct(g: Header, h: Header)
    requires HeaderText(g) == HeaderText(h)
    ensures g == h
  {
    assert Icon(g) == HeaderText(g)[0] == HeaderText(h)[0] == Icon(h);
  }

  /** `get_status_header`. */
  function GetStatusHeader(online: nat, total: nat): string {
    HeaderText(StatusHeader(online, total))
  }

  /** The rows whose verdict is success: `overall_success.sum()`. */
  function CountOnline(rows: seq<ResultRow>): (n: nat)
    ensures n <= |rows|
    ensures n == |rows| <==> forall k :: 0 <= k < |rows| ==> rows[k].check.overallSuccess
    ensures n == 0 <==> forall k :: 0 <= k < |rows| ==> !rows[k].check.overallSuccess
  {
    if rows == [] then 0
    else
      var rest := CountOnline(rows[1..]);
      assert forall k :: 1 <= k < |rows| ==> rows[k] == rows[1..][k - 1];
      (if rows[0].check.overallSuccess then 1 else 0) + rest
  }

  /** The dashboard's inline decision on the current-status rows: an empty
      frame gives no data without counting; otherwise the counts decide. */
  function DashboardHeader(status: seq<ResultRow>): Header {
    if status != [] then
      var total := |status|;
      var online := CountOnline(status);
      if online == total then AllOperational
      else if online > 0 then PartialOutage
      else SystemOutage
    else NoData
  }

  /** The dashboard and `get_status_header` agree on every status frame. */
  lemma DashboardAgrees(status: seq<ResultRow>)
    ensures DashboardHeader(status) == StatusHeader(CountOnline(status), |status|)
  {
  }

  /** The header the dashboard shows for a results table: the decision
      applied to the latest row of each site. */
  function CurrentHeader(results: seq<ResultRow>): Header {
    DashboardHeader(LatestPerSite(results))
  }

  /** Every row of the frame succeeded. */
  predicate AllUp(status: seq<ResultRow>) {
    forall k :: 0 <= k < |status| ==> status[k].check.overallSuccess
  }

  /** Every row of the frame failed. */
  predicate AllDown(status: seq<ResultRow>) {
    forall k :: 0 <= k < |status| ==> !status[k].check.overallSuccess
  }

  /** Some rows of the frame succeeded and some failed. */
  predicate Mixed(status: seq<ResultRow>) {
    && (exists k :: 0 <= k < |status| && status[k].check.overallSuccess)
    && (exists k :: 0 <= k < |status| && !status[k].check.overallSuccess)
  }

  /** What the dashboard's decision means for a status frame: no data
      exactly when it is empty; all operational exactly when every row
      succeeded; system outage exactly when every row failed; partial
      outage exactly when some row succeeded and some failed. */
  lemma DashboardHeaderMeaning(status: seq<ResultRow>)
    ensures DashboardHeader(status) == NoData <==> status == []
    ensures DashboardHeader(status) == AllOperational <==> status != [] && AllUp(status)
    ensures DashboardHeader(status) == SystemOutage <==> status != [] && AllDown(status)
    ensures DashboardHeader(status) == PartialOutage <==> Mixed(status)
  {
    var n := CountOnline(status);
    if status != [] && n != |status| && n != 0 {
      var i :| 0 <= i < |status| && !status[i].check.overallSuccess;
      var j :| 0 <= j < |status| && status[j].check.overallSuccess;
    }
  }

  /** What the shown header means for the results table: no data exactly
      when there are no results, and otherwise the decision on the latest
      row of each site. */
  lemma CurrentHeaderMeaning(results: seq<ResultRow>)
    ensures CurrentHeader(results) == NoData <==> results == []
    ensures CurrentHeader(results) == AllOperational <==> results != [] && AllUp(LatestPerSite(results))
    ensures CurrentHeader(results) == SystemOutage <==> results != [] && AllDown(LatestPerSite(results))
    ensures CurrentHeader(results) == PartialOutage <==> Mixed(LatestPerSite(results))
  {
    DashboardHeaderMeaning(LatestPerSite(results));
    LatestEmpty(results);
  }

  /** The five scenarios of the demo. */
  lemma DemoScenarios()
    ensures GetStatusHeader(7, 7) == "\U{1f7e2}" + Title + "All Systems Operational"
    ensures GetStatusHeader(5, 7) == "\U{1f7e1}" + Title + "Partial Outage"
    ensures GetStatusHeader(1, 7) == "\U{1f7e1}" + Title + "Partial Outage"
    ensures GetStatusHeader(0, 7) == "\U{1f534}" + Title + "System Outage"
    ensures GetStatusHeader(0, 0) == "\U{26aa}" + Title + "No Data Available"
  {
    assert StatusHeader(7, 7) == AllOperational;
    assert StatusHeader(5, 7) == PartialOutage && StatusHeader(1, 7) == PartialOutage;
    assert StatusHeader(0, 7) == SystemOutage && StatusHeader(0, 0) == NoData;
  }
}
