/** The reading of the ping tool's text report (monitor.py,
    `NetworkMonitor._parse_ping_output`). The three regular-expression
    searches are written out as scans for the first position where the
    pattern matches. Every capture group here is a greedy `+` run over a
    character class and is followed by a character outside that class, so
    backtracking can never shorten it: the maximal run is the only capture
    (`RunEndExact`). Timing numbers are kept as the text captured;
    Python's `float()` is modelled only by the question whether it would
    raise (`IsFloatText`). */
module PingParse {
  import opened Wrappers

  /** `\d` (ASCII digits). */
  predicate IsDigit(c: char) {
    '0' <= c <= '9'
  }

  /** `[\d.]`. */
  predicate IsNumChar(c: char) {
    IsDigit(c) || c == '.'
  }

  predicate AllIn(t: string, inClass: char -> bool) {
    forall k :: 0 <= k < |t| ==> inClass(t[k])
  }

  /** The literal `lit` occurs in `s` at position `k`. */
  predicate LiteralAt(s: string, k: nat, lit: string) {
    k + |lit| <= |s| && s[k..k + |lit|] == lit
  }

  /** The literal occurs at `k` when it agrees with `s` character by character. */
  lemma {:induction false} LiteralAtByChars(s: string, k: nat, lit: string)
    requires k + |lit| <= |s| && forall j :: 0 <= j < |lit| ==> s[k + j] == lit[j]
    ensures LiteralAt(s, k, lit)
  {
    assert s[k..k + |lit|] == lit;
  }

  /** End of the longest run of `inClass` characters starting at `i`:
      where a greedy `[...]+` stops. */
  function RunEnd(s: string, i: nat, inClass: char -> bool): (j: nat)
    requires i <= |s|
    ensures i <= j <= |s|
    ensures forall k :: i <= k < j ==> inClass(s[k])
    ensures j == |s| || !inClass(s[j])
    decreases |s| - i
  {
    if i < |s| && inClass(s[i]) then RunEnd(s, i + 1, inClass) else i
  }

  /** A run of class characters that ends at a character outside the class
      (or at the end of the text) is the greedy run: no other capture exists. */
  lemma {:induction false} RunEndExact(s: string, i: nat, e: nat, inClass: char -> bool)
    requires i <= e <= |s|
    requires forall k :: i <= k < e ==> inClass(s[k])
    requires e == |s| || !inClass(s[e])
    ensures RunEnd(s, i, inClass) == e
    decreases e - i
  {
    if i < e {
      RunEndExact(s, i + 1, e, inClass);
    }
  }

  // ---------------------------------------------------------------------
  // Packet loss: re.search(r'(\d+)% packet loss', output)

  const LossSuffix := "% packet loss"

  /** The loss pattern matches at `i`; its capture is `s[i..RunEnd(s, i, IsDigit)]`. */
  predicate LossMatchAt(s: string, i: nat) {
    i < |s| && IsDigit(s[i]) && LiteralAt(s, RunEnd(s, i, IsDigit), LossSuffix)
  }

  /** Reference reading of the pattern: a capture `s[i..k]` of one or more
      digits followed by the literal `% packet loss`. */
  ghost predicate LossPatternAt(s: string, i: nat, k: nat) {
    i < k <= |s| && (forall j :: i <= j < k ==> IsDigit(s[j])) && LiteralAt(s, k, LossSuffix)
  }

  /** The scan accepts exactly the matches of the pattern, with its only capture. */
  lemma {:induction false} LossMatchAtExact(s: string, i: nat, k: nat)
    ensures LossPatternAt(s, i, k) <==> LossMatchAt(s, i) && k == RunEnd(s, i, IsDigit)
  {
    if LossPatternAt(s, i, k) {
      assert s[k] == s[k..k + |LossSuffix|][0] == '%';
      RunEndExact(s, i, k, IsDigit);
    }
  }

  /** `re.search`: the first position at or after `from` where the loss pattern matches. */
  function FindLoss(s: string, from: nat): (r: Option<nat>)
    requires from <= |s|
    ensures r.Some? ==> from <= r.value < |s| && LossMatchAt(s, r.value)
    ensures forall k :: from <= k < |s| && (r.None? || k < r.value) ==> !LossMatchAt(s, k)
    decreases |s| - from
  {
    if from == |s| then None
    else if LossMatchAt(s, from) then Some(from)
    else FindLoss(s, from + 1)
  }

  /** The search passes over a stretch without matches unchanged. */
  lemma {:induction false} FindLossSkips(s: string, from: nat, i: nat)
    requires from <= i <= |s|
    requires forall k :: from <= k < i ==> !LossMatchAt(s, k)
    ensures FindLoss(s, from) == FindLoss(s, i)
    decreases i - from
  {
    if from < i {
      FindLossSkips(s, from + 1, i);
    }
  }

  function DigitValue(c: char): nat
    requires IsDigit(c)
  {
    c as int - '0' as int
  }

  /** `float()` of a string of ASCII digits: its decimal value. */
  function DecimalValue(t: string): nat
    requires AllIn(t, IsDigit)
  {
    if t == [] then 0 else DecimalValue(t[..|t| - 1]) * 10 + DigitValue(t[|t| - 1])
  }

  /** The capture of the first loss match. */
  function LossCapture(s: string): (t: Option<string>)
    ensures t.Some? ==> |t.value| > 0 && AllIn(t.value, IsDigit)
  {
    match FindLoss(s, 0)
    case None => None
    case Some(i) =>
      var e := RunEnd(s, i, IsDigit);
      assert AllIn(s[i..e], IsDigit) by {
        forall k | 0 <= k < e - i ensures IsDigit(s[i..e][k]) {
          assert s[i..e][k] == s[i + k];
        }
      }
      Some(s[i..e])
  }

  /** Packet loss percentage as the parser reads it: the value of the first
      capture, or 0 when the report has no loss line. */
  function PacketLoss(s: string): nat {
    match LossCapture(s)
    case None => 0
    case Some(t) => DecimalValue(t)
  }

  /** A report whose first loss match is at `i`, with its digits ending at
      `e`: the loss is read from `s[i..e]`. */
  lemma FirstLossAt(s: string, i: nat, e: nat)
    requires i < e <= |s| && LiteralAt(s, e, LossSuffix)
    requires forall k :: 0 <= k < i ==> !LossMatchAt(s, k)
    requires forall k :: i <= k < e ==> IsDigit(s[k])
    ensures LossCapture(s) == Some(s[i..e]) && PacketLoss(s) == DecimalValue(s[i..e])
  {
    assert s[e] == s[e..e + |LossSuffix|][0] == '%';
    RunEndExact(s, i, e, IsDigit);
    FindLossSkips(s, 0, i);
    assert FindLoss(s, i) == Some(i);
  }

  /** The first match starts a maximal digit run: the loss is read from the
      whole run of digits just before the literal, and from nothing earlier. */
  lemma {:induction false} FirstLossStartsRun(s: string)
    requires FindLoss(s, 0).Some?
    ensures var i := FindLoss(s, 0).value; i == 0 || !IsDigit(s[i - 1])
  {
    var i := FindLoss(s, 0).value;
    if i > 0 && IsDigit(s[i - 1]) {
      assert RunEnd(s, i - 1, IsDigit) == RunEnd(s, i, IsDigit);
      assert LossMatchAt(s, i - 1);
      assert false;
    }
  }

  // ---------------------------------------------------------------------
  // Timing: re.search(r'min/avg/max/stddev = ([\d.]+)/([\d.]+)/([\d.]+)/([\d.]+) ms')
  // and the fallback re.search(r'= ([\d.]+)/([\d.]+)/([\d.]+)/([\d.]+) ms')

  const FullTimingPrefix := "min/avg/max/stddev = "
  const ShortTimingPrefix := "= "

  /** The four captures of a timing line: min, avg, max and stddev. */
  datatype TimingText = TimingText(min: string, avg: string, max: string, stddev: string)

  /** A `([\d.]+)` capture starting at `p` and followed by the literal
      `delim`; the result is where the capture ends. */
  function GroupAt(s: string, p: nat, delim: string): (r: Option<nat>)
    requires p <= |s|
    ensures r.Some? ==> p < r.value && LiteralAt(s, r.value, delim)
    ensures r.Some? ==> forall k :: p <= k < r.value ==> IsNumChar(s[k])
  {
    var e := RunEnd(s, p, IsNumChar);
    if p < e && LiteralAt(s, e, delim) then Some(e) else None
  }

  /** A capture can only end where the greedy run ends. */
  lemma {:induction false} GroupAtExact(s: string, p: nat, e: nat, delim: string)
    requires p < e <= |s| && forall k :: p <= k < e ==> IsNumChar(s[k])
    requires LiteralAt(s, e, delim) && |delim| > 0 && !IsNumChar(delim[0])
    ensures GroupAt(s, p, delim) == Some(e)
  {
    assert s[e] == s[e..e + |delim|][0];
    RunEndExact(s, p, e, IsNumChar);
  }

  /** Where the four captures of a timing line end. */
  datatype Ends = Ends(e1: nat, e2: nat, e3: nat, e4: nat)

  /** Reference reading of the part of a timing pattern after its prefix:
      four non-empty `[\d.]` captures starting at `p` and ending at `e1`..`e4`,
      separated by `/` and followed by ` ms`. */
  ghost predicate GroupsPatternAt(s: string, p: nat, e: Ends) {
    && p < e.e1 && e.e1 + 1 < e.e2 && e.e2 + 1 < e.e3 && e.e3 + 1 < e.e4 <= |s|
    && (forall k :: p <= k < e.e1 ==> IsNumChar(s[k]))
    && (forall k :: e.e1 + 1 <= k < e.e2 ==> IsNumChar(s[k]))
    && (forall k :: e.e2 + 1 <= k < e.e3 ==> IsNumChar(s[k]))
    && (forall k :: e.e3 + 1 <= k < e.e4 ==> IsNumChar(s[k]))
    && LiteralAt(s, e.e1, "/") && LiteralAt(s, e.e2, "/") && LiteralAt(s, e.e3, "/")
    && LiteralAt(s, e.e4, " ms")
  }

  /** The matcher for `([\d.]+)/([\d.]+)/([\d.]+)/([\d.]+) ms` at `p`. */
  function GroupsFrom(s: string, p: nat): (r: Option<Ends>)
    requires p <= |s|
    ensures r.Some? ==> GroupsPatternAt(s, p, r.value)
  {
    var g1 := GroupAt(s, p, "/");
    if g1.None? then None else
    var g2 := GroupAt(s, g1.value + 1, "/");
    if g2.None? then None else
    var g3 := GroupAt(s, g2.value + 1, "/");
    if g3.None? then None else
    var g4 := GroupAt(s, g3.value + 1, " ms");
    if g4.None? then None else
    Some(Ends(g1.value, g2.value, g3.value, g4.value))
  }

  /** Wherever the captures can be placed, the matcher places them there:
      with the ensures of `GroupsFrom`, `GroupsFrom(s, p) == Some(e)` holds
      exactly when `GroupsPatternAt(s, p, e)` does. */
  lemma {:induction false} GroupsFromExact(s: string, p: nat, e: Ends)
    requires p <= |s| && GroupsPatternAt(s, p, e)
    ensures GroupsFrom(s, p) == Some(e)
  {
    GroupAtExact(s, p, e.e1, "/");
    GroupAtExact(s, e.e1 + 1, e.e2, "/");
    GroupAtExact(s, e.e2 + 1, e.e3, "/");
    GroupAtExact(s, e.e3 + 1, e.e4, " ms");
    GroupsFromOfGroups(s, p, e);
  }

  lemma {:induction false} GroupsFromOfGroups(s: string, p: nat, e: Ends)
    requires p <= |s|
    requires GroupAt(s, p, "/") == Some(e.e1)
    requires GroupAt(s, e.e1 + 1, "/") == Some(e.e2)
    requires GroupAt(s, e.e2 + 1, "/") == Some(e.e3)
    requires GroupAt(s, e.e3 + 1, " ms") == Some(e.e4)
    ensures GroupsFrom(s, p) == Some(e)
  {
    match e
    case Ends(e1, e2, e3, e4) =>
  }

  /** The texts of the four captures. */
  function Captures(s: string, p: nat, e: Ends): (t: TimingText)
    requires GroupsPatternAt(s, p, e)
    ensures |t.min| > 0 && AllIn(t.min, IsNumChar)
    ensures |t.avg| > 0 && AllIn(t.avg, IsNumChar)
    ensures |t.max| > 0 && AllIn(t.max, IsNumChar)
  {
    SliceAllIn(s, p, e.e1, IsNumChar);
    SliceAllIn(s, e.e1 + 1, e.e2, IsNumChar);
    SliceAllIn(s, e.e2 + 1, e.e3, IsNumChar);
    TimingText(s[p..e.e1], s[e.e1 + 1..e.e2], s[e.e2 + 1..e.e3], s[e.e3 + 1..e.e4])
  }

  /** The timing pattern with the given literal prefix, matched at `i`. */
  function TimingAt(s: string, i: nat, prefix: string): (r: Option<TimingText>)
    requires i <= |s|
  {
    if LiteralAt(s, i, prefix) then
      match GroupsFrom(s, i + |prefix|)
      case None => None
      case Some(e) => Some(Captures(s, i + |prefix|, e))
    else None
  }

  lemma {:induction false} SliceAllIn(s: string, i: nat, j: nat, inClass: char -> bool)
    requires i <= j <= |s| && forall k :: i <= k < j ==> inClass(s[k])
    ensures AllIn(s[i..j], inClass)
  {
    forall k | 0 <= k < j - i ensures inClass(s[i..j][k]) {
      assert s[i..j][k] == s[i + k];
    }
  }

  /** `re.search` for a timing pattern: its first match at or after `from`. */
  function FindTiming(s: string, from: nat, prefix: string): (r: Option<nat>)
    requires from <= |s|
    ensures r.Some? ==> from <= r.value <= |s| && TimingAt(s, r.value, prefix).Some?
    ensures forall k :: from <= k <= |s| && (r.None? || k < r.value) ==> TimingAt(s, k, prefix).None?
    decreases |s| - from
  {
    if TimingAt(s, from, prefix).Some? then Some(from)
    else if from == |s| then None
    else FindTiming(s, from + 1, prefix)
  }

  /** The search passes unchanged over a stretch where the prefix does not
      occur. */
  lemma {:induction false} FindTimingSkips(s: string, from: nat, i: nat, prefix: string)
    requires from <= i <= |s|
    requires forall k :: from <= k < i ==> !LiteralAt(s, k, prefix)
    ensures FindTiming(s, from, prefix) == FindTiming(s, i, prefix)
    decreases i - from
  {
    if from < i {
      FindTimingSkips(s, from + 1, i, prefix);
      FindTimingStep(s, from, prefix);
    }
  }

  /** A position where the prefix does not occur passes the search on to
      the next one. */
  lemma FindTimingStep(s: string, from: nat, prefix: string)
    requires from < |s| && !LiteralAt(s, from, prefix)
    ensures FindTiming(s, from, prefix) == FindTiming(s, from + 1, prefix)
  {
  }

  /** The timing captures the parser uses: those of the first full
      `min/avg/max/stddev = ` match, else those of the first bare `= ` match. */
  function SelectedTiming(s: string): (r: Option<TimingText>)
    ensures r.Some? ==> |r.value.min| > 0 && AllIn(r.value.min, IsNumChar)
    ensures r.Some? ==> |r.value.avg| > 0 && AllIn(r.value.avg, IsNumChar)
    ensures r.Some? ==> |r.value.max| > 0 && AllIn(r.value.max, IsNumChar)
  {
    match FindTiming(s, 0, FullTimingPrefix)
    case Some(i) => TimingAt(s, i, FullTimingPrefix)
    case None =>
      match FindTiming(s, 0, ShortTimingPrefix)
      case Some(i) => TimingAt(s, i, ShortTimingPrefix)
      case None => None
  }

  /** A full timing line always contains a bare one, 19 characters further on;
      the full pattern takes priority only over bare matches earlier in the text. */
  lemma {:induction false} FullTimingContainsShort(s: string, i: nat)
    requires i <= |s| && TimingAt(s, i, FullTimingPrefix).Some?
    ensures i + 19 <= |s| && TimingAt(s, i + 19, ShortTimingPrefix) == TimingAt(s, i, FullTimingPrefix)
  {
    assert s[i + 19..i + 21] == s[i..i + |FullTimingPrefix|][19..21];
  }

  // ---------------------------------------------------------------------
  // float() of a captured timing number

  function Count(t: string, c: char): nat {
    if t == [] then 0 else (if t[0] == c then 1 else 0) + Count(t[1..], c)
  }

  /** `float(t)` does not raise for a `[\d.]+` capture `t`: at most one dot and
      at least one digit (`"1."`, `".5"`, `"12.5"`; not `"."` or `"1.2.3"`). */
  predicate IsFloatText(t: string) {
    |t| > 0 && AllIn(t, IsNumChar) && Count(t, '.') <= 1 && Count(t, '.') < |t|
  }

  /** Conversion of min, avg and max raises: the stddev capture is never converted. */
  predicate TimingMalformed(s: string) {
    var t := SelectedTiming(s);
    t.Some? && !(IsFloatText(t.value.min) && IsFloatText(t.value.avg) && IsFloatText(t.value.max))
  }

  // ---------------------------------------------------------------------
  // The ping result record

  /** `{'success', 'avg_ms', 'min_ms', 'max_ms', 'packet_loss_percent'}`; `None`
      in every field is the "not tested" record. */
  datatype PingResult = PingResult(
    success: Option<bool>,
    avgMs: Option<string>,
    minMs: Option<string>,
    maxMs: Option<string>,
    packetLossPercent: Option<nat>)

  /** The canonical failure record: not reachable, 100 percent loss, no timing. */
  const PingFailure := PingResult(Some(false), None, None, None, Some(100))

  /** What holds of every ping that was attempted: success and loss are
      present, success is exactly "loss below 100 percent", and min/avg/max
      are either all absent or all convertible numbers. */
  predicate ProbedPing(r: PingResult) {
    && r.success.Some? && r.packetLossPercent.Some?
    && r.success.value == (r.packetLossPercent.value < 100)
    && r.minMs.Some? == r.avgMs.Some? == r.maxMs.Some?
    && (r.minMs.Some? ==> IsFloatText(r.minMs.value) && IsFloatText(r.avgMs.value) && IsFloatText(r.maxMs.value))
  }

  /** `_parse_ping_output`. A report whose selected timing captures do not
      convert gives the failure record; otherwise the loss is `PacketLoss`,
      success is "loss below 100" whether or not timing was found, and
      min/avg/max are captures 1 to 3 of the selected timing line. */
  function ParsePingOutput(s: string): (r: PingResult)
    ensures ProbedPing(r)
    ensures TimingMalformed(s) ==> r == PingFailure
    ensures !TimingMalformed(s) ==> r.packetLossPercent == Some(PacketLoss(s))
    ensures !TimingMalformed(s) ==> (r.minMs.Some? <==> SelectedTiming(s).Some?)
    ensures !TimingMalformed(s) && SelectedTiming(s).Some? ==>
      var t := SelectedTiming(s).value;
      r.minMs == Some(t.min) && r.avgMs == Some(t.avg) && r.maxMs == Some(t.max)
  {
    var loss := PacketLoss(s);
    match SelectedTiming(s)
    case None => PingResult(Some(loss < 100), None, None, None, Some(loss))
    case Some(t) =>
      if IsFloatText(t.min) && IsFloatText(t.avg) && IsFloatText(t.max) then
        PingResult(Some(loss < 100), Some(t.avg), Some(t.min), Some(t.max), Some(loss))
      else
        PingFailure
  }

  // ---------------------------------------------------------------------
  // Reports without a loss line or a timing line

  /** Without a `%` there is no loss line, and the loss reads as 0. */
  lemma {:induction false} NoPercentNoLoss(s: string)
    requires forall k :: 0 <= k < |s| ==> s[k] != '%'
    ensures FindLoss(s, 0).None? && PacketLoss(s) == 0
  {
    forall k | 0 <= k < |s| ensures !LossMatchAt(s, k) {
      var e := RunEnd(s, k, IsDigit);
      if e + |LossSuffix| <= |s| {
        assert s[e..e + |LossSuffix|][0] == s[e] != LossSuffix[0];
      }
    }
    FindLossSkips(s, 0, |s|);
  }

  /** Both timing patterns contain `=`: without one there is no timing. */
  lemma {:induction false} NoEqualsNoTiming(s: string)
    requires forall k :: 0 <= k < |s| ==> s[k] != '='
    ensures SelectedTiming(s).None?
  {
    forall k | 0 <= k <= |s|
      ensures !LiteralAt(s, k, FullTimingPrefix) && !LiteralAt(s, k, ShortTimingPrefix)
    {
      if k + 21 <= |s| {
        assert s[k..k + 21][19] == s[k + 19] != FullTimingPrefix[19];
      }
      if k + 2 <= |s| {
        assert s[k..k + 2][0] == s[k] != ShortTimingPrefix[0];
      }
    }
    FindTimingSkips(s, 0, |s|, FullTimingPrefix);
    FindTimingSkips(s, 0, |s|, ShortTimingPrefix);
  }

  /** Text with neither a loss line nor a timing line (an error message, say)
      reads as a reachable host with no loss: the loss defaults to 0, and
      success depends on nothing else. */
  lemma NoReportCountsAsReachable(s: string)
    requires forall k :: 0 <= k < |s| ==> s[k] != '%' && s[k] != '='
    ensures ParsePingOutput(s) == PingResult(Some(true), None, None, None, Some(0))
  {
    NoPercentNoLoss(s);
    NoEqualsNoTiming(s);
  }

  // ---------------------------------------------------------------------
  // Sample reports. Each is written as a concatenation of the pieces the
  // patterns see, so that positions in it can be named.

  /** Summary lines whose timing line carries the `min/avg/max/stddev`
      label the first pattern looks for. */
  const StddevSample := "3 packets transmitted, 3 received, " + ("0" + LossSuffix + "\nrtt " + FullTimingPrefix
    + ("10.0" + "/" + "12.5" + "/" + "15.0" + "/" + "1.2" + " ms"))

  /** Before the loss line the only digits are the two counts, and neither
      is followed by `% packet loss`. */
  lemma StddevSampleNoEarlierLoss(s: string)
    requires s == StddevSample
    ensures |s| == 96 && forall k :: 0 <= k < 35 ==> !LossMatchAt(s, k)
  {
    assert forall k :: 0 <= k < 35 && k != 0 && k != 23 ==> !IsDigit(s[k]);
    assert s[1] == ' ' && s[24] == ' ';
    RunEndExact(s, 0, 1, IsDigit);
    RunEndExact(s, 23, 24, IsDigit);
  }

  lemma StddevSampleLoss(s: string)
    requires s == StddevSample
    ensures PacketLoss(s) == 0
  {
    StddevSampleNoEarlierLoss(s);
    LiteralAtByChars(s, 36, LossSuffix);
    FirstLossAt(s, 35, 36);
    assert s[35..36] == [s[35]] == "0";
  }

  lemma StddevSampleGroups(s: string)
    requires s == StddevSample
    ensures GroupsFrom(s, 75) == Some(Ends(79, 84, 89, 93))
  {
    LiteralAtByChars(s, 79, "/");
    LiteralAtByChars(s, 84, "/");
    LiteralAtByChars(s, 89, "/");
    LiteralAtByChars(s, 93, " ms");
    GroupsFromExact(s, 75, Ends(79, 84, 89, 93));
  }

  lemma StddevSampleTimingLine(s: string)
    requires s == StddevSample
    ensures TimingAt(s, 54, FullTimingPrefix) == Some(TimingText("10.0", "12.5", "15.0", "1.2"))
  {
    StddevSampleGroups(s);
    LiteralAtByChars(s, 54, FullTimingPrefix);
    StddevSampleNumbers(s);
  }

  lemma StddevSampleNumbers(s: string)
    requires s == StddevSample
    ensures |s| == 96 && s[75..79] == "10.0" && s[80..84] == "12.5" && s[85..89] == "15.0" && s[90..93] == "1.2"
  {
    LiteralAtByChars(s, 75, "10.0");
    LiteralAtByChars(s, 80, "12.5");
    LiteralAtByChars(s, 85, "15.0");
    LiteralAtByChars(s, 90, "1.2");
  }

  /** The only `m` before the rtt line, in "transmitted", is not followed by "in/". */
  lemma StddevSampleNoEarlierTiming(s: string)
    requires s == StddevSample
    ensures forall k :: 0 <= k < 54 ==> !LiteralAt(s, k, FullTimingPrefix)
  {
    forall k | 0 <= k < 54 ensures !LiteralAt(s, k, FullTimingPrefix) {
      assert s[k] != 'm' || s[k + 2] != 'n';
      assert s[k..k + 21][0] == s[k] && s[k..k + 21][2] == s[k + 2];
    }
  }

  lemma StddevSampleTiming(s: string)
    requires s == StddevSample
    ensures SelectedTiming(s) == Some(TimingText("10.0", "12.5", "15.0", "1.2"))
  {
    StddevSampleTimingLine(s);
    StddevSampleNoEarlierTiming(s);
    FindTimingSkips(s, 0, 54, FullTimingPrefix);
  }

  /** A full report: 0 percent loss, and min/avg/max from the labelled line. */
  lemma StddevSampleParses()
    ensures ParsePingOutput(StddevSample) == PingResult(Some(true), Some("12.5"), Some("10.0"), Some("15.0"), Some(0))
  {
    StddevSampleLoss(StddevSample);
    StddevSampleTiming(StddevSample);
    assert Count("10.0", '.') == 1 by {
      assert "10.0"[1..] == "0.0" && "0.0"[1..] == ".0" && ".0"[1..] == "0" && "0"[1..] == "";
    }
    assert IsFloatText("10.0") && IsFloatText("12.5") && IsFloatText("15.0");
  }

  /** The summary lines of a Linux (iputils) `ping -c 3` run. Its timing
      line is labelled `min/avg/max/mdev`, so only the bare `= ` pattern
      finds it. */
  const LinuxSample := LinuxCounts + LinuxLoss + LinuxLabel + ShortTimingPrefix + LinuxNumbers

  const LinuxCounts := "3 packets transmitted, 3 received, "
  const LinuxLoss := "0" + LossSuffix + ", time 2003ms\n"
  const LinuxLabel := "rtt min/avg/max/mdev "
  const LinuxNumbers := "10.0" + "/" + "12.5" + "/" + "15.0" + "/" + "1.2" + " ms"

  predicate NoEquals(t: string) {
    forall k :: 0 <= k < |t| ==> t[k] != '='
  }

  lemma LinuxPiecesNoEquals()
    ensures NoEquals(LinuxCounts) && NoEquals(LinuxLoss) && NoEquals(LinuxLabel) && NoEquals(LinuxNumbers)
  {
  }

  lemma LinuxSampleNoEarlierLoss(s: string)
    requires s == LinuxSample
    ensures |s| == 107 && forall k :: 0 <= k < 35 ==> !LossMatchAt(s, k)
  {
    assert forall k :: 0 <= k < 35 && k != 0 && k != 23 ==> !IsDigit(s[k]);
    assert s[1] == ' ' && s[24] == ' ';
    RunEndExact(s, 0, 1, IsDigit);
    RunEndExact(s, 23, 24, IsDigit);
  }

  lemma LinuxSampleLoss(s: string)
    requires s == LinuxSample
    ensures PacketLoss(s) == 0
  {
    LinuxSampleNoEarlierLoss(s);
    LiteralAtByChars(s, 36, LossSuffix);
    FirstLossAt(s, 35, 36);
    assert s[35..36] == [s[35]] == "0";
  }

  /** The report's only `=` is the one after `mdev`. */
  lemma LinuxSampleOneEquals(s: string)
    requires s == LinuxSample
    ensures |s| == 107 && s[84] == '=' && s[65] == 't'
    ensures forall k :: 0 <= k < |s| && k != 84 ==> s[k] != '='
  {
    LinuxPiecesNoEquals();
    var head := LinuxCounts + LinuxLoss + LinuxLabel;
    assert |head| == 84 && s == head + ShortTimingPrefix + LinuxNumbers;
    forall k | 0 <= k < |s| && k != 84 ensures s[k] != '=' {
      if k < 35 {
        assert s[k] == LinuxCounts[k];
      } else if k < 63 {
        assert s[k] == LinuxLoss[k - 35];
      } else if k < 84 {
        assert s[k] == LinuxLabel[k - 63];
      } else if k == 85 {
        assert s[k] == ' ';
      } else {
        assert s[k] == LinuxNumbers[k - 86];
      }
    }
  }

  /** The labelled pattern matches nowhere: its `=` could only be the one at
      84, and the text 19 characters before it is not `min/`. */
  lemma LinuxSampleNoFullTiming(s: string)
    requires s == LinuxSample
    ensures FindTiming(s, 0, FullTimingPrefix).None?
  {
    LinuxSampleOneEquals(s);
    forall k | 0 <= k < |s| ensures !LiteralAt(s, k, FullTimingPrefix) {
      if k + 21 <= |s| {
        assert s[k..k + 21][19] == s[k + 19] && s[k..k + 21][0] == s[k];
      }
    }
    FindTimingSkips(s, 0, |s|, FullTimingPrefix);
  }

  lemma LinuxSampleGroups(s: string)
    requires s == LinuxSample
    ensures GroupsFrom(s, 86) == Some(Ends(90, 95, 100, 104))
  {
    LiteralAtByChars(s, 90, "/");
    LiteralAtByChars(s, 95, "/");
    LiteralAtByChars(s, 100, "/");
    LiteralAtByChars(s, 104, " ms");
    GroupsFromExact(s, 86, Ends(90, 95, 100, 104));
  }

  lemma LinuxSampleNumbers(s: string)
    requires s == LinuxSample
    ensures |s| == 107 && s[86..90] == "10.0" && s[91..95] == "12.5" && s[96..100] == "15.0" && s[101..104] == "1.2"
  {
    LiteralAtByChars(s, 86, "10.0");
    LiteralAtByChars(s, 91, "12.5");
    LiteralAtByChars(s, 96, "15.0");
    LiteralAtByChars(s, 101, "1.2");
  }

  lemma LinuxSampleTimingLine(s: string)
    requires s == LinuxSample
    ensures TimingAt(s, 84, ShortTimingPrefix) == Some(TimingText("10.0", "12.5", "15.0", "1.2"))
  {
    LinuxSampleGroups(s);
    LiteralAtByChars(s, 84, ShortTimingPrefix);
    LinuxSampleNumbers(s);
  }

  /** The fallback pattern reads the same captures from the `mdev` line
      that the labelled pattern reads from a `stddev` line. */
  lemma LinuxSampleTiming(s: string)
    requires s == LinuxSample
    ensures SelectedTiming(s) == Some(TimingText("10.0", "12.5", "15.0", "1.2"))
  {
    LinuxSampleNoFullTiming(s);
    LinuxSampleTimingLine(s);
    LinuxSampleOneEquals(s);
    forall k | 0 <= k < 84 ensures !LiteralAt(s, k, ShortTimingPrefix) {
      assert s[k..k + 2][0] == s[k];
    }
    FindTimingSkips(s, 0, 84, ShortTimingPrefix);
  }

  /** A Linux report parses as the `stddev` one does: the fallback gives the
      same min/avg/max and the same loss. */
  lemma LinuxSampleParses()
    ensures ParsePingOutput(LinuxSample) == PingResult(Some(true), Some("12.5"), Some("10.0"), Some("15.0"), Some(0))
    ensures ParsePingOutput(LinuxSample) == ParsePingOutput(StddevSample)
  {
    LinuxSampleLoss(LinuxSample);
    LinuxSampleTiming(LinuxSample);
    StddevSampleParses();
    assert Count("10.0", '.') == 1 by {
      assert "10.0"[1..] == "0.0" && "0.0"[1..] == ".0" && ".0"[1..] == "0" && "0"[1..] == "";
    }
    assert IsFloatText("10.0") && IsFloatText("12.5") && IsFloatText("15.0");
  }

  /** Every probe lost: the summary lines of a run with no replies. */
  const LostSample := "3 packets transmitted, 0 received, " + ("100" + LossSuffix + ", time 2031ms")

  lemma LostSampleNoEarlierLoss(s: string)
    requires s == LostSample
    ensures |s| == 64 && forall k :: 0 <= k < 35 ==> !LossMatchAt(s, k)
  {
    assert forall k :: 0 <= k < 35 && k != 0 && k != 23 ==> !IsDigit(s[k]);
    assert s[1] == ' ' && s[24] == ' ';
    RunEndExact(s, 0, 1, IsDigit);
    RunEndExact(s, 23, 24, IsDigit);
  }

  lemma LostSampleCapture(s: string)
    requires s == LostSample
    ensures LossCapture(s) == Some("100")
  {
    LostSampleNoEarlierLoss(s);
    LiteralAtByChars(s, 38, LossSuffix);
    LiteralAtByChars(s, 35, "100");
    FirstLossAt(s, 35, 38);
  }

  lemma LostSampleLoss(s: string)
    requires s == LostSample
    ensures PacketLoss(s) == 100
  {
    LostSampleCapture(s);
    assert "100"[..2] == "10" && "10"[..1] == "1" && "1"[..0] == "";
  }

  /** A loss line with no timing line: unreachable, 100 percent loss, no timings. */
  lemma LostSampleTiming(s: string)
    requires s == LostSample
    ensures SelectedTiming(s).None?
  {
    assert forall k :: 0 <= k < |s| ==> s[k] != '=';
    NoEqualsNoTiming(s);
  }

  lemma LostSampleParses()
    ensures ParsePingOutput(LostSample) == PingResult(Some(false), None, None, None, Some(100))
  {
    LostSampleLoss(LostSample);
    LostSampleTiming(LostSample);
  }

  /** A loss percentage written with a decimal point. */
  const DecimalLossSample := "100." + ("0" + LossSuffix)

  /** `\d+%` only sees the digits after the point: `100.0% packet loss`
      reads as 0 percent loss, and so as a reachable host. */
  lemma DecimalLossSampleParses()
    ensures ParsePingOutput(DecimalLossSample) == PingResult(Some(true), None, None, None, Some(0))
  {
    DecimalLossSampleLoss(DecimalLossSample);
    assert forall k :: 0 <= k < |DecimalLossSample| ==> DecimalLossSample[k] != '=';
    NoEqualsNoTiming(DecimalLossSample);
  }

  lemma DecimalLossSampleLoss(s: string)
    requires s == DecimalLossSample
    ensures PacketLoss(s) == 0
  {
    DecimalLossSampleNoEarlierLoss(s);
    LiteralAtByChars(s, 5, LossSuffix);
    FirstLossAt(s, 4, 5);
    assert s[4..5] == [s[4]] == "0";
  }

  /** The digits before the point are followed by `.`, not by the literal. */
  lemma DecimalLossSampleNoEarlierLoss(s: string)
    requires s == DecimalLossSample
    ensures |s| == 18 && IsDigit(s[4])
    ensures forall k :: 0 <= k < 4 ==> !LossMatchAt(s, k)
  {
    assert |s| == 18 && s[3] == '.' && !IsDigit(s[3]);
    assert !LiteralAt(s, 3, LossSuffix) by {
      assert s[3..16][0] == s[3];
    }
    RunEndExact(s, 0, 3, IsDigit);
    RunEndExact(s, 1, 3, IsDigit);
    RunEndExact(s, 2, 3, IsDigit);
  }

  /** A timing line whose minimum has two decimal points. */
  const MalformedSample := FullTimingPrefix + ("1.2.3" + "/" + "4" + "/" + "5" + "/" + "6" + " ms")

  lemma MalformedSampleGroups(s: string)
    requires s == MalformedSample
    ensures GroupsFrom(s, 21) == Some(Ends(26, 28, 30, 32))
  {
    LiteralAtByChars(s, 26, "/");
    LiteralAtByChars(s, 28, "/");
    LiteralAtByChars(s, 30, "/");
    LiteralAtByChars(s, 32, " ms");
    GroupsFromExact(s, 21, Ends(26, 28, 30, 32));
  }

  lemma MalformedSampleTiming(s: string)
    requires s == MalformedSample
    ensures SelectedTiming(s) == Some(TimingText("1.2.3", "4", "5", "6"))
  {
    MalformedSampleGroups(s);
    LiteralAtByChars(s, 0, FullTimingPrefix);
    LiteralAtByChars(s, 21, "1.2.3");
    LiteralAtByChars(s, 27, "4");
    LiteralAtByChars(s, 29, "5");
    LiteralAtByChars(s, 31, "6");
  }

  /** `float("1.2.3")` raises, and the parser answers with the failure record. */
  lemma MalformedSampleParses()
    ensures ParsePingOutput(MalformedSample) == PingFailure
  {
    MalformedSampleTiming(MalformedSample);
    assert Count("1.2.3", '.') == 2 by {
      assert "1.2.3"[1..] == ".2.3" && ".2.3"[1..] == "2.3" && "2.3"[1..] == ".3";
      assert ".3"[1..] == "3" && "3"[1..] == "";
    }
  }

  /** A timing line whose standard deviation has two decimal points. */
  const OddDeviationSample := FullTimingPrefix + ("1.0" + "/" + "2.0" + "/" + "3.0" + "/" + "4.5.6" + " ms")

  lemma OddDeviationSampleGroups(s: string)
    requires s == OddDeviationSample
    ensures GroupsFrom(s, 21) == Some(Ends(24, 28, 32, 38))
  {
    LiteralAtByChars(s, 24, "/");
    LiteralAtByChars(s, 28, "/");
    LiteralAtByChars(s, 32, "/");
    LiteralAtByChars(s, 38, " ms");
    GroupsFromExact(s, 21, Ends(24, 28, 32, 38));
  }

  lemma OddDeviationSampleTiming(s: string)
    requires s == OddDeviationSample
    ensures SelectedTiming(s) == Some(TimingText("1.0", "2.0", "3.0", "4.5.6"))
  {
    OddDeviationSampleTimingLine(s);
    assert FindTiming(s, 0, FullTimingPrefix) == Some(0);
  }

  lemma OddDeviationSampleTimingLine(s: string)
    requires s == OddDeviationSample
    ensures TimingAt(s, 0, FullTimingPrefix) == Some(TimingText("1.0", "2.0", "3.0", "4.5.6"))
  {
    OddDeviationSampleGroups(s);
    LiteralAtByChars(s, 0, FullTimingPrefix);
    OddDeviationSampleNumbers(s);
  }

  lemma OddDeviationSampleNumbers(s: string)
    requires s == OddDeviationSample
    ensures |s| == 41 && s[21..24] == "1.0" && s[25..28] == "2.0" && s[29..32] == "3.0" && s[33..38] == "4.5.6"
  {
    LiteralAtByChars(s, 21, "1.0");
    LiteralAtByChars(s, 25, "2.0");
    LiteralAtByChars(s, 29, "3.0");
    LiteralAtByChars(s, 33, "4.5.6");
  }

  lemma OddDeviationSampleLoss(s: string)
    requires s == OddDeviationSample
    ensures PacketLoss(s) == 0
  {
    assert forall k :: 0 <= k < |s| ==> s[k] != '%';
    NoPercentNoLoss(s);
  }

  /** The stddev capture is never converted, so a malformed one is harmless;
      with no loss line the loss reads as 0. */
  lemma OddDeviationSampleParses()
    ensures ParsePingOutput(OddDeviationSample) == PingResult(Some(true), Some("2.0"), Some("1.0"), Some("3.0"), Some(0))
  {
    OddDeviationSampleTiming(OddDeviationSample);
    OddDeviationSampleLoss(OddDeviationSample);
    assert Count("1.0", '.') == 1 by {
      assert "1.0"[1..] == ".0" && ".0"[1..] == "0" && "0"[1..] == "";
    }
    assert IsFloatText("1.0") && IsFloatText("2.0") && IsFloatText("3.0");
  }
}
