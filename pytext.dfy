/** Python string and dictionary semantics that the monitor, the validator
    and the storage layer all rely on: `str.strip()`, truthiness of an
    optional string, and the difference between `d.get(k)` and `d[k]`. */
module PyText {
  import opened Wrappers

  /** One key of a configuration dictionary: the key may be missing, map to
      `None`, or map to a string. */
  datatype Entry = Absent | Null | Str(s: string)

  /** `d.get(key)`: a missing key and an explicit `None` both read as `None`. */
  function Get(e: Entry): (r: Option<string>)
    ensures r.Some? <==> e.Str?
    ensures r.Some? ==> r.value == e.s
  {
    match e
    case Str(s) => Some(s)
    case _ => None
  }

  /** One boolean key of a configuration dictionary. */
  datatype Flag = FlagAbsent | FlagNull | FlagValue(b: bool)

  /** `d.get(key, default)`: the default stands in only for a missing key. */
  function GetFlag(f: Flag, default: bool): (r: Option<bool>)
    ensures f.FlagAbsent? ==> r == Some(default)
    ensures f.FlagNull? ==> r.None?
    ensures f.FlagValue? ==> r == Some(f.b)
  {
    match f
    case FlagAbsent => Some(default)
    case FlagNull => None
    case FlagValue(b) => Some(b)
  }

  /** Truthiness of `d.get(key, default)`. */
  predicate FlagOn(f: Flag, default: bool) {
    GetFlag(f, default) == Some(true)
  }

  /** Truthiness of `d.get(key)`: a string that is present and non-empty. */
  predicate Truthy(e: Entry) {
    e.Str? && e.s != ""
  }

  /** The characters for which Python's `str.isspace()` holds; `str.strip()`
      with no argument removes exactly these. */
  predicate IsSpace(c: char) {
    c == ' ' || ('\t' <= c <= '\r') || ('\U{1c}' <= c <= '\U{1f}')
    || c == '\U{85}' || c == '\U{a0}' || c == '\U{1680}'
    || ('\U{2000}' <= c <= '\U{200a}') || c == '\U{2028}' || c == '\U{2029}'
    || c == '\U{202f}' || c == '\U{205f}' || c == '\U{3000}'
  }

  /** Every character is whitespace (the empty string included). */
  predicate IsBlank(s: string) {
    forall i :: 0 <= i < |s| ==> IsSpace(s[i])
  }

  /** Index of the first non-whitespace character of `s` at or after `i`
      (`|s|` when there is none): where `str.lstrip()` starts. */
  function SkipSpace(s: string, i: nat): (k: nat)
    requires i <= |s|
    ensures i <= k <= |s|
    ensures forall j :: i <= j < k ==> IsSpace(s[j])
    ensures k == |s| || !IsSpace(s[k])
    decreases |s| - i
  {
    if i < |s| && IsSpace(s[i]) then SkipSpace(s, i + 1) else i
  }

  /** The end of `s[lo..hi]` once trailing whitespace is cut off: where
      `str.rstrip()` stops. */
  function TrimEnd(s: string, lo: nat, hi: nat): (k: nat)
    requires lo <= hi <= |s|
    ensures lo <= k <= hi
    ensures forall j :: k <= j < hi ==> IsSpace(s[j])
    ensures k == lo || !IsSpace(s[k - 1])
    decreases hi
  {
    if lo < hi && IsSpace(s[hi - 1]) then TrimEnd(s, lo, hi - 1) else hi
  }

  /** Where the text kept by `s.strip()` starts in `s`. */
  function StripStart(s: string): nat
    ensures StripStart(s) <= |s|
  {
    SkipSpace(s, 0)
  }

  /** `s.strip()`: `s` with the leading and trailing whitespace removed. It is
      a contiguous piece of `s`, everything cut away is whitespace, it neither
      starts nor ends with whitespace, and it is empty exactly when `s` is blank. */
  function Strip(s: string): (r: string)
    ensures StripStart(s) + |r| <= |s|
    ensures r == s[StripStart(s)..StripStart(s) + |r|]
    ensures forall j :: 0 <= j < StripStart(s) ==> IsSpace(s[j])
    ensures forall j :: StripStart(s) + |r| <= j < |s| ==> IsSpace(s[j])
    ensures r == [] || (!IsSpace(r[0]) && !IsSpace(r[|r| - 1]))
    ensures r == [] <==> IsBlank(s)
  {
    var lo := SkipSpace(s, 0);
    var hi := TrimEnd(s, lo, |s|);
    assert lo < hi ==> s[lo..hi][0] == s[lo] && s[lo..hi][hi - lo - 1] == s[hi - 1];
    assert lo == hi ==> IsBlank(s);
    s[lo..hi]
  }

  /** `x and x.strip()` for a dictionary entry: present, a string, and not
      blank. This is what decides whether a probe target is usable. */
  predicate HasText(e: Entry) {
    e.Str? && Strip(e.s) != ""
  }

  /** A usable target is in particular truthy; the converse fails for blank strings. */
  lemma HasTextIsNonBlankString(e: Entry)
    ensures HasText(e) <==> e.Str? && !IsBlank(e.s)
    ensures HasText(e) ==> Truthy(e)
  {
    if e.Str? && e.s == "" {
      assert IsBlank(e.s);
    }
  }

  /** A text that starts and ends with a non-space character is usable and
      stripping leaves it as it is. */
  lemma {:induction false} HasTextByEdges(s: string)
    requires |s| > 0 && !IsSpace(s[0]) && !IsSpace(s[|s| - 1])
    ensures HasText(Str(s)) && Strip(s) == s
  {
    assert SkipSpace(s, 0) == 0 && TrimEnd(s, 0, |s|) == |s|;
    assert s[0..|s|] == s;
    assert !IsBlank(s);
    HasTextIsNonBlankString(Str(s));
  }

  /** Stripping twice is stripping once. */
  lemma StripIdempotent(s: string)
    ensures Strip(Strip(s)) == Strip(s)
  {
    var r := Strip(s);
    if r != [] {
      assert SkipSpace(r, 0) == 0;
      assert TrimEnd(r, 0, |r|) == |r|;
    }
  }
}
