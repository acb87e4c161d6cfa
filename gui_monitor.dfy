/** The monitor dropdown of the configuration window: the options it offers, the map back
    to device names, and the display name of one device. The monitor enumeration and the
    per-monitor resolution queries are inputs: `monitors` is None when the enumeration
    fails, and `current` holds the device names whose query succeeds, with the answer. */
module GuiMonitor {
  import opened Wrappers
  import opened Strings
  import opened Config
  import opened Display
  import opened GuiHelpers

  const PRIMARY_OPTION: string := "Primary Monitor"

  /** The option for the monitor at position `i`: its caption, then " [i+1]" when there is
      more than one monitor, then " - WxH@FHz" when its resolution query succeeds. */
  function OptionName(ms: seq<MonitorInfo>, i: nat, current: map<string, Resolution>): string
    requires i < |ms|
  {
    MonitorLabel(ms[i]) + PositionPart(ms, i) + ResolutionPart(ms, i, current)
  }

  function PositionTag(n: nat): string {
    " [" + DecimalString(n) + "]"
  }

  function ResolutionTag(r: Resolution): string {
    " - " + FormatResolution(r)
  }

  function PositionPart(ms: seq<MonitorInfo>, i: nat): string {
    if |ms| > 1 then PositionTag(i + 1) else ""
  }

  function ResolutionPart(ms: seq<MonitorInfo>, i: nat, current: map<string, Resolution>): string
    requires i < |ms|
  {
    if ms[i].deviceName in current then ResolutionTag(current[ms[i].deviceName]) else ""
  }

  /** The name both `getMonitorOptions` and `getMonitorDisplayName` build for one monitor,
      piece by piece. */
  method BuildOptionName(ms: seq<MonitorInfo>, i: nat, current: map<string, Resolution>)
    returns (displayName: string)
    requires i < |ms|
    ensures displayName == OptionName(ms, i, current)
  {
    displayName := ms[i].deviceString;
    if ms[i].isPrimary {
      displayName := displayName + " (Primary)";
    }
    assert displayName == MonitorLabel(ms[i]);
    ghost var caption := displayName;
    if |ms| > 1 {
      displayName := displayName + PositionTag(i + 1);
    }
    assert displayName == caption + PositionPart(ms, i);
    ghost var withPos := displayName;
    if ms[i].deviceName in current {
      displayName := displayName + ResolutionTag(current[ms[i].deviceName]);
    }
    assert displayName == withPos + ResolutionPart(ms, i, current);
  }

  /** The options for the named monitors among the first `n`, in order. */
  function ListedOptions(ms: seq<MonitorInfo>, current: map<string, Resolution>, n: nat): seq<string>
    requires n <= |ms|
  {
    if n == 0 then []
    else
      ListedOptions(ms, current, n - 1)
      + (if ms[n - 1].deviceName != "" then [OptionName(ms, n - 1, current)] else [])
  }

  /** The option-to-device map after the first `n` monitors. */
  function OptionMap(ms: seq<MonitorInfo>, current: map<string, Resolution>, n: nat): map<string, string>
    requires n <= |ms|
  {
    if n == 0 then map[PRIMARY_OPTION := ""]
    else
      var m := OptionMap(ms, current, n - 1);
      if ms[n - 1].deviceName != "" then m[OptionName(ms, n - 1, current) := ms[n - 1].deviceName] else m
  }

  /** `getMonitorOptions`: "Primary Monitor" (mapped to "") first, then one option per
      monitor with a device name. */
  method GetMonitorOptions(monitors: Option<seq<MonitorInfo>>, current: map<string, Resolution>)
    returns (options: seq<string>, monitorMap: map<string, string>)
    ensures monitors.None? ==> options == [PRIMARY_OPTION] && monitorMap == map[PRIMARY_OPTION := ""]
    ensures monitors.Some? ==>
              && options == [PRIMARY_OPTION] + ListedOptions(monitors.value, current, |monitors.value|)
              && monitorMap == OptionMap(monitors.value, current, |monitors.value|)
  {
    options := [PRIMARY_OPTION];
    monitorMap := map[PRIMARY_OPTION := ""];
    if monitors.None? {
      return;
    }
    var ms := monitors.value;
    for i := 0 to |ms|
      invariant options == [PRIMARY_OPTION] + ListedOptions(ms, current, i)
      invariant monitorMap == OptionMap(ms, current, i)
    {
      if ms[i].deviceName != "" {
        var displayName := BuildOptionName(ms, i, current);
        assert ListedOptions(ms, current, i + 1) == ListedOptions(ms, current, i) + [displayName];
        assert OptionMap(ms, current, i + 1) == OptionMap(ms, current, i)[displayName := ms[i].deviceName];
        options := options + [displayName];
        monitorMap := monitorMap[displayName := ms[i].deviceName];
      } else {
        assert ListedOptions(ms, current, i + 1) == ListedOptions(ms, current, i);
        assert OptionMap(ms, current, i + 1) == OptionMap(ms, current, i);
      }
    }
  }

  /** An option is listed exactly when some named monitor produces it. */
  lemma {:induction false} ListedOptionsMembers(ms: seq<MonitorInfo>, current: map<string, Resolution>, n: nat, x: string)
    requires n <= |ms|
    ensures x in ListedOptions(ms, current, n) <==>
            exists i :: 0 <= i < n && ms[i].deviceName != "" && OptionName(ms, i, current) == x
  {
    if n > 0 {
      var prev := ListedOptions(ms, current, n - 1);
      ListedOptionsMembers(ms, current, n - 1, x);
      if ms[n - 1].deviceName != "" {
        assert ListedOptions(ms, current, n) == prev + [OptionName(ms, n - 1, current)];
      } else {
        assert ListedOptions(ms, current, n) == prev;
      }
      if x in ListedOptions(ms, current, n) && x !in prev {
        assert ms[n - 1].deviceName != "" && OptionName(ms, n - 1, current) == x;
      }
      if x !in ListedOptions(ms, current, n) {
        forall i | 0 <= i < n && ms[i].deviceName != ""
          ensures OptionName(ms, i, current) != x
        {
          if i == n - 1 {
            assert OptionName(ms, n - 1, current) in ListedOptions(ms, current, n);
          }
        }
      }
    }
  }

  /** One option per named monitor. */
  lemma {:induction false} ListedOptionsCount(ms: seq<MonitorInfo>, current: map<string, Resolution>, n: nat)
    requires n <= |ms|
    ensures |ListedOptions(ms, current, n)| <= n
    ensures (forall i :: 0 <= i < n ==> ms[i].deviceName != "") ==> |ListedOptions(ms, current, n)| == n
  {
    if n > 0 {
      ListedOptionsCount(ms, current, n - 1);
    }
  }

  /** The map's keys are "Primary Monitor" and the listed options, and an option maps to the
      device of the last named monitor that produced it. */
  lemma {:induction false} OptionMapLookup(ms: seq<MonitorInfo>, current: map<string, Resolution>, n: nat, i: nat)
    requires i < n <= |ms| && ms[i].deviceName != ""
    requires forall j :: i < j < n && ms[j].deviceName != "" ==> OptionName(ms, j, current) != OptionName(ms, i, current)
    ensures OptionName(ms, i, current) in OptionMap(ms, current, n)
    ensures OptionMap(ms, current, n)[OptionName(ms, i, current)] == ms[i].deviceName
  {
    if n - 1 != i {
      OptionMapLookup(ms, current, n - 1, i);
    }
  }

  lemma {:induction false} OptionMapKeys(ms: seq<MonitorInfo>, current: map<string, Resolution>, n: nat, x: string)
    requires n <= |ms|
    ensures x in OptionMap(ms, current, n) <==> x == PRIMARY_OPTION || x in ListedOptions(ms, current, n)
  {
    if n > 0 {
      OptionMapKeys(ms, current, n - 1, x);
    }
  }

  /** The first monitor at position `k` or later with device name `d`. */
  function FirstNamed(ms: seq<MonitorInfo>, d: string, k: nat): (r: Option<nat>)
    requires k <= |ms|
    ensures r.Some? ==> k <= r.value < |ms| && ms[r.value].deviceName == d
                        && forall j :: k <= j < r.value ==> ms[j].deviceName != d
    ensures r.None? ==> forall j :: k <= j < |ms| ==> ms[j].deviceName != d
    decreases |ms| - k
  {
    if k == |ms| then None
    else if ms[k].deviceName == d then Some(k)
    else FirstNamed(ms, d, k + 1)
  }

  /** `getMonitorDisplayName` over the same enumeration and resolution answers. */
  function MonitorDisplayName(monitors: Option<seq<MonitorInfo>>, current: map<string, Resolution>, deviceName: string): string {
    if deviceName == "" then PRIMARY_OPTION
    else if monitors.None? then deviceName
    else
      match FirstNamed(monitors.value, deviceName, 0)
      case Some(i) => OptionName(monitors.value, i, current)
      case None => deviceName
  }

  /** `getMonitorDisplayName`: a search with an early return that builds the name of the
      first monitor with that device name. */
  method GetMonitorDisplayName(monitors: Option<seq<MonitorInfo>>, current: map<string, Resolution>, deviceName: string)
    returns (r: string)
    ensures r == MonitorDisplayName(monitors, current, deviceName)
  {
    if deviceName == "" {
      return PRIMARY_OPTION;
    }
    if monitors.None? {
      return deviceName;
    }
    var ms := monitors.value;
    for i := 0 to |ms|
      invariant forall j :: 0 <= j < i ==> ms[j].deviceName != deviceName
    {
      if ms[i].deviceName == deviceName {
        var displayName := BuildOptionName(ms, i, current);
        assert FirstNamed(ms, deviceName, 0) == Some(i);
        return displayName;
      }
    }
    return deviceName;
  }

  /** The display name of a known device is exactly the option the dropdown lists for it,
      and, unless a later monitor produces the same text, the dropdown's map sends that
      option back to the device. */
  lemma DisplayNameIsOption(ms: seq<MonitorInfo>, current: map<string, Resolution>, i: nat)
    requires i < |ms| && ms[i].deviceName != ""
    requires forall j :: 0 <= j < i ==> ms[j].deviceName != ms[i].deviceName
    requires forall j :: i < j < |ms| && ms[j].deviceName != "" ==> OptionName(ms, j, current) != OptionName(ms, i, current)
    ensures MonitorDisplayName(Some(ms), current, ms[i].deviceName) == OptionName(ms, i, current)
    ensures OptionName(ms, i, current) in ListedOptions(ms, current, |ms|)
    ensures OptionName(ms, i, current) in OptionMap(ms, current, |ms|)
    ensures OptionMap(ms, current, |ms|)[OptionName(ms, i, current)] == ms[i].deviceName
  {
    assert FirstNamed(ms, ms[i].deviceName, 0) == Some(i);
    ListedOptionsMembers(ms, current, |ms|, OptionName(ms, i, current));
    OptionMapLookup(ms, current, |ms|, i);
  }

  /** The empty device name is shown as "Primary Monitor"; a failed enumeration or an
      unknown device shows the device name itself. */
  lemma MonitorDisplayNameFallbacks(monitors: Option<seq<MonitorInfo>>, current: map<string, Resolution>, d: string)
    ensures MonitorDisplayName(monitors, current, "") == PRIMARY_OPTION
    ensures d != "" && monitors.None? ==> MonitorDisplayName(monitors, current, d) == d
    ensures d != "" && monitors.Some? && (forall j :: 0 <= j < |monitors.value| ==> monitors.value[j].deviceName != d) ==>
              MonitorDisplayName(monitors, current, d) == d
  {
  }

  /** No occurrence of a separator that starts with a space can begin where the text has
      no more spaces. */
  lemma NoSpaceNoOccurrence(s: string, sub: string, k: nat)
    requires |sub| >= 1 && sub[0] == ' '
    requires forall j :: k <= j < |s| ==> s[j] != ' '
    ensures forall j :: k <= j ==> !OccursAt(s, sub, j)
  {
    forall j | k <= j
      ensures !OccursAt(s, sub, j)
    {
      if j + |sub| <= |s| {
        assert s[j..j + |sub|][0] == s[j];
      }
    }
  }

  /** The last occurrence is the one after which there is none. */
  lemma LastIndexIs(s: string, sub: string, k: int)
    requires OccursAt(s, sub, k)
    requires forall j :: k < j ==> !OccursAt(s, sub, j)
    ensures LastIndexOf(s, sub) == k
  {
    assert Contains(s, sub);
  }

  lemma FormatResolutionChars(r: Resolution)
    ensures ' ' !in FormatResolution(r) && '-' !in FormatResolution(r)
  {
    DigitsHaveNo(DecimalString(r.width), ' ');
    DigitsHaveNo(DecimalString(r.height), ' ');
    DigitsHaveNo(DecimalString(r.frequency), ' ');
    DigitsHaveNo(DecimalString(r.width), '-');
    DigitsHaveNo(DecimalString(r.height), '-');
    DigitsHaveNo(DecimalString(r.frequency), '-');
  }

  /** Stripping the last " - …" removes the resolution suffix. */
  lemma StripResolutionTag(p: string, r: Resolution)
    ensures StripLast(p + ResolutionTag(r), " - ") == p
  {
    var f := FormatResolution(r);
    var s := p + ResolutionTag(r);
    assert s == p + " - " + f;
    FormatResolutionChars(r);
    assert OccursAt(s, " - ", |p|) by {
      assert s[|p|..|p| + 3] == " - ";
    }
    NoSpaceNoOccurrence(s, " - ", |p| + 3);
    forall j | |p| < j < |p| + 3
      ensures !OccursAt(s, " - ", j)
    {
      if j + 3 <= |s| {
        assert s[j..j + 3][1] == s[j + 1];
        assert s[j + 1] == '-' ==> j + 1 < |p| + 3;
      }
    }
    LastIndexIs(s, " - ", |p|);
    assert s[..|p|] == p;
  }

  /** Stripping the last " […" removes the position suffix. */
  lemma StripPositionTag(p: string, n: nat)
    ensures StripLast(p + PositionTag(n), " [") == p
  {
    var s := p + PositionTag(n);
    assert s == p + " [" + DecimalString(n) + "]";
    DigitsHaveNo(DecimalString(n), ' ');
    assert OccursAt(s, " [", |p|) by {
      assert s[|p|..|p| + 2] == " [";
    }
    NoSpaceNoOccurrence(s, " [", |p| + 1);
    LastIndexIs(s, " [", |p|);
    assert s[..|p|] == p;
  }

  /** With a position suffix but no resolution, there is no " - " to strip. */
  lemma NoDashInPosition(caption: string, n: nat)
    requires !Contains(caption + " ", " - ")
    ensures !Contains(caption + PositionTag(n), " - ")
  {
    var s := caption + PositionTag(n);
    assert s == caption + " [" + DecimalString(n) + "]";
    DigitsHaveNo(DecimalString(n), ' ');
    NoSpaceNoOccurrence(s, " - ", |caption| + 1);
    forall j | 0 <= j <= |caption|
      ensures !OccursAt(s, " - ", j)
    {
      if j + 3 <= |caption| + 1 {
        assert s[j..j + 3] == (caption + " ")[j..j + 3];
        assert !OccursAt(caption + " ", " - ", j);
      } else if j + 3 <= |s| {
        assert s[j..j + 3][1] == s[j + 1];
      }
    }
  }

  /** A caption without " - " (and not ending in " -") and without " [". */
  predicate PlainCaption(caption: string) {
    !Contains(caption + " ", " - ") && !Contains(caption, " [")
  }

  lemma PlainCaptionHasNoDash(caption: string)
    requires PlainCaption(caption)
    ensures !Contains(caption, " - ")
  {
    forall j | 0 <= j <= |caption| - 3
      ensures !OccursAt(caption, " - ", j)
    {
      assert caption[j..j + 3] == (caption + " ")[j..j + 3];
      assert !OccursAt(caption + " ", " - ", j);
    }
  }

  /** Cleaning an option's text gives back the monitor's caption. */
  lemma CleanOptionName(ms: seq<MonitorInfo>, current: map<string, Resolution>, i: nat)
    requires i < |ms| && PlainCaption(MonitorLabel(ms[i]))
    ensures CleanDisplayName(OptionName(ms, i, current)) == MonitorLabel(ms[i])
  {
    var caption := MonitorLabel(ms[i]);
    var withPos := caption + PositionPart(ms, i);
    PlainCaptionHasNoDash(caption);
    if |ms| > 1 {
      NoDashInPosition(caption, i + 1);
      StripPositionTag(caption, i + 1);
    } else {
      assert withPos == caption;
    }
    assert StripLast(withPos, " [") == caption;
    if ms[i].deviceName in current {
      StripResolutionTag(withPos, current[ms[i].deviceName]);
      assert OptionName(ms, i, current) == withPos + ResolutionTag(current[ms[i].deviceName]);
    } else {
      assert OptionName(ms, i, current) == withPos;
    }
    assert StripLast(OptionName(ms, i, current), " - ") == withPos;
  }

  /** An option other than "Primary Monitor" itself is never read as the primary monitor. */
  lemma OptionNameNotPrimary(ms: seq<MonitorInfo>, current: map<string, Resolution>, i: nat)
    requires i < |ms| && MonitorLabel(ms[i]) != PRIMARY_OPTION
    ensures OptionName(ms, i, current) != PRIMARY_OPTION
  {
    var caption := MonitorLabel(ms[i]);
    var pos := PositionPart(ms, i);
    var res := ResolutionPart(ms, i, current);
    var name := OptionName(ms, i, current);
    assert name == caption + pos + res;
    assert '[' !in PRIMARY_OPTION && '-' !in PRIMARY_OPTION;
    if pos != [] {
      assert pos == " [" + DecimalString(i + 1) + "]";
      assert name[|caption| + 1] == pos[1] == '[';
    } else if res != [] {
      assert res == " - " + FormatResolution(current[ms[i].deviceName]);
      assert name == caption + res;
      assert name[|caption| + 1] == res[1] == '-';
    } else {
      assert name == caption;
    }
  }

  /** The display name of a monitor converts back to its device name, provided its caption
      is plain, is not "Primary Monitor", and no earlier named monitor has the same
      caption. */
  lemma DeviceNameOfDisplayName(ms: seq<MonitorInfo>, current: map<string, Resolution>, i: nat)
    requires i < |ms| && ms[i].deviceName != ""
    requires forall j :: 0 <= j < i ==> ms[j].deviceName != ms[i].deviceName
    requires PlainCaption(MonitorLabel(ms[i])) && MonitorLabel(ms[i]) != PRIMARY_OPTION
    requires forall j :: 0 <= j < i ==> !LabelMatches(ms[j], MonitorLabel(ms[i]))
    ensures DeviceNameFromDisplayName(Some(ms), MonitorDisplayName(Some(ms), current, ms[i].deviceName)) == ms[i].deviceName
  {
    var caption := MonitorLabel(ms[i]);
    assert FirstNamed(ms, ms[i].deviceName, 0) == Some(i);
    var name := OptionName(ms, i, current);
    CleanOptionName(ms, current, i);
    OptionNameNotPrimary(ms, current, i);
    var r := FirstLabelMatch(ms, caption);
    assert LabelMatches(ms[i], caption);
    var i' :| 0 <= i' < |ms| && LabelMatches(ms[i'], caption) && r.value == ms[i'].deviceName
              && forall j :: 0 <= j < i' ==> !LabelMatches(ms[j], caption);
    assert !(i' < i) && !(i < i');
  }
}
