/** The configuration window's rule list and editing rules, its settings form, the
    resolution dropdowns, and starting and stopping the monitor from the window. File
    access, the Windows startup entry and the monitor enumeration are inputs. */
module Gui {
  import opened Wrappers
  import opened Strings
  import opened Config
  import opened Display
  import opened GuiHelpers
  import opened GuiMonitor
  import opened Monitor

  // ---------------------------------------------------------------------------------
  // List entries

  /** The restore part of a list entry. */
  function RestoreInfo(app: AppConfig): string {
    if app.restoreResolution.None? then "default" else FormatResolution(app.restoreResolution.value)
  }

  /** The visible text of the list entry for `app`, with `monitor` its monitor's display name. */
  function EntryCaption(app: AppConfig, monitor: string): string {
    app.processName + " - " + FormatResolution(app.resolution) + " (" + monitor + ") "
    + RESTORE_TAG + RestoreInfo(app) + "]"
  }

  /** The list entry for `app`: the visible text, a NUL, then the raw monitor name. */
  function AppEntry(app: AppConfig, monitor: string): string {
    EntryCaption(app, monitor) + "\0" + app.monitorName
  }

  /** The entry `updateAppList` shows for `app`, under its monitor's display name. */
  function ListEntry(app: AppConfig, monitors: Option<seq<MonitorInfo>>, current: map<string, Resolution>): string {
    AppEntry(app, MonitorDisplayName(monitors, current, app.monitorName))
  }

  /** `f` applied to every element of `s`, in order. */
  function MapSeq<A, B>(f: A -> B, s: seq<A>): seq<B> {
    if s == [] then [] else MapSeq(f, s[..|s| - 1]) + [f(s[|s| - 1])]
  }

  /** One result per element, result `i` for element `i`. */
  lemma {:induction false} MapSeqShape<A, B>(f: A -> B, s: seq<A>)
    ensures |MapSeq(f, s)| == |s|
    ensures forall i :: 0 <= i < |s| ==> MapSeq(f, s)[i] == f(s[i])
  {
    if s != [] {
      var init := s[..|s| - 1];
      MapSeqShape(f, init);
      assert forall i :: 0 <= i < |init| ==> s[i] == init[i];
    }
  }

  /** The entries `updateAppList` shows, one per rule, in configuration order. */
  function AppEntries(apps: seq<AppConfig>, monitors: Option<seq<MonitorInfo>>, current: map<string, Resolution>): seq<string> {
    MapSeq(app => ListEntry(app, monitors, current), apps)
  }

  /** One entry per rule, entry `i` for rule `i`. */
  lemma {:induction false} AppEntriesShape(apps: seq<AppConfig>, monitors: Option<seq<MonitorInfo>>, current: map<string, Resolution>)
    ensures |AppEntries(apps, monitors, current)| == |apps|
    ensures forall i :: 0 <= i < |apps| ==> AppEntries(apps, monitors, current)[i] == ListEntry(apps[i], monitors, current)
  {
    MapSeqShape(app => ListEntry(app, monitors, current), apps);
  }

  /** Showing one more rule appends its entry. */
  lemma {:induction false} AppEntriesStep(apps: seq<AppConfig>, i: nat, monitors: Option<seq<MonitorInfo>>,
                                          current: map<string, Resolution>)
    requires i < |apps|
    ensures AppEntries(apps[..i + 1], monitors, current)
         == AppEntries(apps[..i], monitors, current) + [ListEntry(apps[i], monitors, current)]
  {
    assert apps[..i + 1][..i] == apps[..i];
  }

  /** The loop of `updateAppList`: one entry per rule, appended in configuration order. */
  method ListEntries(apps: seq<AppConfig>, monitors: Option<seq<MonitorInfo>>, current: map<string, Resolution>)
    returns (entries: seq<string>)
    ensures entries == AppEntries(apps, monitors, current)
  {
    entries := [];
    for i := 0 to |apps|
      invariant entries == AppEntries(apps[..i], monitors, current)
    {
      var appInfo := FormatEntry(apps[i], monitors, current);
      AppEntriesStep(apps, i, monitors, current);
      entries := entries + [appInfo];
    }
    assert apps[..|apps|] == apps;
  }

  /** The body of the `updateAppList` loop: the entry text of one rule. */
  method FormatEntry(app: AppConfig, monitors: Option<seq<MonitorInfo>>, current: map<string, Resolution>)
    returns (appInfo: string)
    ensures appInfo == ListEntry(app, monitors, current)
  {
    var monitor := GetMonitorDisplayName(monitors, current, app.monitorName);
    var restoreInfo := "default";
    if app.restoreResolution.Some? {
      restoreInfo := FormatResolution(app.restoreResolution.value);
    }
    appInfo := app.processName + " - " + FormatResolution(app.resolution) + " (" + monitor + ") "
               + RESTORE_TAG + restoreInfo + "]" + "\0" + app.monitorName;
  }

  // ---------------------------------------------------------------------------------
  // Decoding an entry again

  /** A display name whose parentheses are balanced, so that the ")" written after it
      closes the group opened before it. */
  predicate BalancedName(d: string) {
    CloseParen(d + ")", 0, 1) == |d|
  }

  /** A process name that can be cut off again at the first " - ": no " - " inside it and
      none started by its last two characters. */
  predicate SafeProcessName(p: string) {
    !Contains(p + " ", " - ") && '\0' !in p
  }

  /** A raw monitor name that comes back unchanged from the list's hidden field. */
  predicate SafeMonitorName(m: string) {
    '\0' !in m && Trimmed(m) && m != PRIMARY_OPTION
  }

  /** Only digits, 'x', '@', 'H' and 'z' occur in a formatted resolution. */
  lemma {:induction false} FormatResolutionOmits(r: Resolution, c: char)
    requires !IsDigit(c) && c != 'x' && c != '@' && c != 'H' && c != 'z'
    ensures c !in FormatResolution(r)
  {
    DigitsHaveNo(DecimalString(r.width), c);
    DigitsHaveNo(DecimalString(r.height), c);
    DigitsHaveNo(DecimalString(r.frequency), c);
  }

  /** Scanning for the closing parenthesis is unaffected by text in front of the scan. */
  lemma {:induction false} CloseParenShift(a: string, b: string, i: nat, depth: nat)
    requires depth >= 1
    ensures CloseParen(a + b, |a| + i, depth) == (if CloseParen(b, i, depth) == -1 then -1 else |a| + CloseParen(b, i, depth))
    decreases |b| - i
  {
    if i < |b| {
      assert (a + b)[|a| + i] == b[i];
      if b[i] == '(' {
        CloseParenShift(a, b, i + 1, depth + 1);
      } else if b[i] == ')' {
        if depth != 1 {
          CloseParenShift(a, b, i + 1, depth - 1);
        }
      } else {
        CloseParenShift(a, b, i + 1, depth);
      }
    }
  }

  /** A closing parenthesis found in a text is still found when more text follows. */
  lemma {:induction false} CloseParenExtend(b: string, c: string, i: nat, depth: nat)
    requires depth >= 1 && CloseParen(b, i, depth) != -1
    ensures CloseParen(b + c, i, depth) == CloseParen(b, i, depth)
    decreases |b| - i
  {
    assert (b + c)[i] == b[i];
    if b[i] == '(' {
      CloseParenExtend(b, c, i + 1, depth + 1);
    } else if b[i] == ')' {
      if depth != 1 {
        CloseParenExtend(b, c, i + 1, depth - 1);
      }
    } else {
      CloseParenExtend(b, c, i + 1, depth);
    }
  }

  /** The visible text holds no NUL, so the entry splits into that text and the raw
      monitor name. */
  lemma {:induction false} EntryParts(caption: string, m: string)
    requires '\0' !in caption && '\0' !in m
    ensures EntryText(caption + "\0" + m) == caption
    ensures EntryDevice(caption + "\0" + m) == m
  {
    SplitAfter(caption, m, '\0');
    SplitWithout(m, '\0');
    assert caption + "\0" + m == caption + ['\0'] + m;
  }

  /** The first " - " of an entry's text ends the process name. */
  lemma {:induction false} DashAfterProcess(p: string, rest: string)
    requires !Contains(p + " ", " - ")
    ensures IndexOf(p + " - " + rest, " - ") == |p|
  {
    var s := p + " - " + rest;
    assert OccursAt(s, " - ", |p|) by {
      assert s[|p|..|p| + 3] == " - ";
    }
    forall j | 0 <= j < |p|
      ensures !OccursAt(s, " - ", j)
    {
      if j + 2 <= |p| {
        assert s[j..j + 3] == (p + " ")[j..j + 3];
        assert !OccursAt(p + " ", " - ", j);
      } else {
        assert s[j + 1] == ' ';
        assert j + 3 <= |s| ==> s[j..j + 3][1] == ' ';
      }
    }
  }

  /** The first " (" after the dash ends the formatted resolution. */
  lemma {:induction false} ParenAfterResolution(f: string, rest: string)
    requires ' ' !in f
    ensures IndexOf(f + " (" + rest, " (") == |f|
  {
    var s := f + " (" + rest;
    assert OccursAt(s, " (", |f|) by {
      assert s[|f|..|f| + 2] == " (";
    }
    forall j | 0 <= j < |f|
      ensures !OccursAt(s, " (", j)
    {
      assert s[j] == f[j];
      assert j + 2 <= |s| ==> s[j..j + 2][0] == s[j];
    }
  }

  /** Cutting off the process name at the first " - " leaves the remainder to cut up. */
  lemma {:induction false} DecodeDash(entry: string, monitors: Option<seq<MonitorInfo>>, p: string, remainder: string,
                                      f: string, monitor: string)
    requires EntryText(entry) == p + " - " + remainder
    requires IndexOf(EntryText(entry), " - ") == |p|
    requires Pieces(remainder) == Ok((f, monitor))
    ensures ParsedAppInfo(entry, monitors) == ParsedPieces(p, f, monitor, EntryDevice(entry), monitors)
  {
    SliceAround(p, " - ", remainder);
  }

  /** The separators of the remainder cut out the resolution text and the monitor segment. */
  lemma {:induction false} DecodeParens(remainder: string, f: string, monitor: string)
    requires IndexOf(remainder, " (") == |f| && CloseParen(remainder, |f| + 2, 1) == |f| + 2 + |monitor|
    requires remainder[..|f|] == f && remainder[|f| + 2..|f| + 2 + |monitor|] == monitor
    ensures Pieces(remainder) == Ok((f, monitor))
  {
  }

  /** A segment without a restore tag is the display name itself, with no restore
      resolution. */
  lemma {:induction false} DecodePieces(p: string, f: string, monitor: string, device: string,
                                        monitors: Option<seq<MonitorInfo>>, resolution: Resolution)
    requires ParseResolutionString(f) == Ok(resolution) && !Contains(monitor, RESTORE_TAG)
    ensures ParsedPieces(p, f, monitor, device, monitors) == Ok(AppConfig(p, resolution, DecodedMonitor(device, monitor, monitors), None))
  {
  }

  /** A raw monitor name that is already trimmed comes back as it is, and "" comes back
      from "Primary Monitor". */
  lemma {:induction false} DecodedMonitorRaw(monitorName: string, monitor: string, monitors: Option<seq<MonitorInfo>>)
    requires monitorName == "" ==> monitor == PRIMARY_OPTION
    requires monitorName != "" ==> SafeMonitorName(monitorName)
    ensures DecodedMonitor(monitorName, monitor, monitors) == monitorName
  {
    if monitorName == "" {
      DeviceNameFallbacks(monitors, monitor);
    }
  }

  /** Cutting a text at a separator of known position. */
  lemma {:induction false} SliceAround(p: string, sep: string, r: string)
    ensures (p + sep + r)[..|p|] == p && (p + sep + r)[|p| + |sep|..] == r
  {
  }

  /** The parenthesis after a balanced display name closes the group before it. */
  lemma {:induction false} CloseAfterName(pre: string, named: string, rest: string, n: nat)
    requires CloseParen(named, 0, 1) == n
    ensures CloseParen(pre + named + rest, |pre|, 1) == |pre| + n
  {
    CloseParenExtend(named, rest, 0, 1);
    assert pre + named + rest == pre + (named + rest);
    CloseParenShift(pre, named + rest, 0, 1);
  }

  /** The same remainder, grouped as each scan needs it. */
  lemma {:induction false} RemainderRegrouped(f: string, monitor: string, tail: string)
    requires tail != [] && tail[0] == ')'
    ensures f + " (" + (monitor + tail) == f + " (" + monitor + tail
    ensures f + " (" + monitor + tail == (f + " (") + (monitor + ")") + tail[1..]
  {
    assert tail == ")" + tail[1..];
  }

  /** The cuts of `parseAppInfo` give back the resolution text and the display name. */
  lemma {:induction false} RemainderPieces(f: string, monitor: string, tail: string)
    ensures (f + " (" + monitor + tail)[|f| + 2..|f| + 2 + |monitor|] == monitor
    ensures (f + " (" + monitor + tail)[..|f|] == f
  {
  }

  /** What follows the display name in an entry's visible text. */
  function EntryTail(app: AppConfig): string {
    ") " + RESTORE_TAG + RestoreInfo(app) + "]"
  }

  /** An entry's visible text after the first " - ". */
  function Remainder(app: AppConfig, monitor: string): string {
    FormatResolution(app.resolution) + " (" + monitor + EntryTail(app)
  }

  /** Where the NUL and the first " - " of an entry are. */
  lemma {:induction false} EntryLayout(app: AppConfig, monitor: string)
    requires SafeProcessName(app.processName) && '\0' !in monitor && '\0' !in app.monitorName
    ensures EntryText(AppEntry(app, monitor)) == app.processName + " - " + Remainder(app, monitor)
    ensures EntryDevice(AppEntry(app, monitor)) == app.monitorName
    ensures IndexOf(EntryText(AppEntry(app, monitor)), " - ") == |app.processName|
  {
    var caption := EntryCaption(app, monitor);
    assert caption == app.processName + " - " + Remainder(app, monitor);
    FormatResolutionOmits(app.resolution, '\0');
    if app.restoreResolution.Some? {
      FormatResolutionOmits(app.restoreResolution.value, '\0');
    }
    assert '\0' !in RestoreInfo(app);
    assert '\0' !in caption;
    EntryParts(caption, app.monitorName);
    DashAfterProcess(app.processName, Remainder(app, monitor));
  }

  /** The first " (" of an entry's remainder follows the formatted resolution. */
  lemma {:induction false} RemainderParen(app: AppConfig, monitor: string)
    ensures IndexOf(Remainder(app, monitor), " (") == |FormatResolution(app.resolution)|
  {
    var f := FormatResolution(app.resolution);
    FormatResolutionOmits(app.resolution, ' ');
    ParenAfterResolution(f, monitor + EntryTail(app));
    RemainderRegrouped(f, monitor, EntryTail(app));
  }

  /** The ")" after a balanced display name is the one that matches the " (" before it. */
  lemma {:induction false} RemainderClose(app: AppConfig, monitor: string)
    requires BalancedName(monitor)
    ensures CloseParen(Remainder(app, monitor), |FormatResolution(app.resolution)| + 2, 1)
         == |FormatResolution(app.resolution)| + 2 + |monitor|
  {
    var f := FormatResolution(app.resolution);
    var tail := EntryTail(app);
    RemainderRegrouped(f, monitor, tail);
    CloseAfterName(f + " (", monitor + ")", tail[1..], |monitor|);
  }

  /** The pieces between those separators are the formatted resolution and the display name. */
  lemma {:induction false} RemainderCuts(app: AppConfig, monitor: string)
    ensures var f := FormatResolution(app.resolution);
            && Remainder(app, monitor)[|f| + 2..|f| + 2 + |monitor|] == monitor
            && Remainder(app, monitor)[..|f|] == f
  {
    RemainderPieces(FormatResolution(app.resolution), monitor, EntryTail(app));
  }

  /** The remainder of an entry cuts into the formatted resolution and the display name. */
  lemma {:induction false} EntryPieces(app: AppConfig, monitor: string)
    requires BalancedName(monitor)
    ensures Pieces(Remainder(app, monitor)) == Ok((FormatResolution(app.resolution), monitor))
  {
    RemainderParen(app, monitor);
    RemainderClose(app, monitor);
    RemainderCuts(app, monitor);
    DecodeParens(Remainder(app, monitor), FormatResolution(app.resolution), monitor);
  }

  /** An entry decodes as its pieces do. */
  lemma {:induction false} EntryDecodesAsPieces(app: AppConfig, monitor: string, monitors: Option<seq<MonitorInfo>>)
    requires SafeProcessName(app.processName) && '\0' !in monitor && BalancedName(monitor)
    requires '\0' !in app.monitorName
    ensures ParsedAppInfo(AppEntry(app, monitor), monitors)
         == ParsedPieces(app.processName, FormatResolution(app.resolution), monitor, app.monitorName, monitors)
  {
    EntryLayout(app, monitor);
    EntryPieces(app, monitor);
    DecodeDash(AppEntry(app, monitor), monitors, app.processName, Remainder(app, monitor),
               FormatResolution(app.resolution), monitor);
  }

  /** The pieces of an entry decode to the rule's process name, resolution and monitor name. */
  lemma {:induction false} EntryPiecesDecode(app: AppConfig, monitor: string, monitors: Option<seq<MonitorInfo>>)
    requires !Contains(monitor, RESTORE_TAG)
    requires app.monitorName == "" ==> monitor == PRIMARY_OPTION
    requires app.monitorName != "" ==> SafeMonitorName(app.monitorName)
    ensures ParsedPieces(app.processName, FormatResolution(app.resolution), monitor, app.monitorName, monitors)
         == Ok(AppConfig(app.processName, app.resolution, app.monitorName, None))
  {
    ParseFormatResolution(app.resolution);
    DecodePieces(app.processName, FormatResolution(app.resolution), monitor, app.monitorName, monitors, app.resolution);
    DecodedMonitorRaw(app.monitorName, monitor, monitors);
  }

  /** Decoding what `updateAppList` writes gives back the rule's process name, resolution
      and monitor name, but never its restore resolution: the "[Restore: …]" part follows
      the closing parenthesis, outside the monitor segment the decoder looks in. */
  lemma {:induction false} EntryRoundTrip(app: AppConfig, monitor: string, monitors: Option<seq<MonitorInfo>>)
    requires SafeProcessName(app.processName)
    requires '\0' !in monitor && BalancedName(monitor) && !Contains(monitor, RESTORE_TAG)
    requires app.monitorName == "" ==> monitor == PRIMARY_OPTION
    requires app.monitorName != "" ==> SafeMonitorName(app.monitorName)
    ensures ParsedAppInfo(AppEntry(app, monitor), monitors)
         == Ok(AppConfig(app.processName, app.resolution, app.monitorName, None))
  {
    EntryDecodesAsPieces(app, monitor, monitors);
    EntryPiecesDecode(app, monitor, monitors);
  }

  // ---------------------------------------------------------------------------------
  // The delete and edit filters

  /** A monitor name as the delete and edit filters compare it: trimmed, with
      "Primary Monitor" read as "". */
  function NormalizedMonitor(m: string): string {
    var t := TrimSpace(m);
    if t == PRIMARY_OPTION then "" else t
  }

  /** The filters' test: the same process name and all three resolution fields, and, when
      either normalised monitor name is given, the same monitor name. */
  predicate IsMatch(rule: AppConfig, processName: string, resolution: Resolution, monitor: string) {
    var cm := NormalizedMonitor(rule.monitorName);
    var tm := NormalizedMonitor(monitor);
    && rule.processName == processName
    && rule.resolution.width == resolution.width
    && rule.resolution.height == resolution.height
    && rule.resolution.frequency == resolution.frequency
    && (cm != "" || tm != "" ==> cm == tm)
  }

  /** The test amounts to equal process names, equal resolutions and equal normalised
      monitor names: a rule for the primary monitor matches both "" and "Primary Monitor". */
  lemma {:induction false} IsMatchMeaning(rule: AppConfig, processName: string, resolution: Resolution, monitor: string)
    ensures IsMatch(rule, processName, resolution, monitor) <==>
              && rule.processName == processName && rule.resolution == resolution
              && NormalizedMonitor(rule.monitorName) == NormalizedMonitor(monitor)
  {
  }

  /** The rules the filters keep: every rule that does not match, in configuration order. */
  function KeptRules(apps: seq<AppConfig>, processName: string, resolution: Resolution, monitor: string): seq<AppConfig> {
    if apps == [] then []
    else
      var rest := KeptRules(apps[..|apps| - 1], processName, resolution, monitor);
      if IsMatch(apps[|apps| - 1], processName, resolution, monitor) then rest else rest + [apps[|apps| - 1]]
  }

  /** A rule is kept exactly when it is configured and does not match; so every matching
      duplicate goes. */
  lemma {:induction false} KeptRulesMembers(apps: seq<AppConfig>, processName: string, resolution: Resolution, monitor: string, x: AppConfig)
    ensures x in KeptRules(apps, processName, resolution, monitor) <==> x in apps && !IsMatch(x, processName, resolution, monitor)
  {
    if apps != [] {
      var init := apps[..|apps| - 1];
      KeptRulesMembers(init, processName, resolution, monitor, x);
      assert apps == init + [apps[|apps| - 1]];
    }
  }

  /** Filtering keeps configuration order: filtering two consecutive parts and concatenating
      is filtering the whole. */
  lemma {:induction false} KeptRulesOrder(a: seq<AppConfig>, b: seq<AppConfig>, processName: string, resolution: Resolution, monitor: string)
    ensures KeptRules(a + b, processName, resolution, monitor)
         == KeptRules(a, processName, resolution, monitor) + KeptRules(b, processName, resolution, monitor)
  {
    if b == [] {
      assert a + b == a;
    } else {
      var init := b[..|b| - 1];
      assert (a + b)[..|a + b| - 1] == a + init;
      KeptRulesOrder(a, init, processName, resolution, monitor);
    }
  }

  /** Filtering again removes nothing more. */
  lemma {:induction false} KeptRulesIdempotent(apps: seq<AppConfig>, processName: string, resolution: Resolution, monitor: string)
    ensures KeptRules(KeptRules(apps, processName, resolution, monitor), processName, resolution, monitor)
         == KeptRules(apps, processName, resolution, monitor)
  {
    if apps != [] {
      var init := apps[..|apps| - 1];
      var last := apps[|apps| - 1];
      KeptRulesIdempotent(init, processName, resolution, monitor);
      if !IsMatch(last, processName, resolution, monitor) {
        var rest := KeptRules(init, processName, resolution, monitor);
        KeptRulesOrder(rest, [last], processName, resolution, monitor);
        assert [last][..0] == [];
      }
    }
  }

  /** The comparison the filter loops make for one configured rule. */
  method RuleMatches(configApp: AppConfig, processName: string, resolution: Resolution, monitor: string)
    returns (isMatch: bool)
    ensures isMatch <==> IsMatch(configApp, processName, resolution, monitor)
  {
    var configMonitor := TrimSpace(configApp.monitorName);
    var compareMonitor := TrimSpace(monitor);
    if configMonitor == PRIMARY_OPTION {
      configMonitor := "";
    }
    if compareMonitor == PRIMARY_OPTION {
      compareMonitor := "";
    }
    assert configMonitor == NormalizedMonitor(configApp.monitorName);
    assert compareMonitor == NormalizedMonitor(monitor);
    isMatch := configApp.processName == processName
               && configApp.resolution.width == resolution.width
               && configApp.resolution.height == resolution.height
               && configApp.resolution.frequency == resolution.frequency;
    if configMonitor != "" || compareMonitor != "" {
      isMatch := isMatch && configMonitor == compareMonitor;
    }
  }

  /** The filter loop of `deleteApplication` and `saveApplication`. */
  method RemoveMatching(apps: seq<AppConfig>, processName: string, resolution: Resolution, monitor: string)
    returns (newApps: seq<AppConfig>)
    ensures newApps == KeptRules(apps, processName, resolution, monitor)
  {
    newApps := [];
    for i := 0 to |apps|
      invariant newApps == KeptRules(apps[..i], processName, resolution, monitor)
    {
      var isMatch := RuleMatches(apps[i], processName, resolution, monitor);
      assert apps[..i + 1][..i] == apps[..i];
      if !isMatch {
        newApps := newApps + [apps[i]];
      }
    }
    assert apps[..|apps|] == apps;
  }

  /** The rules `saveApplication` writes: on an edit, the configured rules that do not match
      the original (its monitor name converted back to a device name) and otherwise all of
      them, followed by the new rule. */
  function SavedRules(apps: seq<AppConfig>, newApp: AppConfig, original: Option<AppConfig>, monitors: Option<seq<MonitorInfo>>): seq<AppConfig> {
    if original.None? then apps + [newApp]
    else
      var o := original.value;
      KeptRules(apps, o.processName, o.resolution, DeviceNameFromDisplayName(monitors, o.monitorName)) + [newApp]
  }

  /** Saving appends the new rule at the end, and on an edit keeps exactly the rules that do
      not match the original, in order. */
  lemma {:induction false} SavedRulesShape(apps: seq<AppConfig>, newApp: AppConfig, original: Option<AppConfig>, monitors: Option<seq<MonitorInfo>>)
    ensures var r := SavedRules(apps, newApp, original, monitors);
            |r| >= 1 && r[|r| - 1] == newApp
    ensures original.None? ==> SavedRules(apps, newApp, original, monitors)[..|apps|] == apps
    ensures original.Some? ==>
              var o := original.value;
              var device := DeviceNameFromDisplayName(monitors, o.monitorName);
              var r := SavedRules(apps, newApp, original, monitors);
              forall x :: x in r[..|r| - 1] <==> x in apps && !IsMatch(x, o.processName, o.resolution, device)
  {
    if original.Some? {
      var o := original.value;
      var device := DeviceNameFromDisplayName(monitors, o.monitorName);
      var kept := KeptRules(apps, o.processName, o.resolution, device);
      assert (kept + [newApp])[..|kept|] == kept;
      forall x
        ensures x in kept <==> x in apps && !IsMatch(x, o.processName, o.resolution, device)
      {
        KeptRulesMembers(apps, o.processName, o.resolution, device, x);
      }
    } else {
      assert (apps + [newApp])[..|apps|] == apps;
    }
  }

  /** The original rule `showAppDialog` keeps for an edit and later hands to
      `saveApplication`: the rule with its monitor name trimmed and "Primary Monitor" read
      as "", every other field copied. */
  function EditOriginal(app: AppConfig): (r: AppConfig)
    ensures r.processName == app.processName && r.resolution == app.resolution
    ensures r.restoreResolution == app.restoreResolution
    ensures Trimmed(r.monitorName) && r.monitorName != PRIMARY_OPTION
    ensures Trimmed(app.monitorName) && app.monitorName != PRIMARY_OPTION ==> r == app
  {
    app.(monitorName := NormalizedMonitor(app.monitorName))
  }

  /** A rule decoded from a list entry is already normalised, so the copy kept for an edit
      is the decoded rule itself. */
  lemma EditOriginalOfDecoded(entry: string, monitors: Option<seq<MonitorInfo>>)
    ensures ParsedAppInfo(entry, monitors).Ok? ==>
              EditOriginal(ParsedAppInfo(entry, monitors).value) == ParsedAppInfo(entry, monitors).value
  {
    ParsedAppInfoProperties(entry, monitors);
  }

  // ---------------------------------------------------------------------------------
  // The resolution dropdowns

  /** What `updateResolutionOptions` puts into the two resolution dropdowns: the options,
      the maps from option text to mode, and the selections. */
  datatype Dropdowns = Dropdowns(
    targetOptions: seq<string>,
    targetMap: map<string, Resolution>,
    restoreOptions: seq<string>,
    restoreMap: map<string, Resolution>,
    target: Option<string>,
    restore: Option<string>)

  /** `s` back to front. */
  function Reversed<T>(s: seq<T>): (r: seq<T>)
    ensures |r| == |s|
    ensures forall i :: 0 <= i < |s| ==> r[i] == s[|s| - 1 - i]
  {
    if s == [] then [] else [s[|s| - 1]] + Reversed(s[..|s| - 1])
  }

  /** The restore option for the monitor's current mode. */
  function CurrentLabel(r: Resolution): string {
    "Current (" + FormatResolution(r) + ")"
  }

  /** The first option, if there is one. */
  function FirstOption(options: seq<string>): Option<string> {
    if options == [] then None else Some(options[0])
  }

  predicate SameSize(r: Resolution, want: Resolution) {
    r.width == want.width && r.height == want.height
  }

  /** Among the first `n` modes, position `j` holds the one the frequency search settles on:
      the size wanted, a frequency above 0, above every earlier one of that size and at least
      every later one. */
  predicate BestIn(modes: seq<Resolution>, want: Resolution, j: int, n: int) {
    && 0 <= j < n <= |modes| && SameSize(modes[j], want) && modes[j].frequency > 0
    && (forall k :: 0 <= k < j && SameSize(modes[k], want) ==> modes[k].frequency < modes[j].frequency)
    && (forall k :: j < k < n && SameSize(modes[k], want) ==> modes[k].frequency <= modes[j].frequency)
  }

  /** Some mode has the size wanted and a frequency above 0. */
  predicate HasCandidate(modes: seq<Resolution>, want: Resolution) {
    exists k :: 0 <= k < |modes| && SameSize(modes[k], want) && modes[k].frequency > 0
  }

  /** A mode that does not beat the one settled on leaves it settled on. */
  lemma {:induction false} BestInKept(modes: seq<Resolution>, want: Resolution, b: int, j: int)
    requires BestIn(modes, want, b, j) && j < |modes|
    requires !(SameSize(modes[j], want) && modes[j].frequency > modes[b].frequency)
    ensures BestIn(modes, want, b, j + 1)
  {
  }

  /** A mode of the size wanted whose frequency beats every earlier candidate is the new
      one to settle on. */
  lemma {:induction false} BestInNew(modes: seq<Resolution>, want: Resolution, b: int, j: int)
    requires 0 <= j < |modes| && SameSize(modes[j], want) && modes[j].frequency > 0
    requires b == -1 ==> forall k :: 0 <= k < j ==> !(SameSize(modes[k], want) && modes[k].frequency > 0)
    requires b != -1 ==> BestIn(modes, want, b, j) && modes[j].frequency > modes[b].frequency
    ensures BestIn(modes, want, j, j + 1)
  {
  }

  /** The search settles on one position only. */
  lemma {:induction false} BestInUnique(modes: seq<Resolution>, want: Resolution, i: int, j: int)
    requires BestIn(modes, want, i, |modes|) && BestIn(modes, want, j, |modes|)
    ensures i == j
  {
  }

  /** There is a position to settle on exactly when some mode is a candidate. */
  lemma {:induction false} BestExists(modes: seq<Resolution>, want: Resolution, n: nat)
    requires n <= |modes|
    requires exists k :: 0 <= k < n && SameSize(modes[k], want) && modes[k].frequency > 0
    ensures exists j :: BestIn(modes, want, j, n)
  {
    var m := n - 1;
    if SameSize(modes[m], want) && modes[m].frequency > 0 {
      if exists k :: 0 <= k < m && SameSize(modes[k], want) && modes[k].frequency > 0 {
        BestExists(modes, want, m);
        var j :| BestIn(modes, want, j, m);
        if modes[m].frequency > modes[j].frequency {
          assert BestIn(modes, want, m, n);
        } else {
          assert BestIn(modes, want, j, n);
        }
      } else {
        assert BestIn(modes, want, m, n);
      }
    } else {
      BestExists(modes, want, m);
      var j :| BestIn(modes, want, j, m);
      assert BestIn(modes, want, j, n);
    }
  }

  /** Different modes have different texts. */
  lemma {:induction false} FormatResolutionInjective(a: Resolution, b: Resolution)
    requires FormatResolution(a) == FormatResolution(b)
    ensures a == b
  {
    ParseFormatResolution(a);
    ParseFormatResolution(b);
  }

  /** No mode's text is the "Current (…)" option, and none is empty. */
  lemma {:induction false} CurrentLabelIsNoMode(cur: Resolution, r: Resolution)
    ensures CurrentLabel(cur) != FormatResolution(r)
    ensures FormatResolution(r) != ""
  {
    FormatResolutionOmits(r, 'C');
    assert CurrentLabel(cur)[0] == 'C';
  }

  /** `options` are the texts of the first modes, in order, and `optionMap` sends each of
      them back to its mode and holds nothing else. */
  predicate ModeOptions(options: seq<string>, optionMap: map<string, Resolution>, modes: seq<Resolution>) {
    && |options| <= |modes|
    && (forall j :: 0 <= j < |options| ==>
          options[j] == FormatResolution(modes[j]) && options[j] in optionMap && optionMap[options[j]] == modes[j])
    && (forall o :: o in optionMap ==> o in options)
  }

  /** The restore map holds the mode options as `optionMap` does, and the "Current (…)"
      option when the current-mode query succeeded, and nothing else. */
  predicate RestoreEntries(restoreMap: map<string, Resolution>, optionMap: map<string, Resolution>,
                           currentRes: Result<Resolution, DisplayError>) {
    && (forall o :: o in restoreMap ==> o in optionMap || (currentRes.Ok? && o == CurrentLabel(currentRes.value)))
    && (forall o :: o in optionMap ==> o in restoreMap && restoreMap[o] == optionMap[o])
    && (currentRes.Ok? ==> CurrentLabel(currentRes.value) in restoreMap
                           && restoreMap[CurrentLabel(currentRes.value)] == currentRes.value)
  }

  /** Adding the next mode keeps the option list's description: an earlier option with the
      same text is the same mode. */
  lemma {:induction false} ModeOptionsStep(options: seq<string>, optionMap: map<string, Resolution>, modes: seq<Resolution>)
    requires ModeOptions(options, optionMap, modes) && |options| < |modes|
    ensures var m := modes[|options|];
            ModeOptions(options + [FormatResolution(m)], optionMap[FormatResolution(m) := m], modes)
  {
    var m := modes[|options|];
    var s := FormatResolution(m);
    forall j | 0 <= j < |options| && options[j] == s
      ensures modes[j] == m
    {
      FormatResolutionInjective(modes[j], m);
    }
    var next := options + [s];
    assert forall j :: 0 <= j < |options| ==> next[j] == options[j];
  }

  /** Adding a mode to both maps keeps the restore map's description, since no mode's text
      is the "Current (…)" option. */
  lemma {:induction false} RestoreEntriesStep(restoreMap: map<string, Resolution>, optionMap: map<string, Resolution>,
                                              m: Resolution, currentRes: Result<Resolution, DisplayError>)
    requires RestoreEntries(restoreMap, optionMap, currentRes)
    ensures RestoreEntries(restoreMap[FormatResolution(m) := m], optionMap[FormatResolution(m) := m], currentRes)
  {
    if currentRes.Ok? {
      CurrentLabelIsNoMode(currentRes.value, m);
    }
  }

  /** The option lists: the modes back to front, each also a restore option, after the
      "Current (…)" option when the current-mode query succeeded. */
  method ListModes(resolutions: seq<Resolution>, currentRes: Result<Resolution, DisplayError>)
    returns (options: seq<string>, optionMap: map<string, Resolution>,
             restoreOptions: seq<string>, restoreMap: map<string, Resolution>)
    ensures |options| == |resolutions| && ModeOptions(options, optionMap, Reversed(resolutions))
    ensures restoreOptions == (if currentRes.Ok? then [CurrentLabel(currentRes.value)] else []) + options
    ensures RestoreEntries(restoreMap, optionMap, currentRes)
  {
    ghost var modes := Reversed(resolutions);
    options := [];
    optionMap := map[];
    restoreOptions := [];
    restoreMap := map[];
    if currentRes.Ok? {
      var s := "Current (" + FormatResolution(currentRes.value) + ")";
      restoreOptions := restoreOptions + [s];
      restoreMap := restoreMap[s := currentRes.value];
    }
    ghost var head := restoreOptions;
    var i := |resolutions| - 1;
    while i >= 0
      invariant -1 <= i < |resolutions|
      invariant |options| == |resolutions| - 1 - i
      invariant ModeOptions(options, optionMap, modes)
      invariant restoreOptions == head + options
      invariant RestoreEntries(restoreMap, optionMap, currentRes)
    {
      var res := resolutions[i];
      assert res == modes[|options|];
      ModeOptionsStep(options, optionMap, modes);
      RestoreEntriesStep(restoreMap, optionMap, res, currentRes);
      var resStr := FormatResolution(res);
      options := options + [resStr];
      optionMap := optionMap[resStr := res];
      restoreOptions := restoreOptions + [resStr];
      restoreMap := restoreMap[resStr := res];
      i := i - 1;
    }
  }

  /** The exact-match search of `updateResolutionOptions`: the text of the rule's mode is
      among the options exactly when the mode is one of the monitor's. */
  method ExactOption(options: seq<string>, optionMap: map<string, Resolution>, app: Resolution, ghost modes: seq<Resolution>)
    returns (found: bool)
    requires |options| == |modes| && ModeOptions(options, optionMap, modes)
    ensures found <==> app in modes
  {
    var targetResStr := FormatResolution(app);
    found := false;
    for j := 0 to |options|
      invariant forall k :: 0 <= k < j ==> options[k] != targetResStr
    {
      if options[j] == targetResStr {
        assert modes[j] == app by {
          FormatResolutionInjective(modes[j], app);
        }
        found := true;
        return;
      }
    }
  }

  /** The frequency search of `updateResolutionOptions`: the option of the same size with
      the highest frequency (the first of equals), or "" when no option has that size and a
      frequency above 0. */
  method HighestFrequency(options: seq<string>, optionMap: map<string, Resolution>, app: Resolution, ghost modes: seq<Resolution>)
    returns (bestMatch: string)
    requires |options| == |modes| && ModeOptions(options, optionMap, modes)
    ensures HasCandidate(modes, app) ==> exists j :: BestIn(modes, app, j, |modes|) && bestMatch == options[j]
    ensures bestMatch == "" <==> !HasCandidate(modes, app)
  {
    var highestFreq := 0;
    bestMatch := "";
    ghost var best := -1;
    for j := 0 to |options|
      invariant best == -1 ==> bestMatch == "" && highestFreq == 0
                               && forall k :: 0 <= k < j ==> !(SameSize(modes[k], app) && modes[k].frequency > 0)
      invariant best != -1 ==> BestIn(modes, app, best, j)
                               && bestMatch == options[best] && highestFreq == modes[best].frequency
    {
      var option := options[j];
      ghost var m := modes[j];
      assert option in optionMap && optionMap[option] == m;
      if option in optionMap {
        var res := optionMap[option];
        if res.width == app.width && res.height == app.height {
          if res.frequency > highestFreq {
            BestInNew(modes, app, best, j);
            highestFreq := res.frequency;
            bestMatch := option;
            best := j;
          } else if best != -1 {
            BestInKept(modes, app, best, j);
          }
        } else if best != -1 {
          BestInKept(modes, app, best, j);
        }
      }
    }
    if best != -1 {
      CurrentLabelIsNoMode(app, modes[best]);
    }
  }

  /** The target selection of `updateResolutionOptions`, over the options `ListModes` made:
      an exact match, else the same size at the highest frequency, else the first option. */
  method PickTarget(options: seq<string>, optionMap: map<string, Resolution>, app: Resolution, ghost modes: seq<Resolution>)
    returns (target: Option<string>)
    requires |options| == |modes| && ModeOptions(options, optionMap, modes)
    ensures app.width == 0 ==> target == FirstOption(options)
    ensures app.width > 0 && app in modes ==> target == Some(FormatResolution(app))
    ensures app.width > 0 && app !in modes && HasCandidate(modes, app) ==>
              exists j :: BestIn(modes, app, j, |modes|) && target == Some(options[j])
    ensures app.width > 0 && app !in modes && !HasCandidate(modes, app) ==> target == FirstOption(options)
  {
    target := None;
    if app.width > 0 {
      var found := ExactOption(options, optionMap, app, modes);
      if found {
        target := Some(FormatResolution(app));
      } else {
        var bestMatch := HighestFrequency(options, optionMap, app, modes);
        if bestMatch != "" {
          target := Some(bestMatch);
          found := true;
        }
      }
      if !found && |options| > 0 {
        target := Some(options[0]);
      }
    } else if |options| > 0 {
      target := Some(options[0]);
    }
  }

  /** `updateResolutionOptions`: a failed mode query leaves the dropdowns as they were;
      otherwise both are rebuilt, the target selected by `PickTarget` and the restore
      dropdown set to its first option. */
  method UpdateResolutionOptions(resolutions: Result<seq<Resolution>, DisplayError>,
                                 currentRes: Result<Resolution, DisplayError>, app: Resolution)
    returns (r: Result<Dropdowns, DisplayError>)
    ensures resolutions.Err? ==> r == Err(resolutions.error)
    ensures resolutions.Ok? ==> r.Ok?
    ensures r.Ok? ==>
              var modes := Reversed(resolutions.value);
              var d := r.value;
              && |d.targetOptions| == |modes| && ModeOptions(d.targetOptions, d.targetMap, modes)
              && d.restoreOptions == (if currentRes.Ok? then [CurrentLabel(currentRes.value)] else []) + d.targetOptions
              && RestoreEntries(d.restoreMap, d.targetMap, currentRes)
              && d.restore == FirstOption(d.restoreOptions)
              && (app.width == 0 ==> d.target == FirstOption(d.targetOptions))
              && (app.width > 0 && app in modes ==> d.target == Some(FormatResolution(app)))
              && (app.width > 0 && app !in modes && HasCandidate(modes, app) ==>
                    exists j :: BestIn(modes, app, j, |modes|) && d.target == Some(d.targetOptions[j]))
              && (app.width > 0 && app !in modes && !HasCandidate(modes, app) ==> d.target == FirstOption(d.targetOptions))
  {
    if resolutions.Err? {
      return Err(resolutions.error);
    }
    var options, optionMap, restoreOptions, restoreMap := ListModes(resolutions.value, currentRes);
    var target := PickTarget(options, optionMap, app, Reversed(resolutions.value));
    var restore := if |restoreOptions| > 0 then Some(restoreOptions[0]) else None;
    return Ok(Dropdowns(options, optionMap, restoreOptions, restoreMap, target, restore));
  }

  // ---------------------------------------------------------------------------------
  // The window

  datatype GuiError =
    | EntryUnreadable(entryCause: AppInfoError)
    | LoadError(loadCause: ConfigError)
    | SaveError(saveCause: ConfigError)
    | NoProcessName
    | BadPollInterval
    | StartupError
    | MonitorError(monitorCause: StartError)

  /** The error a save reports, if any. */
  function SaveResult(o: SaveOutcome): Option<GuiError> {
    if o.error.None? then None else Some(SaveError(o.error.value))
  }

  /** The settings `saveSettings` writes over the loaded configuration. */
  function WithSettings(c: Config, pollInterval: int, showGui: bool, startWithWindows: bool, autoStart: bool): Config {
    c.(pollInterval := pollInterval, showGuiOnLaunch := showGui,
       startWithWindows := startWithWindows, autoStartMonitoring := autoStart)
  }

  /** The poll-interval text `saveSettings` accepts: an integer that `Atoi` reads, at least 1. */
  predicate AcceptedInterval(text: string) {
    Atoi(text).Some? && Atoi(text).value >= 1
  }

  /** What `saveSettings` saves survives the load that follows unchanged: an accepted
      interval is already positive, so the default is not applied; and every positive
      interval written in decimal is accepted. */
  lemma {:induction false} SettingsReloadUnchanged(c: Config, text: string, showGui: bool, startWithWindows: bool, autoStart: bool, n: nat)
    ensures AcceptedInterval(text) ==>
              Normalize(WithSettings(c, Atoi(text).value, showGui, startWithWindows, autoStart))
              == WithSettings(c, Atoi(text).value, showGui, startWithWindows, autoStart)
    ensures 1 <= n <= INT64_MAX ==> AcceptedInterval(DecimalString(n)) && Atoi(DecimalString(n)).value == n
  {
    if 1 <= n <= INT64_MAX {
      AtoiDecimal(n);
    }
  }

  /** What `deleteApplication` reports and saves, as `DeleteRule` computes it. */
  function Deletion(entry: string, monitors: Option<seq<MonitorInfo>>, loaded: Result<Config, ConfigError>,
                    encode: Config -> Option<Bytes>, writeOk: bool): (r: (Option<GuiError>, Option<Config>))
    ensures r.0.None? ==> r.1.Some?
  {
    match ParsedAppInfo(entry, monitors)
    case Err(e) => (Some(EntryUnreadable(e)), None)
    case Ok(target) =>
      if loaded.Err? then (Some(LoadError(loaded.error)), None)
      else
        var c := loaded.value.(applications := KeptRules(loaded.value.applications, target.processName,
                                                          target.resolution, target.monitorName));
        (SaveResult(SaveConfig(c, encode, writeOk)), Some(c))
  }

  /** An error comes first from the entry, then from the load, then from the save; once the
      entry decodes and the configuration loads, exactly the rules matching the decoded one
      are dropped, and that configuration is the one handed to the save. */
  lemma {:induction false} DeletionCases(entry: string, monitors: Option<seq<MonitorInfo>>, loaded: Result<Config, ConfigError>,
                                         encode: Config -> Option<Bytes>, writeOk: bool)
    ensures var (err, saved) := Deletion(entry, monitors, loaded, encode, writeOk);
            && (ParsedAppInfo(entry, monitors).Err? ==>
                  err == Some(EntryUnreadable(ParsedAppInfo(entry, monitors).error)) && saved.None?)
            && (ParsedAppInfo(entry, monitors).Ok? && loaded.Err? ==> err == Some(LoadError(loaded.error)) && saved.None?)
            && (ParsedAppInfo(entry, monitors).Ok? && loaded.Ok? ==>
                  var target := ParsedAppInfo(entry, monitors).value;
                  && saved.Some? && saved.value.applications == KeptRules(loaded.value.applications, target.processName,
                                                                          target.resolution, target.monitorName)
                  && saved.value == loaded.value.(applications := saved.value.applications)
                  && (err.None? <==> SaveConfig(saved.value, encode, writeOk).error.None?))
  {
  }

  /** The deletion in `deleteApplication`: decode the entry, load the configuration, drop
      every rule matching the decoded one and save. `saved` is the configuration handed to
      the save. */
  method DeleteRule(entry: string, monitors: Option<seq<MonitorInfo>>, loaded: Result<Config, ConfigError>,
                    encode: Config -> Option<Bytes>, writeOk: bool)
    returns (err: Option<GuiError>, saved: Option<Config>)
    ensures (err, saved) == Deletion(entry, monitors, loaded, encode, writeOk)
  {
    var app := ParseAppInfo(entry, monitors);
    if app.Err? {
      return Some(EntryUnreadable(app.error)), None;
    }
    if loaded.Err? {
      return Some(LoadError(loaded.error)), None;
    }
    var config := loaded.value;
    var newApps := RemoveMatching(config.applications, app.value.processName, app.value.resolution, app.value.monitorName);
    config := config.(applications := newApps);
    var outcome := SaveConfig(config, encode, writeOk);
    if outcome.error.Some? {
      return Some(SaveError(outcome.error.value)), Some(config);
    }
    return None, Some(config);
  }

  class GuiApp {
    /** The entries of the application list. */
    var appData: seq<string>
    var isRunning: bool
    var resMonitor: ResolutionMonitor?

    constructor ()
      ensures appData == [] && !isRunning && resMonitor == null
      ensures Valid()
    {
      appData := [];
      isRunning := false;
      resMonitor := null;
    }

    /** Monitoring only runs with a resolution monitor, and that monitor keeps its own
        invariant. */
    predicate Valid()
      reads this`isRunning, this`resMonitor, resMonitor
    {
      && (isRunning ==> resMonitor != null)
      && (resMonitor != null ==> resMonitor.Valid())
    }

    /** `updateAppList`: the list is cleared, then one entry per rule is appended. */
    method UpdateAppList(config: Config, monitors: Option<seq<MonitorInfo>>, current: map<string, Resolution>)
      requires Valid()
      modifies this
      ensures Valid()
      ensures appData == AppEntries(config.applications, monitors, current)
      ensures isRunning == old(isRunning) && resMonitor == old(resMonitor)
    {
      appData := ListEntries(config.applications, monitors, current);
    }

    /** `loadConfig` after the configuration file exists: load it and show its rules. */
    method ReloadConfig(loaded: Result<Config, ConfigError>, monitors: Option<seq<MonitorInfo>>, current: map<string, Resolution>)
      returns (err: Option<GuiError>)
      requires Valid()
      modifies this
      ensures Valid()
      ensures loaded.Err? ==> err == Some(LoadError(loaded.error)) && appData == old(appData)
      ensures loaded.Ok? ==> err.None? && appData == AppEntries(loaded.value.applications, monitors, current)
      ensures isRunning == old(isRunning) && resMonitor == old(resMonitor)
    {
      if loaded.Err? {
        return Some(LoadError(loaded.error));
      }
      UpdateAppList(loaded.value, monitors, current);
      return None;
    }

    /** `deleteApplication` once confirmed: the deletion itself, then the saved configuration
        is handed to the resolution monitor. */
    method DeleteApplication(entry: string, monitors: Option<seq<MonitorInfo>>, loaded: Result<Config, ConfigError>,
                             encode: Config -> Option<Bytes>, writeOk: bool)
      returns (err: Option<GuiError>, saved: Option<Config>)
      requires Valid()
      modifies resMonitor
      ensures Valid()
      ensures (err, saved) == Deletion(entry, monitors, loaded, encode, writeOk) && (err.None? ==> saved.Some?)
      ensures resMonitor != null ==>
                && resMonitor.config == (if err.None? then saved.value else old(resMonitor.config))
                && resMonitor.currentAppRes == old(resMonitor.currentAppRes)
                && resMonitor.activeApps == old(resMonitor.activeApps)
                && resMonitor.handled == old(resMonitor.handled)
    {
      err, saved := DeleteRule(entry, monitors, loaded, encode, writeOk);
      if err.None? && resMonitor != null {
        resMonitor.SetConfig(saved.value);
      }
    }

    /** `saveApplication`: an empty process name is refused before anything is loaded;
        otherwise the new rule, always with a restore resolution, is added at the end, on an
        edit after every rule matching `original` has been dropped. */
    method SaveApplication(process: string, resolution: Resolution, restoreResolution: Resolution, monitor: string,
                           original: Option<AppConfig>, monitors: Option<seq<MonitorInfo>>,
                           loaded: Result<Config, ConfigError>, encode: Config -> Option<Bytes>, writeOk: bool)
      returns (err: Option<GuiError>, saved: Option<Config>)
      requires Valid()
      modifies resMonitor
      ensures Valid()
      ensures err.None? ==> saved.Some?
      ensures process == "" ==> err == Some(NoProcessName) && saved.None?
      ensures process != "" && loaded.Err? ==> err == Some(LoadError(loaded.error)) && saved.None?
      ensures process != "" && loaded.Ok? ==>
                var newApp := AppConfig(process, resolution, monitor, Some(restoreResolution));
                && saved == Some(loaded.value.(applications := SavedRules(loaded.value.applications, newApp, original, monitors)))
                && err == SaveResult(SaveConfig(saved.value, encode, writeOk))
      ensures resMonitor != null ==>
                && resMonitor.config == (if err.None? then saved.value else old(resMonitor.config))
                && resMonitor.currentAppRes == old(resMonitor.currentAppRes)
                && resMonitor.activeApps == old(resMonitor.activeApps)
                && resMonitor.handled == old(resMonitor.handled)
    {
      if process == "" {
        return Some(NoProcessName), None;
      }
      if loaded.Err? {
        return Some(LoadError(loaded.error)), None;
      }
      var config := loaded.value;
      var newApp := AppConfig(process, resolution, monitor, Some(restoreResolution));
      if original.Some? {
        var deviceName := GetDeviceNameFromDisplayName(monitors, original.value.monitorName);
        var newApps := RemoveMatching(config.applications, original.value.processName, original.value.resolution, deviceName);
        config := config.(applications := newApps);
      }
      config := config.(applications := config.applications + [newApp]);
      var outcome := SaveConfig(config, encode, writeOk);
      if outcome.error.Some? {
        return Some(SaveError(outcome.error.value)), Some(config);
      }
      if resMonitor != null {
        resMonitor.SetConfig(config);
      }
      return None, Some(config);
    }

    /** `saveSettings`: the poll interval is checked before anything is loaded; then the four
        settings are set, the startup entry is updated (`startupOk`: it succeeds) and the
        configuration is saved. */
    method SaveSettings(pollText: string, showGui: bool, startWithWindows: bool, autoStart: bool,
                        loaded: Result<Config, ConfigError>, startupOk: bool,
                        encode: Config -> Option<Bytes>, writeOk: bool)
      returns (err: Option<GuiError>, saved: Option<Config>)
      requires Valid()
      modifies resMonitor
      ensures Valid()
      ensures err.None? ==> saved.Some?
      ensures !AcceptedInterval(pollText) ==> err == Some(BadPollInterval) && saved.None?
      ensures AcceptedInterval(pollText) && loaded.Err? ==> err == Some(LoadError(loaded.error)) && saved.None?
      ensures AcceptedInterval(pollText) && loaded.Ok? && !startupOk ==> err == Some(StartupError) && saved.None?
      ensures AcceptedInterval(pollText) && loaded.Ok? && startupOk ==>
                && saved == Some(WithSettings(loaded.value, Atoi(pollText).value, showGui, startWithWindows, autoStart))
                && err == SaveResult(SaveConfig(saved.value, encode, writeOk))
      ensures resMonitor != null ==>
                && resMonitor.config == (if err.None? then saved.value else old(resMonitor.config))
                && resMonitor.currentAppRes == old(resMonitor.currentAppRes)
                && resMonitor.activeApps == old(resMonitor.activeApps)
                && resMonitor.handled == old(resMonitor.handled)
    {
      var pollInterval := Atoi(pollText);
      if pollInterval.None? || pollInterval.value < 1 {
        return Some(BadPollInterval), None;
      }
      if loaded.Err? {
        return Some(LoadError(loaded.error)), None;
      }
      var config := loaded.value;
      config := config.(pollInterval := pollInterval.value);
      config := config.(showGuiOnLaunch := showGui);
      config := config.(startWithWindows := startWithWindows);
      config := config.(autoStartMonitoring := autoStart);
      if !startupOk {
        return Some(StartupError), None;
      }
      var outcome := SaveConfig(config, encode, writeOk);
      if outcome.error.Some? {
        return Some(SaveError(outcome.error.value)), Some(config);
      }
      if resMonitor != null {
        resMonitor.SetConfig(config);
      }
      return None, Some(config);
    }

    /** `startMonitoring`: nothing happens when already running; a missing resolution monitor
        is created first, and a failure to create it leaves monitoring off. */
    method StartMonitoring(loaded: Result<Config, ConfigError>, display: DisplayManager)
      returns (err: Option<GuiError>)
      requires Valid()
      modifies this
      ensures Valid() && appData == old(appData)
      ensures old(isRunning) || old(resMonitor) != null ==> err.None? && isRunning && resMonitor == old(resMonitor)
      ensures !old(isRunning) && old(resMonitor) == null ==>
                && (loaded.Err? ==> err == Some(MonitorError(ConfigFailed(loaded.error))))
                && (loaded.Ok? && display.Enumeration().Err? ==>
                      err == Some(MonitorError(MonitorsFailed(display.Enumeration().error))))
                && (loaded.Ok? && display.Enumeration().Ok? && display.CurrentResolution("").Err? ==>
                      err == Some(MonitorError(PrimaryFailed(display.CurrentResolution("").error))))
                && (err.None? <==> loaded.Ok? && display.Enumeration().Ok? && display.CurrentResolution("").Ok?)
                && (err.Some? ==> !isRunning && resMonitor == null)
                && (err.None? ==> && isRunning && fresh(resMonitor)
                                  && resMonitor.config == loaded.value && resMonitor.display == display
                                  && resMonitor.currentAppRes == map[] && resMonitor.activeApps == map[])
    {
      if isRunning {
        return None;
      }
      if resMonitor == null {
        var monitor := NewResolutionMonitor(loaded, display);
        if monitor.Err? {
          return Some(MonitorError(monitor.error));
        }
        resMonitor := monitor.value;
      }
      isRunning := true;
      return None;
    }

    /** `stopMonitoring`: nothing happens when not running. Otherwise monitoring is switched
        off; each forced monitor with a captured original resolution gets a change back to it,
        the others are passed over, and both maps are emptied whatever the changes returned. */
    method StopMonitoring()
      requires Valid()
      modifies this, if resMonitor != null then {resMonitor, resMonitor.display} else {}
      ensures Valid() && !isRunning && appData == old(appData) && resMonitor == old(resMonitor)
      ensures !old(isRunning) && resMonitor != null ==> unchanged(resMonitor) && unchanged(resMonitor.display)
      ensures old(isRunning) ==>
                var m := resMonitor;
                var start := |old(m.display.changes)|;
                && m.activeApps == map[] && m.currentAppRes == map[]
                && m.config == old(m.config) && m.handled == old(m.handled)
                && start <= |m.display.changes| && m.display.changes[..start] == old(m.display.changes)
                && (forall c :: c in m.display.changes[start..] ==>
                      c.monitor in old(m.currentAppRes) && c.monitor in m.originalRes && c.mode == m.originalRes[c.monitor])
                && (forall k :: k in old(m.currentAppRes) && k in m.originalRes ==>
                      ChangeCall(k, m.originalRes[k]) in m.display.changes[start..])
                && (forall d :: d in old(m.display.live) ==> d in m.display.live)
                && (forall d :: d in m.display.live ==>
                      (d in old(m.display.live) && m.display.live[d] == old(m.display.live)[d]) ||
                      (exists k :: k in old(m.currentAppRes) && k in m.originalRes &&
                                   m.display.Key(k) == d && m.display.live[d] == m.originalRes[k]))
    {
      if !isRunning {
        return;
      }
      isRunning := false;
      var m := resMonitor;
      if m != null {
        var order := MapOrder(m.currentAppRes.Keys);
        ghost var added: seq<ChangeCall> := [];
        for i := 0 to |order|
          modifies m.display
          invariant m.display.changes == old(m.display.changes) + added
          invariant forall c :: c in added ==>
                      c.monitor in m.currentAppRes && c.monitor in m.originalRes && c.mode == m.originalRes[c.monitor]
          invariant forall j :: 0 <= j < i && order[j] in m.originalRes ==> ChangeCall(order[j], m.originalRes[order[j]]) in added
          invariant forall d :: d in old(m.display.live) ==> d in m.display.live
          invariant forall d :: d in m.display.live ==>
                      (d in old(m.display.live) && m.display.live[d] == old(m.display.live)[d]) ||
                      (exists k :: k in m.currentAppRes && k in m.originalRes &&
                                   m.display.Key(k) == d && m.display.live[d] == m.originalRes[k])
        {
          var monitorName := order[i];
          if monitorName !in m.originalRes {
            continue;
          }
          var originalRes := m.originalRes[monitorName];
          ghost var n := m.display.AttemptsMade(|m.display.changes|);
          var _ := m.display.SetResolution(monitorName, originalRes);
          RestoreCalls(added, monitorName, originalRes, n);
          added := added + Repeat(ChangeCall(monitorName, originalRes), n);
        }
        assert m.display.changes[|old(m.display.changes)|..] == added;
        m.activeApps := map[];
        m.currentAppRes := map[];
      }
    }
  }
}
