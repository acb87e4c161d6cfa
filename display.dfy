/** Display modes and monitors, over abstract answers of the Win32 display calls and of
    the WMI monitor query. */
module Display {
  import opened Wrappers
  import opened Strings
  import opened Config

  datatype DisplayError =
    | NameNotUtf16       // the monitor name cannot be converted to UTF-16
    | QueryFailed        // EnumDisplaySettings refused the current-settings query
    | ChangeFailed(attempts: nat)
    | EnumerationFailed  // EnumDisplayDevices reported an error

  /** One monitor as `GetAvailableMonitors` reports it. */
  datatype MonitorInfo = MonitorInfo(deviceName: string, deviceString: string, isPrimary: bool)

  /** One call of ChangeDisplaySettingsEx, as the display saw it. */
  datatype ChangeCall = ChangeCall(monitor: string, mode: Resolution)

  /** A monitor enumerated under a display adapter. */
  datatype ChildDevice = ChildDevice(deviceString: string, stateFlags: bv32)

  /** A display adapter, with the monitors enumerated under it (up to the first failing
      index or error, which both end the inner enumeration). */
  datatype Adapter = Adapter(deviceName: string, deviceString: string, stateFlags: bv32, children: seq<ChildDevice>)

  /** The fields of a WMI Win32_PnPEntity row the program looks at. */
  datatype PnPEntity = PnPEntity(name: string, description: string, pnpDeviceId: string)

  const DISPLAY_DEVICE_ATTACHED_TO_DESKTOP: bv32 := 0x1
  const DISPLAY_DEVICE_ACTIVE: bv32 := 0x1
  const DISPLAY_DEVICE_PRIMARY_DEVICE: bv32 := 0x4
  const MAX_RETRIES: nat := 3

  /** A name `syscall.UTF16PtrFromString` rejects: it contains a NUL character. */
  predicate NotUtf16(name: string) {
    '\0' in name
  }

  /** `IsResolutionEqual`: all three fields agree. */
  function IsResolutionEqual(a: Resolution, b: Resolution): (r: bool)
    ensures r <==> a == b
  {
    a.width == b.width && a.height == b.height && a.frequency == b.frequency
  }

  lemma IsResolutionEqualIsEquivalence(a: Resolution, b: Resolution, c: Resolution)
    ensures IsResolutionEqual(a, a)
    ensures IsResolutionEqual(a, b) == IsResolutionEqual(b, a)
    ensures IsResolutionEqual(a, b) && IsResolutionEqual(b, c) ==> IsResolutionEqual(a, c)
  {
  }

  /** `n` copies of `x`. */
  function Repeat<T>(x: T, n: nat): (r: seq<T>)
    ensures |r| == n && forall i :: 0 <= i < n ==> r[i] == x
  {
    seq(n, _ => x)
  }

  /** The modes in enumeration order, each kept at its first occurrence only. */
  function Dedup(s: seq<Resolution>): seq<Resolution> {
    if s == [] then []
    else
      var d := Dedup(s[..|s| - 1]);
      if s[|s| - 1] in d then d else d + [s[|s| - 1]]
  }

  /** De-duplication loses no mode and adds none. */
  lemma {:induction false} DedupMembers(s: seq<Resolution>, x: Resolution)
    ensures x in Dedup(s) <==> x in s
  {
    if s != [] {
      DedupMembers(s[..|s| - 1], x);
      assert s == s[..|s| - 1] + [s[|s| - 1]];
    }
  }

  /** No mode appears twice in the result. */
  lemma {:induction false} DedupDistinct(s: seq<Resolution>)
    ensures forall i, j :: 0 <= i < j < |Dedup(s)| ==> Dedup(s)[i] != Dedup(s)[j]
  {
    if s != [] {
      DedupDistinct(s[..|s| - 1]);
    }
  }

  /** Enumerating fewer modes gives a prefix of the result: the result keeps each mode at
      its first occurrence, in enumeration order. */
  lemma {:induction false} DedupPrefix(s: seq<Resolution>, k: nat)
    requires k <= |s|
    ensures Dedup(s[..k]) <= Dedup(s)
    decreases |s|
  {
    if k < |s| {
      var init := s[..|s| - 1];
      assert init[..k] == s[..k];
      DedupPrefix(init, k);
    } else {
      assert s[..k] == s;
    }
  }

  /** A mode that first occurs before another comes before it in the result. */
  lemma DedupOrder(s: seq<Resolution>, k: nat, x: Resolution, y: Resolution)
    requires k <= |s| && x in s[..k] && y in s && y !in s[..k]
    ensures exists i, j :: 0 <= i < j < |Dedup(s)| && Dedup(s)[i] == x && Dedup(s)[j] == y
  {
    var p := Dedup(s[..k]);
    DedupPrefix(s, k);
    DedupMembers(s[..k], x);
    DedupMembers(s[..k], y);
    DedupMembers(s, y);
    var i :| 0 <= i < |p| && p[i] == x;
    var j :| 0 <= j < |Dedup(s)| && Dedup(s)[j] == y;
    assert Dedup(s)[i] == x;
    assert y !in p;
    assert forall k :: 0 <= k < |p| ==> p[k] == Dedup(s)[k];
  }

  /** A display that answers the program's Win32 calls. */
  class DisplayManager {
    /** The device name of the primary monitor; a call with monitor "" addresses it. */
    const primary: string
    /** The current mode of every monitor, by device name. */
    var live: map<string, Resolution>
    /** What mode enumeration yields for a device before its first failing index. */
    const modes: map<string, seq<Resolution>>
    /** The adapter enumeration; None when it reports an error. */
    const adapters: Option<seq<Adapter>>
    /** The WMI query for display entities; None when it fails. */
    const wmi: Option<seq<PnPEntity>>
    /** The return code of the n-th ChangeDisplaySettingsEx call (0 is success). */
    const changeCode: nat -> int
    /** Every ChangeDisplaySettingsEx call made so far, in order. */
    var changes: seq<ChangeCall>

    constructor (primary: string, live: map<string, Resolution>, modes: map<string, seq<Resolution>>,
                 adapters: Option<seq<Adapter>>, wmi: Option<seq<PnPEntity>>, changeCode: nat -> int)
      ensures this.primary == primary && this.live == live && this.modes == modes
      ensures this.adapters == adapters && this.wmi == wmi && this.changeCode == changeCode
      ensures changes == []
    {
      this.primary := primary;
      this.live := live;
      this.modes := modes;
      this.adapters := adapters;
      this.wmi := wmi;
      this.changeCode := changeCode;
      changes := [];
    }

    /** The device a monitor name addresses ("" is the primary monitor). */
    function Key(monitor: string): string {
      if monitor == "" then primary else monitor
    }

    /** `GetCurrentResolutionForMonitor`: the monitor's current mode. */
    function CurrentResolution(monitor: string): (r: Result<Resolution, DisplayError>)
      reads this
      ensures monitor != "" && NotUtf16(monitor) ==> r == Err(NameNotUtf16)
      ensures r.Ok? <==> !(monitor != "" && NotUtf16(monitor)) && Key(monitor) in live
      ensures r.Ok? ==> r.value == live[Key(monitor)]
    {
      if monitor != "" && NotUtf16(monitor) then Err(NameNotUtf16)
      else if Key(monitor) in live then Ok(live[Key(monitor)])
      else Err(QueryFailed)
    }

    /** The return code of change call number `n`. */
    function Code(n: nat): int {
      changeCode(n)
    }

    /** The change call numbered `start` or one of the two after it succeeds. */
    predicate ChangeSucceeds(start: nat) {
      Code(start) == 0 || Code(start + 1) == 0 || Code(start + 2) == 0
    }

    /** How many change calls a `SetResolution` starting at call `start` makes: up to and
        including the first success, and never more than three. */
    function AttemptsMade(start: nat): (n: nat)
      ensures 1 <= n <= MAX_RETRIES
      ensures forall k :: start <= k < start + n - 1 ==> Code(k) != 0
      ensures ChangeSucceeds(start) ==> Code(start + n - 1) == 0
      ensures !ChangeSucceeds(start) ==> n == MAX_RETRIES
    {
      if Code(start) == 0 then 1
      else if Code(start + 1) == 0 then 2
      else 3
    }

    /** `SetResolution`: a monitor name that is not valid UTF-16 fails before any change
        call; otherwise up to three change calls are made, stopping at the first success,
        with every failure code retried alike. Success puts the mode in force. */
    method SetResolution(monitor: string, mode: Resolution) returns (err: Option<DisplayError>)
      modifies this
      ensures monitor != "" && NotUtf16(monitor) ==>
                err == Some(NameNotUtf16) && changes == old(changes) && live == old(live)
      ensures !(monitor != "" && NotUtf16(monitor)) ==>
                && changes == old(changes) + Repeat(ChangeCall(monitor, mode), AttemptsMade(|old(changes)|))
                && (err.None? <==> ChangeSucceeds(|old(changes)|))
                && (err.None? ==> live == old(live)[Key(monitor) := mode])
                && (err.Some? ==> live == old(live) && err == Some(ChangeFailed(MAX_RETRIES)))
    {
      if monitor != "" && NotUtf16(monitor) {
        return Some(NameNotUtf16);
      }
      ghost var start := |changes|;
      var i := 0;
      while i < MAX_RETRIES
        invariant 0 <= i <= MAX_RETRIES
        invariant changes == old(changes) + Repeat(ChangeCall(monitor, mode), i)
        invariant |changes| == start + i
        invariant forall k :: start <= k < start + i ==> Code(k) != 0
        invariant live == old(live)
      {
        var code := Code(|changes|);
        assert code == Code(start + i);
        changes := changes + [ChangeCall(monitor, mode)];
        if code == 0 {
          live := live[Key(monitor) := mode];
          assert Repeat(ChangeCall(monitor, mode), i) + [ChangeCall(monitor, mode)]
              == Repeat(ChangeCall(monitor, mode), i + 1);
          return None;
        }
        assert Repeat(ChangeCall(monitor, mode), i) + [ChangeCall(monitor, mode)]
            == Repeat(ChangeCall(monitor, mode), i + 1);
        i := i + 1;
      }
      return Some(ChangeFailed(MAX_RETRIES));
    }

    /** `GetAvailableResolutions`: every mode enumerated for the monitor, duplicates
        dropped, first occurrences kept in enumeration order. */
    method GetAvailableResolutions(monitor: string) returns (r: Result<seq<Resolution>, DisplayError>)
      ensures monitor != "" && NotUtf16(monitor) ==> r == Err(NameNotUtf16)
      ensures !(monitor != "" && NotUtf16(monitor)) ==> r == Ok(Dedup(Enumerated(monitor)))
    {
      if monitor != "" && NotUtf16(monitor) {
        return Err(NameNotUtf16);
      }
      var enumerated := Enumerated(monitor);
      var resolutions: seq<Resolution> := [];
      for n := 0 to |enumerated|
        invariant resolutions == Dedup(enumerated[..n])
      {
        var resolution := enumerated[n];
        var isDuplicate := false;
        for k := 0 to |resolutions|
          invariant isDuplicate <==> resolution in resolutions[..k]
        {
          if IsResolutionEqual(resolutions[k], resolution) {
            isDuplicate := true;
            break;
          }
        }
        assert resolutions[..|resolutions|] == resolutions;
        assert enumerated[..n + 1][..n] == enumerated[..n];
        if !isDuplicate {
          resolutions := resolutions + [resolution];
        }
      }
      assert enumerated[..|enumerated|] == enumerated;
      return Ok(resolutions);
    }

    /** The modes enumeration yields for a monitor (none for an unknown device). */
    function Enumerated(monitor: string): seq<Resolution> {
      if Key(monitor) in modes then modes[Key(monitor)] else []
    }

    /** `getMonitorNamesFromWMI`: the extracted names of the monitor entities, in query
        order; nothing when the query fails. */
    method GetMonitorNamesFromWmi() returns (names: seq<string>)
      ensures wmi.None? ==> names == []
      ensures wmi.Some? ==> names == WmiNames(wmi.value)
    {
      names := [];
      if wmi.None? {
        return;
      }
      var devices := wmi.value;
      for i := 0 to |devices|
        invariant names == WmiNames(devices[..i])
      {
        assert devices[..i + 1][..i] == devices[..i];
        var device := devices[i];
        if IsMonitorEntity(device) {
          var group := ParenGroup(device.name);
          assert group == WmiName(device);
          if group.Some? {
            names := names + [group.value];
          }
        }
      }
      assert devices[..|devices|] == devices;
    }

    /** The monitor list an enumeration yields. */
    function Enumeration(): Result<seq<MonitorInfo>, DisplayError> {
      if adapters.None? then Err(EnumerationFailed)
      else Ok(Assemble(adapters.value, if wmi.None? then [] else WmiNames(wmi.value)))
    }

    /** `GetAvailableMonitors`: the attached adapters in enumeration order, each named
        after a WMI name or a monitor under it; an enumeration error gives no list. */
    method GetAvailableMonitors() returns (r: Result<seq<MonitorInfo>, DisplayError>)
      ensures r == Enumeration()
      ensures adapters.None? ==> r == Err(EnumerationFailed)
      ensures adapters.Some? && wmi.None? ==> r == Ok(Assemble(adapters.value, []))
      ensures adapters.Some? && wmi.Some? ==> r == Ok(Assemble(adapters.value, WmiNames(wmi.value)))
    {
      var monitorNames := GetMonitorNamesFromWmi();
      if adapters.None? {
        return Err(EnumerationFailed);
      }
      var all := adapters.value;
      var monitors: seq<MonitorInfo> := [];
      for i := 0 to |all|
        invariant monitors + Assemble(all[i..], monitorNames) == Assemble(all, if wmi.None? then [] else WmiNames(wmi.value))
      {
        var adapter := all[i];
        assert all[i..][1..] == all[i + 1..];
        if adapter.stateFlags & (DISPLAY_DEVICE_ATTACHED_TO_DESKTOP | DISPLAY_DEVICE_ACTIVE) != 0 {
          var monitorName := adapter.deviceString;
          var children := adapter.children;
          monitorName, monitorNames := PickMonitorName(children, monitorNames, monitorName);
          monitors := monitors + [MonitorInfo(adapter.deviceName, monitorName,
                                              adapter.stateFlags & DISPLAY_DEVICE_PRIMARY_DEVICE != 0)];
        }
      }
      assert all[|all|..] == [];
      assert Assemble(all[|all|..], monitorNames) == [];
      assert monitors == Assemble(all, if wmi.None? then [] else WmiNames(wmi.value));
      return Ok(monitors);
    }
  }

  /** The filter `getMonitorNamesFromWMI` applies: "Monitor" in the name or description, or
      "MONITOR" in the PnP device id. */
  predicate IsMonitorEntity(e: PnPEntity) {
    Contains(e.name, "Monitor") || Contains(e.description, "Monitor") || Contains(e.pnpDeviceId, "MONITOR")
  }

  /** The regular expression `\(([^)]+)\)` matches at index `q` with group `g`. */
  predicate GroupAt(s: string, g: string, q: int) {
    g != [] && ')' !in g && OccursAt(s, "(" + g + ")", q)
  }

  /** A match at `p` is a '(', the characters of the group, none of them ')', and a ')'. */
  lemma GroupAtChars(s: string, g: string, p: nat)
    requires GroupAt(s, g, p)
    ensures s[p] == '(' && s[p + 1 + |g|] == ')'
    ensures forall j :: p + 1 <= j < p + 1 + |g| ==> s[j] != ')'
  {
    var e := p + 1 + |g|;
    assert s[p..e + 1] == "(" + g + ")";
    assert s[p] == s[p..e + 1][0];
    assert s[e] == s[p..e + 1][e - p];
    forall j | p + 1 <= j < e ensures s[j] != ')' {
      assert s[j] == s[p..e + 1][j - p] == g[j - p - 1];
    }
  }

  /** No group starts at `p` unless `s[p]` is '(' and the next ')' after it is not the
      character right after it. */
  lemma NoGroupAt(s: string, p: nat, g: string)
    requires p < |s|
    requires !(s[p] == '(' && IndexFrom(s, ")", p + 1) > p + 1)
    ensures !GroupAt(s, g, p)
  {
    if GroupAt(s, g, p) {
      GroupAtChars(s, g, p);
      IndexFromChar(s, ')', p + 1);
    }
  }

  /** A '(' whose next ')' is not the character right after it starts a match, whose group
      is the text in between. */
  lemma GroupAtFirstClose(s: string, p: nat)
    requires p < |s| && s[p] == '(' && IndexFrom(s, ")", p + 1) > p + 1
    ensures GroupAt(s, s[p + 1..IndexFrom(s, ")", p + 1)], p)
  {
    var q := IndexFrom(s, ")", p + 1);
    var g := s[p + 1..q];
    IndexFromChar(s, ')', p + 1);
    SliceWithout(s, p + 1, q, ')');
    SliceEnds(s, p, q);
  }

  /** The first group of the regular expression `\(([^)]+)\)` at index `p` or later: a
      '(' whose next ')' is not the character right after it. None exactly when no match
      starts at `p` or later; otherwise the group of the leftmost match. */
  function GroupFrom(s: string, p: nat): (r: Option<string>)
    ensures r.None? ==> forall q, g :: p <= q ==> !GroupAt(s, g, q)
    ensures r.Some? ==> exists q :: p <= q && GroupAt(s, r.value, q) &&
                                    forall q', g' :: p <= q' < q ==> !GroupAt(s, g', q')
    decreases |s| - p
  {
    if p >= |s| then None
    else
      var q := IndexFrom(s, ")", p + 1);
      if s[p] == '(' && q > p + 1 then
        GroupAtFirstClose(s, p);
        Some(s[p + 1..q])
      else
        assert forall g :: !GroupAt(s, g, p) by {
          forall g ensures !GroupAt(s, g, p) { NoGroupAt(s, p, g); }
        }
        GroupFrom(s, p + 1)
  }

  /** The leftmost match of `\(([^)]+)\)` in the name, as `FindStringSubmatch` finds it. */
  function ParenGroup(s: string): Option<string> {
    GroupFrom(s, 0)
  }

  /** The names `getMonitorNamesFromWMI` extracts from a WMI answer. */
  function WmiNames(es: seq<PnPEntity>): seq<string> {
    if es == [] then []
    else
      var rest := WmiNames(es[..|es| - 1]);
      var e := es[|es| - 1];
      if WmiName(e).Some? then rest + [WmiName(e).value] else rest
  }

  /** The name one WMI entity contributes: the parenthesised group of its name, when it
      passes the filter and has one. */
  function WmiName(e: PnPEntity): Option<string> {
    if IsMonitorEntity(e) then ParenGroup(e.name) else None
  }

  predicate IsActive(flags: bv32) {
    flags & DISPLAY_DEVICE_ACTIVE != 0
  }

  /** The inner loop of `GetAvailableMonitors` over the monitors of one adapter: the first
      active monitor takes the head of the WMI queue, leaving the last name in place, or
      else a monitor string other than "" and "Generic PnP Monitor" is used. Returns the
      chosen name and the queue left. */
  function PickName(children: seq<ChildDevice>, names: seq<string>, fallback: string): (string, seq<string>) {
    if children == [] then (fallback, names)
    else
      var c := children[0];
      if IsActive(c.stateFlags) && |names| > 0 then
        (names[0], if |names| > 1 then names[1..] else names)
      else if IsActive(c.stateFlags) && c.deviceString != "" && c.deviceString != "Generic PnP Monitor" then
        (c.deviceString, names)
      else PickName(children[1..], names, fallback)
  }

  /** The inner loop of `GetAvailableMonitors`, over the monitors of one adapter. */
  method PickMonitorName(children: seq<ChildDevice>, names: seq<string>, fallback: string)
    returns (monitorName: string, monitorNames: seq<string>)
    ensures (monitorName, monitorNames) == PickName(children, names, fallback)
  {
    monitorName := fallback;
    monitorNames := names;
    for j := 0 to |children|
      invariant PickName(children[j..], names, fallback) == PickName(children, names, fallback)
      invariant monitorNames == names && monitorName == fallback
    {
      var child := children[j];
      assert children[j..][0] == child && children[j..][1..] == children[j + 1..];
      if child.stateFlags & DISPLAY_DEVICE_ACTIVE != 0 {
        if |monitorNames| > 0 {
          monitorName := monitorNames[0];
          if |monitorNames| > 1 {
            monitorNames := monitorNames[1..];
          }
          return;
        }
        if child.deviceString != "" && child.deviceString != "Generic PnP Monitor" {
          monitorName := child.deviceString;
          return;
        }
      }
    }
  }

  /** The monitor list `GetAvailableMonitors` assembles from the adapters and WMI names. */
  function Assemble(adapters: seq<Adapter>, names: seq<string>): seq<MonitorInfo> {
    if adapters == [] then []
    else
      var a := adapters[0];
      if a.stateFlags & (DISPLAY_DEVICE_ATTACHED_TO_DESKTOP | DISPLAY_DEVICE_ACTIVE) != 0 then
        var (name, rest) := PickName(a.children, names, a.deviceString);
        [MonitorInfo(a.deviceName, name, a.stateFlags & DISPLAY_DEVICE_PRIMARY_DEVICE != 0)]
          + Assemble(adapters[1..], rest)
      else Assemble(adapters[1..], names)
  }

  /** A WMI entity contributes a name exactly when it passes the filter and its name has a
      parenthesised group; the group is that name. */
  lemma {:induction false} WmiNamesMembers(es: seq<PnPEntity>, x: string)
    ensures x in WmiNames(es) <==> exists i :: 0 <= i < |es| && WmiName(es[i]) == Some(x)
  {
    if es != [] {
      var init := es[..|es| - 1];
      var last := es[|es| - 1];
      WmiNamesMembers(init, x);
      if x in WmiNames(es) {
        if x in WmiNames(init) {
          var i :| 0 <= i < |init| && WmiName(init[i]) == Some(x);
          assert es[i] == init[i];
        } else {
          assert WmiName(es[|es| - 1]) == Some(x);
        }
      } else {
        forall i | 0 <= i < |es|
          ensures WmiName(es[i]) != Some(x)
        {
          if i < |init| {
            assert es[i] == init[i];
          }
        }
      }
    }
  }

  /** Names come out in query order. */
  lemma {:induction false} WmiNamesOrder(a: seq<PnPEntity>, b: seq<PnPEntity>)
    ensures WmiNames(a + b) == WmiNames(a) + WmiNames(b)
  {
    if b == [] {
      assert a + b == a;
    } else {
      var init := b[..|b| - 1];
      assert (a + b)[..|a + b| - 1] == a + init;
      WmiNamesOrder(a, init);
    }
  }

  /** The adapters `GetAvailableMonitors` reports: those with state bit 0x1 set. */
  function AttachedAdapters(adapters: seq<Adapter>): seq<Adapter> {
    if adapters == [] then []
    else if adapters[0].stateFlags & DISPLAY_DEVICE_ATTACHED_TO_DESKTOP != 0 then
      [adapters[0]] + AttachedAdapters(adapters[1..])
    else AttachedAdapters(adapters[1..])
  }

  /** One monitor per attached adapter, in enumeration order, carrying the adapter's
      device name, and primary exactly when state bit 0x4 is set. */
  lemma {:induction false} AssembleShape(adapters: seq<Adapter>, names: seq<string>)
    ensures |Assemble(adapters, names)| == |AttachedAdapters(adapters)|
    ensures forall k :: 0 <= k < |Assemble(adapters, names)| ==>
              && Assemble(adapters, names)[k].deviceName == AttachedAdapters(adapters)[k].deviceName
              && (Assemble(adapters, names)[k].isPrimary <==>
                  AttachedAdapters(adapters)[k].stateFlags & DISPLAY_DEVICE_PRIMARY_DEVICE != 0)
  {
    if adapters != [] {
      var a := adapters[0];
      var (name, rest) := PickName(a.children, names, a.deviceString);
      if a.stateFlags & DISPLAY_DEVICE_ATTACHED_TO_DESKTOP != 0 {
        AssembleShape(adapters[1..], rest);
      } else {
        AssembleShape(adapters[1..], names);
      }
    }
  }

  predicate HasActiveChild(children: seq<ChildDevice>) {
    exists i :: 0 <= i < |children| && IsActive(children[i].stateFlags)
  }

  /** With WMI names left, an adapter with an active monitor takes the head of the queue,
      and the queue shrinks unless only one name is left. */
  lemma {:induction false} PickNameTakesHead(children: seq<ChildDevice>, names: seq<string>, fallback: string)
    requires names != [] && HasActiveChild(children)
    ensures PickName(children, names, fallback) == (names[0], if |names| > 1 then names[1..] else names)
  {
    if !IsActive(children[0].stateFlags) {
      var i :| 0 <= i < |children| && IsActive(children[i].stateFlags);
      assert IsActive(children[1..][i - 1].stateFlags);
      PickNameTakesHead(children[1..], names, fallback);
    }
  }

  /** An adapter with no active monitor keeps its own device string and the queue. */
  lemma {:induction false} PickNameNoActive(children: seq<ChildDevice>, names: seq<string>, fallback: string)
    requires !HasActiveChild(children)
    ensures PickName(children, names, fallback) == (fallback, names)
  {
    if children != [] {
      assert !HasActiveChild(children[1..]) by {
        forall i | 0 <= i < |children[1..]| ensures !IsActive(children[1..][i].stateFlags) {
          assert children[1..][i] == children[i + 1];
        }
      }
      PickNameNoActive(children[1..], names, fallback);
    }
  }

  /** A monitor string the fallback accepts: an active monitor named other than "" and
      "Generic PnP Monitor". */
  predicate UsableString(c: ChildDevice) {
    IsActive(c.stateFlags) && c.deviceString != "" && c.deviceString != "Generic PnP Monitor"
  }

  /** Without WMI names: the first usable monitor string, or else the adapter's string. */
  lemma {:induction false} PickNameWithoutWmi(children: seq<ChildDevice>, fallback: string)
    ensures PickName(children, [], fallback).1 == []
    ensures (forall i :: 0 <= i < |children| ==> !UsableString(children[i])) ==>
              PickName(children, [], fallback).0 == fallback
    ensures forall i ::
              (0 <= i < |children| && UsableString(children[i])
               && forall j :: 0 <= j < i ==> !UsableString(children[j])) ==>
              PickName(children, [], fallback).0 == children[i].deviceString
  {
    if children != [] {
      PickNameWithoutWmi(children[1..], fallback);
      assert forall i :: 1 <= i < |children| ==> children[1..][i - 1] == children[i];
    }
  }

  /** How many of the adapters have an active monitor (each of them takes a WMI name). */
  function Takers(adapters: seq<Adapter>): nat {
    if adapters == [] then 0
    else (if HasActiveChild(adapters[0].children) then 1 else 0) + Takers(adapters[1..])
  }

  function Min(a: int, b: int): int {
    if a < b then a else b
  }

  /** WMI names are handed out in order to the adapters that have an active monitor, and
      the last name is handed to every such adapter after it. */
  lemma {:induction false} AssembleHandsOutNames(adapters: seq<Adapter>, names: seq<string>, k: nat)
    requires names != []
    requires k < |AttachedAdapters(adapters)| && HasActiveChild(AttachedAdapters(adapters)[k].children)
    ensures k < |Assemble(adapters, names)|
    ensures Assemble(adapters, names)[k].deviceString ==
            names[Min(Takers(AttachedAdapters(adapters)[..k]), |names| - 1)]
  {
    AssembleShape(adapters, names);
    var a := adapters[0];
    var tail := adapters[1..];
    var attached := AttachedAdapters(adapters);
    if a.stateFlags & DISPLAY_DEVICE_ATTACHED_TO_DESKTOP == 0 {
      AssembleHandsOutNames(tail, names, k);
    } else if k == 0 {
      PickNameTakesHead(a.children, names, a.deviceString);
    } else {
      var rest := PickName(a.children, names, a.deviceString).1;
      assert attached == [a] + AttachedAdapters(tail);
      assert attached[..k] == [a] + AttachedAdapters(tail)[..k - 1];
      assert ([a] + AttachedAdapters(tail)[..k - 1])[1..] == AttachedAdapters(tail)[..k - 1];
      assert AttachedAdapters(tail)[k - 1] == attached[k];
      if HasActiveChild(a.children) {
        PickNameTakesHead(a.children, names, a.deviceString);
      } else {
        PickNameNoActive(a.children, names, a.deviceString);
      }
      AssembleHandsOutNames(tail, rest, k - 1);
    }
  }
}
