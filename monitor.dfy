/** The resolution monitor: the per-monitor state machine that forces a rule's resolution
    while its process runs and restores the default resolution when it stops. */
module Monitor {
  import opened Wrappers
  import opened Strings
  import opened Config
  import opened Process
  import opened Display

  /** A call of one of the two handlers, recorded for the specification: a start with the
      rule it was given, or a stop. */
  datatype Handled = Started(name: string, rule: AppConfig) | Stopped(name: string)

  datatype StartError =
    | ConfigFailed(configCause: ConfigError)
    | MonitorsFailed(cause: DisplayError)
    | PrimaryFailed(cause: DisplayError)

  /** The monitor named by the first rule for `name`, or "" when no rule has that name. */
  function RuleMonitor(apps: seq<AppConfig>, name: string): (r: string)
    ensures (forall i :: 0 <= i < |apps| ==> apps[i].processName != name) ==> r == ""
    ensures forall i :: (0 <= i < |apps| && apps[i].processName == name
                         && forall j :: 0 <= j < i ==> apps[j].processName != name) ==> r == apps[i].monitorName
  {
    if apps == [] then ""
    else if apps[0].processName == name then apps[0].monitorName
    else
      var r := RuleMonitor(apps[1..], name);
      assert forall i :: 1 <= i < |apps| ==> apps[i] == apps[1..][i - 1];
      r
  }

  /** Some other active application uses `monitor`. */
  predicate StillInUse(active: map<string, AppConfig>, monitor: string, name: string) {
    exists k :: k in active && active[k].monitorName == monitor && active[k].processName != name
  }

  /** The handler calls of one tick: a start with the scanned rule for every newly running
      name, then a stop for every name no longer running, each exactly once, and nothing
      else. */
  predicate TickHandled(events: seq<Handled>, running: map<string, AppConfig>, previous: map<string, AppConfig>) {
    && (forall i :: 0 <= i < |events| ==>
          || (events[i].Started? && events[i].name in running && events[i].name !in previous
              && events[i].rule == running[events[i].name])
          || (events[i].Stopped? && events[i].name in previous && events[i].name !in running))
    && (forall n :: n in running && n !in previous ==> Started(n, running[n]) in events)
    && (forall n :: n in previous && n !in running ==> Stopped(n) in events)
    && Distinct(events)
    && (forall i, j :: 0 <= i < j < |events| && events[i].Stopped? ==> events[j].Stopped?)
  }

  /** No event occurs twice. */
  predicate Distinct(events: seq<Handled>) {
    forall i, j :: 0 <= i < j < |events| ==> events[i] != events[j]
  }

  /** The event a handler call for `n` records: a stop when `stop`, otherwise a start with
      the rule `rules` holds for `n`. */
  function EventFor(n: string, stop: bool, rules: map<string, AppConfig>): Handled
    requires stop || n in rules
  {
    if stop then Stopped(n) else Started(n, rules[n])
  }

  /** `events` holds one event of the given kind for every name in `names`, and nothing else. */
  predicate Covers(events: seq<Handled>, names: set<string>, stop: bool, rules: map<string, AppConfig>)
    requires stop || names <= rules.Keys
  {
    && (forall i :: 0 <= i < |events| ==> events[i].name in names && events[i] == EventFor(events[i].name, stop, rules))
    && (forall n :: n in names ==> EventFor(n, stop, rules) in events)
    && Distinct(events)
  }

  /** Recording the handler call for a new name covers that name too. */
  lemma CoversStep(events: seq<Handled>, names: set<string>, n: string, stop: bool, rules: map<string, AppConfig>)
    requires stop || names + {n} <= rules.Keys
    requires Covers(events, names, stop, rules) && n !in names
    ensures Covers(events + [EventFor(n, stop, rules)], names + {n}, stop, rules)
  {
    var next := events + [EventFor(n, stop, rules)];
    assert forall i :: 0 <= i < |events| ==> next[i] == events[i];
    forall m | m in names + {n}
      ensures EventFor(m, stop, rules) in next
    {
      if m != n {
        var i :| 0 <= i < |events| && events[i] == EventFor(m, stop, rules);
        assert next[i] == EventFor(m, stop, rules);
      } else {
        assert next[|events|] == EventFor(n, stop, rules);
      }
    }
  }

  /** `order` lists every element of `keys` exactly once. */
  predicate Enumerates(order: seq<string>, keys: set<string>) {
    && (forall i :: 0 <= i < |order| ==> order[i] in keys)
    && (forall k :: k in keys ==> k in order)
    && (forall i, j :: 0 <= i < j < |order| ==> order[i] != order[j])
  }

  /** The order in which a Go `range` visits a map's keys: any order, each key once. */
  method MapOrder(keys: set<string>) returns (order: seq<string>)
    ensures Enumerates(order, keys)
  {
    order := [];
    var todo := keys;
    while todo != {}
      invariant todo <= keys
      invariant forall i :: 0 <= i < |order| ==> order[i] in keys && order[i] !in todo
      invariant forall k :: k in keys && k !in todo ==> k in order
      invariant forall i, j :: 0 <= i < j < |order| ==> order[i] != order[j]
      decreases |todo|
    {
      var k :| k in todo;
      order := order + [k];
      todo := todo - {k};
    }
  }

  /** The handler calls a loop over `order` makes, skipping the names in `skip` (and, for
      starts, names without a rule). */
  function Events(order: seq<string>, skip: set<string>, stop: bool, rules: map<string, AppConfig>): seq<Handled> {
    if order == [] then []
    else
      var rest := Events(order[..|order| - 1], skip, stop, rules);
      var n := order[|order| - 1];
      if n in skip || (!stop && n !in rules) then rest else rest + [EventFor(n, stop, rules)]
  }

  /** One more iteration of the loop over `order` records at most its name's call. */
  lemma EventsStep(order: seq<string>, i: nat, skip: set<string>, stop: bool, rules: map<string, AppConfig>)
    requires i < |order|
    ensures Events(order[..i + 1], skip, stop, rules)
            == if order[i] in skip || (!stop && order[i] !in rules) then Events(order[..i], skip, stop, rules)
               else Events(order[..i], skip, stop, rules) + [EventFor(order[i], stop, rules)]
  {
    assert order[..i + 1][..i] == order[..i];
  }

  /** A loop over an enumeration of `keys` records one call for every key not skipped. */
  lemma {:induction false} EventsCover(order: seq<string>, keys: set<string>, skip: set<string>, stop: bool,
                                       rules: map<string, AppConfig>)
    requires stop || keys <= rules.Keys
    requires Enumerates(order, keys)
    ensures Covers(Events(order, skip, stop, rules), keys - skip, stop, rules)
  {
    if order == [] {
      assert keys == {};
    } else {
      var init := order[..|order| - 1];
      var n := order[|order| - 1];
      var initKeys := keys - {n};
      assert forall k :: k in initKeys ==> k in init by {
        forall k | k in initKeys ensures k in init {
          var i :| 0 <= i < |order| && order[i] == k;
          assert i != |order| - 1;
          assert init[i] == k;
        }
      }
      assert n !in init by {
        forall i | 0 <= i < |init| ensures init[i] != n {
          assert order[i] == init[i];
        }
      }
      assert Enumerates(init, initKeys);
      EventsCover(init, initKeys, skip, stop, rules);
      if n in skip || (!stop && n !in rules) {
        assert keys - skip == initKeys - skip;
      } else {
        CoversStep(Events(init, skip, stop, rules), initKeys - skip, n, stop, rules);
        assert keys - skip == (initKeys - skip) + {n};
      }
    }
  }

  /** A tick in which nothing starts and every stopping application shares its monitor with
      another application that was active. */
  predicate QuietTick(apps: seq<AppConfig>, running: map<string, AppConfig>, previous: map<string, AppConfig>) {
    && running.Keys <= previous.Keys
    && forall n :: n in previous && n !in running ==> StillInUse(previous, RuleMonitor(apps, n), n)
  }

  /** The monitor `handleAppStop` restores for `name`: the monitor of the first rule with
      that name, or the default monitor when that rule names none or no rule has the name. */
  function StopTarget(c: Config, name: string): string {
    var m := RuleMonitor(c.applications, name);
    if m != "" then m else c.defaultMonitor
  }

  /** The monitor and mode of the scanned rule of every name that starts in the tick from
      `previous` to `running`. */
  function StartModes(running: map<string, AppConfig>, previous: map<string, AppConfig>): set<(string, Resolution)> {
    set n | n in running && n !in previous :: (running[n].monitorName, running[n].resolution)
  }

  /** The restore monitor of every name that stops in the tick from `previous` to `running`. */
  function StopTargets(c: Config, running: map<string, AppConfig>, previous: map<string, AppConfig>): set<string> {
    set n | n in previous && n !in running :: StopTarget(c, n)
  }

  /** Every call in `added` forces a started rule's mode on its monitor, or restores the
      default mode on a stopped name's restore monitor. */
  predicate TickCalls(added: seq<ChangeCall>, starts: set<(string, Resolution)>, stops: set<string>, default: Resolution) {
    forall j :: 0 <= j < |added| ==>
      (added[j].monitor, added[j].mode) in starts || (added[j].mode == default && added[j].monitor in stops)
  }

  /** The forced resolutions after the tick: a new or changed entry is a started rule's mode
      on its monitor, and an entry leaves only as a stopped name's restore monitor. */
  predicate TickForced(before: map<string, Resolution>, after: map<string, Resolution>,
                       starts: set<(string, Resolution)>, stops: set<string>) {
    && (forall k :: k in after && (k !in before || after[k] != before[k]) ==> (k, after[k]) in starts)
    && (forall k :: k in before && k !in after ==> k in stops)
  }

  /** The device and mode of every change the tick may make: a started rule's mode on the
      device its monitor addresses, or the default mode on the device of a stopped name's
      restore monitor. */
  function DeviceModes(display: DisplayManager, starts: set<(string, Resolution)>, stops: set<string>,
                       default: Resolution): set<(string, Resolution)> {
    (set p | p in starts :: (display.Key(p.0), p.1)) + (set t | t in stops :: (display.Key(t), default))
  }

  /** The live modes after the tick: no device disappears, and every device keeps its mode
      or takes one in `modes`. */
  predicate TickLive(before: map<string, Resolution>, after: map<string, Resolution>, modes: set<(string, Resolution)>) {
    && (forall d :: d in before ==> d in after)
    && (forall d :: d in after ==> (d in before && after[d] == before[d]) || (d, after[d]) in modes)
  }

  /** In a quiet tick every stopping name's monitor is still in use. */
  lemma QuietStillInUse(apps: seq<AppConfig>, running: map<string, AppConfig>, previous: map<string, AppConfig>, n: string)
    requires QuietTick(apps, running, previous) && n in previous && n !in running
    ensures StillInUse(previous, RuleMonitor(apps, n), n)
  {
  }

  /** A starting name's rule is among the tick's starts, and its mode on its device among
      the modes the tick may set. */
  lemma StartListed(display: DisplayManager, default: Resolution, running: map<string, AppConfig>,
                    previous: map<string, AppConfig>, n: string)
    requires n in running && n !in previous
    ensures (running[n].monitorName, running[n].resolution) in StartModes(running, previous)
    ensures (display.Key(running[n].monitorName), running[n].resolution) in DeviceModes(display, StartModes(running, previous), {}, default)
  {
  }

  /** A stopping name's restore monitor is among the tick's stop targets, and the default
      mode on its device among the modes the tick may set. */
  lemma StopListed(display: DisplayManager, c: Config, running: map<string, AppConfig>,
                   previous: map<string, AppConfig>, n: string)
    requires n in previous && n !in running
    ensures StopTarget(c, n) in StopTargets(c, running, previous)
    ensures (display.Key(StopTarget(c, n)), c.defaultResolution) in DeviceModes(display, {}, StopTargets(c, running, previous), c.defaultResolution)
  {
  }

  /** Appending to a log that extends `base` by `acc` extends `base` by `acc` and the
      appended part. */
  lemma Appended<T>(log: seq<T>, base: seq<T>, acc: seq<T>, more: seq<T>)
    requires log == base + acc
    ensures log + more == base + (acc + more)
  {
  }

  /** Repeating a call the tick may make keeps the calls ones the tick may make. */
  lemma TickCallsAppend(added: seq<ChangeCall>, call: ChangeCall, m: nat,
                        starts: set<(string, Resolution)>, stops: set<string>, default: Resolution)
    requires TickCalls(added, starts, stops, default)
    requires (call.monitor, call.mode) in starts || (call.mode == default && call.monitor in stops)
    ensures TickCalls(added + Repeat(call, m), starts, stops, default)
  {
    var next := added + Repeat(call, m);
    forall j | 0 <= j < |next|
      ensures (next[j].monitor, next[j].mode) in starts || (next[j].mode == default && next[j].monitor in stops)
    {
      if j < |added| {
        assert next[j] == added[j];
      } else {
        assert next[j] == call;
      }
    }
  }

  /** The calls of two parts of a tick together. */
  lemma TickCallsConcat(a: seq<ChangeCall>, b: seq<ChangeCall>,
                        starts: set<(string, Resolution)>, stops: set<string>, default: Resolution)
    requires TickCalls(a, starts, stops, default) && TickCalls(b, starts, stops, default)
    ensures TickCalls(a + b, starts, stops, default)
  {
    forall j | 0 <= j < |a + b|
      ensures ((a + b)[j].monitor, (a + b)[j].mode) in starts
              || ((a + b)[j].mode == default && (a + b)[j].monitor in stops)
    {
      if j < |a| {
        assert (a + b)[j] == a[j];
      } else {
        assert (a + b)[j] == b[j - |a|];
      }
    }
  }

  /** A start step that may force a started rule's mode keeps the forced resolutions
      within the tick's frame. */
  lemma TickForcedSet(before: map<string, Resolution>, mid: map<string, Resolution>, after: map<string, Resolution>,
                      k: string, mode: Resolution, starts: set<(string, Resolution)>, stops: set<string>)
    requires TickForced(before, mid, starts, stops) && (k, mode) in starts
    requires after == mid || after == mid[k := mode]
    ensures TickForced(before, after, starts, stops)
  {
  }

  /** A stop step that may forget a stopped name's restore monitor keeps the forced
      resolutions within the tick's frame. */
  lemma TickForcedRemove(before: map<string, Resolution>, mid: map<string, Resolution>, after: map<string, Resolution>,
                         k: string, starts: set<(string, Resolution)>, stops: set<string>)
    requires TickForced(before, mid, starts, stops) && k in stops
    requires after == mid || after == mid - {k}
    ensures TickForced(before, after, starts, stops)
  {
  }

  /** A step that may set a mode the tick may set keeps the live modes within the tick's
      frame. */
  lemma TickLiveSet(before: map<string, Resolution>, mid: map<string, Resolution>, after: map<string, Resolution>,
                    d: string, mode: Resolution, modes: set<(string, Resolution)>)
    requires TickLive(before, mid, modes) && (d, mode) in modes
    requires after == mid || after == mid[d := mode]
    ensures TickLive(before, after, modes)
  {
  }

  /** A start step keeps the calls, the forced resolutions and the live modes within the
      tick's starts. */
  lemma StartKeepsFrame(forced0: map<string, Resolution>, forced: map<string, Resolution>, forced': map<string, Resolution>,
                        live0: map<string, Resolution>, live: map<string, Resolution>, live': map<string, Resolution>,
                        calls0: seq<ChangeCall>, calls: seq<ChangeCall>, calls': seq<ChangeCall>, added: seq<ChangeCall>,
                        monitor: string, mode: Resolution, device: string, m: nat,
                        starts: set<(string, Resolution)>, modes: set<(string, Resolution)>, default: Resolution)
    requires TickForced(forced0, forced, starts, {}) && TickLive(live0, live, modes)
    requires calls == calls0 + added && TickCalls(added, starts, {}, default)
    requires (monitor, mode) in starts && (device, mode) in modes
    requires forced' == forced || forced' == forced[monitor := mode]
    requires live' == live || live' == live[device := mode]
    requires calls' == calls + Repeat(ChangeCall(monitor, mode), m)
    ensures TickForced(forced0, forced', starts, {}) && TickLive(live0, live', modes)
    ensures calls' == calls0 + (added + Repeat(ChangeCall(monitor, mode), m))
    ensures TickCalls(added + Repeat(ChangeCall(monitor, mode), m), starts, {}, default)
  {
    TickForcedSet(forced0, forced, forced', monitor, mode, starts, {});
    TickLiveSet(live0, live, live', device, mode, modes);
    Appended(calls, calls0, added, Repeat(ChangeCall(monitor, mode), m));
    TickCallsAppend(added, ChangeCall(monitor, mode), m, starts, {}, default);
  }

  /** A stop step keeps the calls, the forced resolutions and the live modes within the
      tick's stops. */
  lemma StopKeepsFrame(forced0: map<string, Resolution>, forced: map<string, Resolution>, forced': map<string, Resolution>,
                       live0: map<string, Resolution>, live: map<string, Resolution>, live': map<string, Resolution>,
                       calls0: seq<ChangeCall>, calls: seq<ChangeCall>, calls': seq<ChangeCall>, added: seq<ChangeCall>,
                       target: string, device: string, m: nat,
                       stops: set<string>, modes: set<(string, Resolution)>, default: Resolution)
    requires TickForced(forced0, forced, {}, stops) && TickLive(live0, live, modes)
    requires calls == calls0 + added && TickCalls(added, {}, stops, default)
    requires target in stops && (device, default) in modes
    requires forced' == forced || forced' == forced - {target}
    requires live' == live || live' == live[device := default]
    requires calls' == calls + Repeat(ChangeCall(target, default), m)
    ensures TickForced(forced0, forced', {}, stops) && TickLive(live0, live', modes)
    ensures calls' == calls0 + (added + Repeat(ChangeCall(target, default), m))
    ensures TickCalls(added + Repeat(ChangeCall(target, default), m), {}, stops, default)
  {
    TickForcedRemove(forced0, forced, forced', target, {}, stops);
    TickLiveSet(live0, live, live', device, default, modes);
    Appended(calls, calls0, added, Repeat(ChangeCall(target, default), m));
    TickCallsAppend(added, ChangeCall(target, default), m, {}, stops, default);
  }

  /** The forced resolutions of two parts of a tick together. */
  lemma TickForcedTrans(a: map<string, Resolution>, b: map<string, Resolution>, z: map<string, Resolution>,
                        starts: set<(string, Resolution)>, stops: set<string>)
    requires TickForced(a, b, starts, stops) && TickForced(b, z, starts, stops)
    ensures TickForced(a, z, starts, stops)
  {
    forall k | k in a && k !in z ensures k in stops {
      if k in b {
        assert k in b && k !in z;
      }
    }
  }

  /** The live modes of two parts of a tick together. */
  lemma TickLiveTrans(a: map<string, Resolution>, b: map<string, Resolution>, z: map<string, Resolution>,
                      modes: set<(string, Resolution)>)
    requires TickLive(a, b, modes) && TickLive(b, z, modes)
    ensures TickLive(a, z, modes)
  {
  }

  /** Calls one part of a tick may make are calls the whole tick may make. */
  lemma TickCallsWiden(added: seq<ChangeCall>, starts: set<(string, Resolution)>, stops: set<string>,
                       starts': set<(string, Resolution)>, stops': set<string>, default: Resolution)
    requires starts <= starts' && stops <= stops'
    requires TickCalls(added, starts, stops, default)
    ensures TickCalls(added, starts', stops', default)
  {
  }

  /** The forced resolutions one part of a tick may record are ones the whole tick may
      record. */
  lemma TickForcedWiden(before: map<string, Resolution>, after: map<string, Resolution>, starts: set<(string, Resolution)>,
                  stops: set<string>, starts': set<(string, Resolution)>, stops': set<string>)
    requires starts <= starts' && stops <= stops'
    requires TickForced(before, after, starts, stops)
    ensures TickForced(before, after, starts', stops')
  {
  }

  /** The live modes one part of a tick may set are ones the whole tick may set. */
  lemma TickLiveWiden(before: map<string, Resolution>, after: map<string, Resolution>, display: DisplayManager,
                      starts: set<(string, Resolution)>, stops: set<string>,
                      starts': set<(string, Resolution)>, stops': set<string>, default: Resolution)
    requires starts <= starts' && stops <= stops'
    requires TickLive(before, after, DeviceModes(display, starts, stops, default))
    ensures TickLive(before, after, DeviceModes(display, starts', stops', default))
  {
    assert DeviceModes(display, starts, stops, default) <= DeviceModes(display, starts', stops', default);
  }

  /** The capture of original resolutions in `NewResolutionMonitor`: the primary monitor's
      under "", then every named monitor whose query succeeds; a failed query is skipped. */
  method CaptureOriginals(display: DisplayManager, primaryRes: Resolution, monitors: seq<MonitorInfo>)
    returns (originalRes: map<string, Resolution>)
    ensures "" in originalRes && originalRes[""] == primaryRes
    ensures forall k :: k != "" ==>
              (k in originalRes <==>
               display.CurrentResolution(k).Ok? && exists i :: 0 <= i < |monitors| && monitors[i].deviceName == k)
    ensures forall k :: k in originalRes && k != "" ==> originalRes[k] == display.CurrentResolution(k).value
  {
    originalRes := map["" := primaryRes];
    for i := 0 to |monitors|
      invariant "" in originalRes && originalRes[""] == primaryRes
      invariant forall k :: k != "" ==>
                  (k in originalRes <==>
                   display.CurrentResolution(k).Ok? && exists j :: 0 <= j < i && monitors[j].deviceName == k)
      invariant forall k :: k in originalRes && k != "" ==> originalRes[k] == display.CurrentResolution(k).value
    {
      if monitors[i].deviceName != "" {
        var res := display.CurrentResolution(monitors[i].deviceName);
        if res.Ok? {
          originalRes := originalRes[monitors[i].deviceName := res.value];
        }
      }
    }
  }

  class ResolutionMonitor {
    var config: Config
    const display: DisplayManager
    /** The resolution of each monitor when monitoring was set up. */
    const originalRes: map<string, Resolution>
    /** The resolution an application forced on each monitor. */
    var currentAppRes: map<string, Resolution>
    /** The rule of every application seen running at the last successful scan. */
    var activeApps: map<string, AppConfig>
    /** Every handler call so far. */
    ghost var handled: seq<Handled>

    constructor (config: Config, display: DisplayManager, originalRes: map<string, Resolution>)
      ensures this.config == config && this.display == display && this.originalRes == originalRes
      ensures currentAppRes == map[] && activeApps == map[] && handled == []
      ensures Valid()
    {
      this.config := config;
      this.display := display;
      this.originalRes := originalRes;
      currentAppRes := map[];
      activeApps := map[];
      handled := [];
    }

    /** Every forced monitor is one a change can address, and every active rule is stored
        under its own process name. */
    predicate Valid()
      reads this
    {
      && (forall k :: k in currentAppRes ==> !(k != "" && NotUtf16(k)))
      && (forall k :: k in activeApps ==> activeApps[k].processName == k)
    }

    /** The GUI replaces the monitor's configuration after a save. */
    method SetConfig(c: Config)
      requires Valid()
      modifies this
      ensures Valid() && config == c
      ensures currentAppRes == old(currentAppRes) && activeApps == old(activeApps) && handled == old(handled)
    {
      config := c;
    }

    /** `handleAppStart`: query the rule's monitor; change it only when its mode differs from
        the target in some field; record the target only after a successful change. */
    method HandleAppStart(processName: string, app: AppConfig) returns (err: Option<DisplayError>)
      requires Valid()
      modifies this, display
      ensures Valid() && config == old(config) && activeApps == old(activeApps)
      ensures handled == old(handled) + [Started(processName, app)]
      ensures var cur := old(display.CurrentResolution(app.monitorName));
              cur.Err? ==>
                && err == Some(cur.error) && currentAppRes == old(currentAppRes)
                && display.changes == old(display.changes) && display.live == old(display.live)
      ensures var cur := old(display.CurrentResolution(app.monitorName));
              cur == Ok(app.resolution) ==>
                && err.None? && currentAppRes == old(currentAppRes)
                && display.changes == old(display.changes) && display.live == old(display.live)
      ensures var cur := old(display.CurrentResolution(app.monitorName));
              var start := |old(display.changes)|;
              cur.Ok? && cur.value != app.resolution ==>
                && display.changes == old(display.changes)
                     + Repeat(ChangeCall(app.monitorName, app.resolution), display.AttemptsMade(start))
                && (err.None? <==> display.ChangeSucceeds(start))
                && (err.None? ==> display.live == old(display.live)[display.Key(app.monitorName) := app.resolution]
                                  && currentAppRes == old(currentAppRes)[app.monitorName := app.resolution])
                && (err.Some? ==> display.live == old(display.live) && currentAppRes == old(currentAppRes))
    {
      handled := handled + [Started(processName, app)];
      var monitorName := app.monitorName;
      var currentRes := display.CurrentResolution(monitorName);
      if currentRes.Err? {
        return Some(currentRes.error);
      }
      if !IsResolutionEqual(currentRes.value, app.resolution) {
        var e := display.SetResolution(monitorName, app.resolution);
        if e.Some? {
          return e;
        }
        currentAppRes := currentAppRes[monitorName := app.resolution];
      }
      return None;
    }

    /** `handleAppStop`: find the monitor of the first rule with this process name; unless
        another active application uses it, restore the default resolution there (on the
        default monitor when the rule names none), and forget the forced resolution only
        after a successful change. */
    method HandleAppStop(processName: string) returns (err: Option<DisplayError>)
      requires Valid()
      modifies this, display
      ensures Valid() && config == old(config) && activeApps == old(activeApps)
      ensures handled == old(handled) + [Stopped(processName)]
      ensures StillInUse(activeApps, RuleMonitor(config.applications, processName), processName) ==>
                && err.None? && currentAppRes == old(currentAppRes)
                && display.changes == old(display.changes) && display.live == old(display.live)
      ensures var monitor := RuleMonitor(config.applications, processName);
              var target := if monitor != "" then monitor else config.defaultMonitor;
              var cur := old(display.CurrentResolution(target));
              !StillInUse(activeApps, monitor, processName) && cur.Err? ==>
                && err == Some(cur.error) && currentAppRes == old(currentAppRes)
                && display.changes == old(display.changes) && display.live == old(display.live)
      ensures var monitor := RuleMonitor(config.applications, processName);
              var target := if monitor != "" then monitor else config.defaultMonitor;
              var cur := old(display.CurrentResolution(target));
              !StillInUse(activeApps, monitor, processName) && cur == Ok(config.defaultResolution) ==>
                && err.None? && currentAppRes == old(currentAppRes)
                && display.changes == old(display.changes) && display.live == old(display.live)
      ensures var monitor := RuleMonitor(config.applications, processName);
              var target := if monitor != "" then monitor else config.defaultMonitor;
              var cur := old(display.CurrentResolution(target));
              var start := |old(display.changes)|;
              !StillInUse(activeApps, monitor, processName) && cur.Ok? && cur.value != config.defaultResolution ==>
                && display.changes == old(display.changes)
                     + Repeat(ChangeCall(target, config.defaultResolution), display.AttemptsMade(start))
                && (err.None? <==> display.ChangeSucceeds(start))
                && (err.None? ==> display.live == old(display.live)[display.Key(target) := config.defaultResolution]
                                  && currentAppRes == old(currentAppRes) - {target})
                && (err.Some? ==> display.live == old(display.live) && currentAppRes == old(currentAppRes))
    {
      handled := handled + [Stopped(processName)];
      var appMonitorName := "";
      var apps := config.applications;
      for i := 0 to |apps|
        invariant forall j :: 0 <= j < i ==> apps[j].processName != processName
      {
        if apps[i].processName == processName {
          appMonitorName := apps[i].monitorName;
          break;
        }
      }
      assert appMonitorName == RuleMonitor(apps, processName);
      var inUse := MonitorStillInUse(appMonitorName, processName);
      if !inUse {
        var defaultMonitor := config.defaultMonitor;
        if appMonitorName != "" {
          defaultMonitor := appMonitorName;
        }
        var currentRes := display.CurrentResolution(defaultMonitor);
        if currentRes.Err? {
          return Some(currentRes.error);
        }
        if !IsResolutionEqual(currentRes.value, config.defaultResolution) {
          var e := display.SetResolution(defaultMonitor, config.defaultResolution);
          if e.Some? {
            return e;
          }
          currentAppRes := currentAppRes - {defaultMonitor};
        }
      }
      return None;
    }

    /** The scan of the active applications in `handleAppStop`, in map order, stopping at
        the first other application on the same monitor. */
    method MonitorStillInUse(monitor: string, processName: string) returns (inUse: bool)
      ensures inUse <==> StillInUse(activeApps, monitor, processName)
    {
      inUse := false;
      var todo := activeApps.Keys;
      while todo != {}
        invariant todo <= activeApps.Keys
        invariant forall k :: k in activeApps && k !in todo ==>
                    !(activeApps[k].monitorName == monitor && activeApps[k].processName != processName)
        decreases |todo|
      {
        var k :| k in todo;
        if activeApps[k].monitorName == monitor && activeApps[k].processName != processName {
          return true;
        }
        todo := todo - {k};
      }
    }

    /** One start of the first loop of `checkRunningApps`, its error dropped: `m` calls that
        force the rule's mode on its monitor, after which the monitor and the forced
        resolutions hold that mode or are as before. */
    method StartStep(processName: string, app: AppConfig) returns (ghost m: nat)
      requires Valid()
      modifies this, display
      ensures Valid() && config == old(config) && activeApps == old(activeApps)
      ensures handled == old(handled) + [Started(processName, app)]
      ensures display.changes == old(display.changes) + Repeat(ChangeCall(app.monitorName, app.resolution), m)
      ensures display.live == old(display.live)
              || display.live == old(display.live)[display.Key(app.monitorName) := app.resolution]
      ensures currentAppRes == old(currentAppRes)
              || currentAppRes == old(currentAppRes)[app.monitorName := app.resolution]
    {
      ghost var start := |display.changes|;
      var _ := HandleAppStart(processName, app);
      m := if display.changes == old(display.changes) then 0 else display.AttemptsMade(start);
    }

    /** One stop of the second loop of `checkRunningApps`, its error dropped: `m` calls that
        restore the default mode on the name's restore monitor, after which that monitor
        holds the default mode or is as before, and the monitor is forgotten or nothing
        changes. */
    method StopStep(processName: string) returns (ghost m: nat)
      requires Valid()
      modifies this, display
      ensures Valid() && config == old(config) && activeApps == old(activeApps)
      ensures handled == old(handled) + [Stopped(processName)]
      ensures StillInUse(activeApps, RuleMonitor(config.applications, processName), processName) ==>
                && currentAppRes == old(currentAppRes)
                && display.changes == old(display.changes) && display.live == old(display.live)
      ensures var target := StopTarget(config, processName);
              && display.changes == old(display.changes) + Repeat(ChangeCall(target, config.defaultResolution), m)
              && (display.live == old(display.live)
                  || display.live == old(display.live)[display.Key(target) := config.defaultResolution])
              && (currentAppRes == old(currentAppRes) || currentAppRes == old(currentAppRes) - {target})
    {
      ghost var start := |display.changes|;
      var _ := HandleAppStop(processName);
      m := if display.changes == old(display.changes) then 0 else display.AttemptsMade(start);
    }

    /** The first loop of `checkRunningApps`: `handleAppStart`, in map order, with the scanned
        rule for every running name not yet active, whatever each call returns. Every call
        made, every forced resolution recorded and every mode set belongs to a start. */
    method StartPhase(running: map<string, AppConfig>) returns (ghost events: seq<Handled>, ghost added: seq<ChangeCall>)
      requires Valid()
      modifies this, display
      ensures Valid() && config == old(config) && activeApps == old(activeApps)
      ensures handled == old(handled) + events
      ensures Covers(events, running.Keys - activeApps.Keys, false, running)
      ensures display.changes == old(display.changes) + added
      ensures TickCalls(added, StartModes(running, activeApps), {}, config.defaultResolution)
      ensures TickForced(old(currentAppRes), currentAppRes, StartModes(running, activeApps), {})
      ensures TickLive(old(display.live), display.live,
                       DeviceModes(display, StartModes(running, activeApps), {}, config.defaultResolution))
      ensures running.Keys <= activeApps.Keys ==>
                && currentAppRes == old(currentAppRes)
                && display.changes == old(display.changes) && display.live == old(display.live)
    {
      var active := activeApps;
      var order := MapOrder(running.Keys);
      ghost var starts := StartModes(running, active);
      ghost var modes := DeviceModes(display, starts, {}, config.defaultResolution);
      events := [];
      added := [];
      for i := 0 to |order|
        invariant Valid() && config == old(config) && activeApps == active && active == old(activeApps)
        invariant handled == old(handled) + events
        invariant events == Events(order[..i], active.Keys, false, running)
        invariant display.changes == old(display.changes) + added
        invariant TickCalls(added, starts, {}, config.defaultResolution)
        invariant TickForced(old(currentAppRes), currentAppRes, starts, {})
        invariant TickLive(old(display.live), display.live, modes)
        invariant running.Keys <= active.Keys ==>
                    && currentAppRes == old(currentAppRes)
                    && display.changes == old(display.changes) && display.live == old(display.live)
      {
        var processName := order[i];
        EventsStep(order, i, active.Keys, false, running);
        if processName !in active {
          var app := running[processName];
          StartListed(display, config.defaultResolution, running, active, processName);
          ghost var log := handled;
          ghost var calls := display.changes;
          ghost var forced := currentAppRes;
          ghost var live := display.live;
          ghost var m := StartStep(processName, app);
          StartKeepsFrame(old(currentAppRes), forced, currentAppRes, old(display.live), live, display.live,
                          old(display.changes), calls, display.changes, added, app.monitorName, app.resolution,
                          display.Key(app.monitorName), m, starts, modes, config.defaultResolution);
          Appended(log, old(handled), events, [EventFor(processName, false, running)]);
          added := added + Repeat(ChangeCall(app.monitorName, app.resolution), m);
          events := events + [EventFor(processName, false, running)];
        }
      }
      assert order[..|order|] == order;
      EventsCover(order, running.Keys, active.Keys, false, running);
    }

    /** The second loop of `checkRunningApps`: `handleAppStop`, in map order, for every
        active name no longer running, whatever each call returns. Every call made, every
        forced resolution dropped and every mode set belongs to a stop. */
    method StopPhase(running: map<string, AppConfig>) returns (ghost events: seq<Handled>, ghost added: seq<ChangeCall>)
      requires Valid()
      modifies this, display
      ensures Valid() && config == old(config) && activeApps == old(activeApps)
      ensures handled == old(handled) + events
      ensures Covers(events, activeApps.Keys - running.Keys, true, activeApps)
      ensures display.changes == old(display.changes) + added
      ensures TickCalls(added, {}, StopTargets(config, running, activeApps), config.defaultResolution)
      ensures TickForced(old(currentAppRes), currentAppRes, {}, StopTargets(config, running, activeApps))
      ensures TickLive(old(display.live), display.live,
                       DeviceModes(display, {}, StopTargets(config, running, activeApps), config.defaultResolution))
      ensures QuietTick(config.applications, running, activeApps) ==>
                && currentAppRes == old(currentAppRes)
                && display.changes == old(display.changes) && display.live == old(display.live)
    {
      var active := activeApps;
      var order := MapOrder(active.Keys);
      ghost var quiet := QuietTick(config.applications, running, active);
      ghost var stops := StopTargets(config, running, active);
      ghost var modes := DeviceModes(display, {}, stops, config.defaultResolution);
      events := [];
      added := [];
      for i := 0 to |order|
        invariant Valid() && config == old(config) && activeApps == active && active == old(activeApps)
        invariant handled == old(handled) + events
        invariant events == Events(order[..i], running.Keys, true, active)
        invariant display.changes == old(display.changes) + added
        invariant TickCalls(added, {}, stops, config.defaultResolution)
        invariant TickForced(old(currentAppRes), currentAppRes, {}, stops)
        invariant TickLive(old(display.live), display.live, modes)
        invariant quiet ==>
                    && currentAppRes == old(currentAppRes)
                    && display.changes == old(display.changes) && display.live == old(display.live)
      {
        var processName := order[i];
        EventsStep(order, i, running.Keys, true, active);
        if processName !in running {
          if quiet {
            QuietStillInUse(config.applications, running, active, processName);
          }
          ghost var target := StopTarget(config, processName);
          StopListed(display, config, running, active, processName);
          ghost var log := handled;
          ghost var calls := display.changes;
          ghost var forced := currentAppRes;
          ghost var live := display.live;
          ghost var m := StopStep(processName);
          StopKeepsFrame(old(currentAppRes), forced, currentAppRes, old(display.live), live, display.live,
                         old(display.changes), calls, display.changes, added, target, display.Key(target), m,
                         stops, modes, config.defaultResolution);
          Appended(log, old(handled), events, [EventFor(processName, true, active)]);
          added := added + Repeat(ChangeCall(target, config.defaultResolution), m);
          events := events + [EventFor(processName, true, active)];
        }
      }
      assert order[..|order|] == order;
      EventsCover(order, active.Keys, running.Keys, true, active);
    }

    /** Both loops of `checkRunningApps`, starts first. */
    method HandleTick(running: map<string, AppConfig>) returns (ghost events: seq<Handled>, ghost added: seq<ChangeCall>)
      requires Valid()
      modifies this, display
      ensures Valid() && config == old(config) && activeApps == old(activeApps)
      ensures handled == old(handled) + events
      ensures TickHandled(events, running, activeApps)
      ensures var starts := StartModes(running, activeApps);
              var stops := StopTargets(config, running, activeApps);
              && display.changes == old(display.changes) + added
              && TickCalls(added, starts, stops, config.defaultResolution)
              && TickForced(old(currentAppRes), currentAppRes, starts, stops)
              && TickLive(old(display.live), display.live, DeviceModes(display, starts, stops, config.defaultResolution))
      ensures QuietTick(config.applications, running, activeApps) ==>
                && currentAppRes == old(currentAppRes)
                && display.changes == old(display.changes) && display.live == old(display.live)
    {
      ghost var starts := StartModes(running, activeApps);
      ghost var stops := StopTargets(config, running, activeApps);
      ghost var modes := DeviceModes(display, starts, stops, config.defaultResolution);
      ghost var forced0 := currentAppRes;
      ghost var live0 := display.live;
      ghost var startEvents, a1 := StartPhase(running);
      ghost var forced := currentAppRes;
      ghost var live := display.live;
      ghost var log := handled;
      ghost var calls := display.changes;
      ghost var stopEvents, a2 := StopPhase(running);
      Appended(log, old(handled), startEvents, stopEvents);
      Appended(calls, old(display.changes), a1, a2);
      TickEvents(startEvents, stopEvents, running, activeApps);
      TickCallsWiden(a1, starts, {}, starts, stops, config.defaultResolution);
      TickCallsWiden(a2, {}, stops, starts, stops, config.defaultResolution);
      TickCallsConcat(a1, a2, starts, stops, config.defaultResolution);
      TickForcedWiden(forced0, forced, starts, {}, starts, stops);
      TickForcedWiden(forced, currentAppRes, {}, stops, starts, stops);
      TickForcedTrans(forced0, forced, currentAppRes, starts, stops);
      TickLiveWiden(live0, live, display, starts, {}, starts, stops, config.defaultResolution);
      TickLiveWiden(live, display.live, display, {}, stops, starts, stops, config.defaultResolution);
      TickLiveTrans(live0, live, display.live, modes);
      events := startEvents + stopEvents;
      added := a1 + a2;
    }

    /** `checkRunningApps`: a failed scan changes nothing. Otherwise the starts, each with its
        scanned rule, and then the stops of this tick are handled, every call, forced
        resolution and mode set belongs to one of them, and the active set becomes the scan
        result whatever the handlers returned. */
    method CheckRunningApps(snapshot: Snapshot) returns (err: Option<ProcessError>)
      requires Valid()
      modifies this, display
      ensures Valid() && config == old(config)
      ensures Scan(config.applications, snapshot).Err? ==>
                && err == Some(SnapshotFailed)
                && activeApps == old(activeApps) && currentAppRes == old(currentAppRes) && handled == old(handled)
                && display.changes == old(display.changes) && display.live == old(display.live)
      ensures Scan(config.applications, snapshot).Ok? ==>
                && err.None?
                && activeApps == Scan(config.applications, snapshot).value
                && |old(handled)| <= |handled| && handled[..|old(handled)|] == old(handled)
                && TickHandled(handled[|old(handled)|..], activeApps, old(activeApps))
      ensures Scan(config.applications, snapshot).Ok? ==>
                var starts := StartModes(activeApps, old(activeApps));
                var stops := StopTargets(config, activeApps, old(activeApps));
                && |old(display.changes)| <= |display.changes|
                && display.changes[..|old(display.changes)|] == old(display.changes)
                && TickCalls(display.changes[|old(display.changes)|..], starts, stops, config.defaultResolution)
                && TickForced(old(currentAppRes), currentAppRes, starts, stops)
                && TickLive(old(display.live), display.live, DeviceModes(display, starts, stops, config.defaultResolution))
      ensures Scan(config.applications, snapshot).Ok? &&
              QuietTick(config.applications, Scan(config.applications, snapshot).value, old(activeApps)) ==>
                && currentAppRes == old(currentAppRes)
                && display.changes == old(display.changes) && display.live == old(display.live)
    {
      var runningApps := MonitorProcesses(config.applications, snapshot);
      if runningApps.Err? {
        return Some(runningApps.error);
      }
      var running := runningApps.value;
      ghost var events, added := HandleTick(running);
      assert handled[|old(handled)|..] == events;
      assert display.changes[|old(display.changes)|..] == added;
      if snapshot.Some? {
        RunningRulesNames(config.applications, NonEmptyNames(snapshot.value));
      }
      activeApps := running;
      return None;
    }

    /** `shutdown`: a change to the default resolution is attempted on every monitor an
        application forced, failures are passed over, the maps are kept, and no error is
        returned. */
    method Shutdown() returns (err: Option<DisplayError>)
      requires Valid()
      modifies display
      ensures err.None?
      ensures |old(display.changes)| <= |display.changes|
      ensures display.changes[..|old(display.changes)|] == old(display.changes)
      ensures forall c :: c in display.changes[|old(display.changes)|..] ==>
                c.monitor in currentAppRes && c.mode == config.defaultResolution
      ensures forall k :: k in currentAppRes ==>
                ChangeCall(k, config.defaultResolution) in display.changes[|old(display.changes)|..]
      ensures forall d :: d in old(display.live) ==> d in display.live
      ensures forall d :: d in display.live ==>
                (d in old(display.live) && display.live[d] == old(display.live)[d]) ||
                (display.live[d] == config.defaultResolution && exists k :: k in currentAppRes && display.Key(k) == d)
    {
      var order := MapOrder(currentAppRes.Keys);
      var mode := config.defaultResolution;
      ghost var added: seq<ChangeCall> := [];
      for i := 0 to |order|
        invariant display.changes == old(display.changes) + added
        invariant forall c :: c in added ==> c.monitor in currentAppRes && c.mode == mode
        invariant forall j :: 0 <= j < i ==> ChangeCall(order[j], mode) in added
        invariant forall d :: d in old(display.live) ==> d in display.live
        invariant forall d :: d in display.live ==>
                    (d in old(display.live) && display.live[d] == old(display.live)[d]) ||
                    (display.live[d] == mode && exists k :: k in currentAppRes && display.Key(k) == d)
      {
        var monitorName := order[i];
        ghost var n := display.AttemptsMade(|display.changes|);
        var _ := display.SetResolution(monitorName, mode);
        RestoreCalls(added, monitorName, mode, n);
        added := added + Repeat(ChangeCall(monitorName, mode), n);
      }
      assert display.changes[|old(display.changes)|..] == added;
      return None;
    }
  }

  /** The events of a tick are the start phase's followed by the stop phase's. */
  lemma TickEvents(starts: seq<Handled>, stops: seq<Handled>, running: map<string, AppConfig>, previous: map<string, AppConfig>)
    requires Covers(starts, running.Keys - previous.Keys, false, running)
    requires Covers(stops, previous.Keys - running.Keys, true, previous)
    ensures TickHandled(starts + stops, running, previous)
  {
    var events := starts + stops;
    assert forall i :: 0 <= i < |starts| ==> events[i] == starts[i];
    assert forall i :: |starts| <= i < |events| ==> events[i] == stops[i - |starts|];
    forall n | n in running && n !in previous
      ensures Started(n, running[n]) in events
    {
      assert EventFor(n, false, running) in starts;
    }
    forall n | n in previous && n !in running
      ensures Stopped(n) in events
    {
      assert EventFor(n, true, previous) in stops;
    }
  }

  /** Every start of a tick that follows a successful scan is given the last rule in the
      configuration with that process name, so with duplicate names the last rule's monitor
      and mode are the ones forced. */
  lemma StartUsesLastRule(apps: seq<AppConfig>, snapshot: Snapshot, events: seq<Handled>,
                          previous: map<string, AppConfig>, i: nat)
    requires Scan(apps, snapshot).Ok? && TickHandled(events, Scan(apps, snapshot).value, previous)
    requires i < |events| && events[i].Started?
    ensures exists j :: 0 <= j < |apps| && apps[j] == events[i].rule && apps[j].processName == events[i].name
                        && forall j' :: j < j' < |apps| ==> apps[j'].processName != events[i].name
  {
    if snapshot.Some? {
      RunningRulesLastWins(apps, NonEmptyNames(snapshot.value), events[i].name);
    }
  }

  /** Every monitor and mode a tick after a successful scan may force comes from the last
      rule in the configuration with the process name of a newly running application. */
  lemma StartModesAreLastRules(apps: seq<AppConfig>, snapshot: Snapshot, previous: map<string, AppConfig>,
                               p: (string, Resolution))
    requires Scan(apps, snapshot).Ok? && p in StartModes(Scan(apps, snapshot).value, previous)
    ensures exists j :: 0 <= j < |apps| && apps[j].processName !in previous && (apps[j].monitorName, apps[j].resolution) == p
                        && forall j' :: j < j' < |apps| ==> apps[j'].processName != apps[j].processName
  {
    var running := Scan(apps, snapshot).value;
    var n :| n in running && n !in previous && (running[n].monitorName, running[n].resolution) == p;
    if snapshot.Some? {
      RunningRulesLastWins(apps, NonEmptyNames(snapshot.value), n);
    }
  }

  /** When the only two applications that stop in a tick share their rules' monitor, each
      stop sees the other one still active, so neither restores the default resolution and
      the monitor keeps the resolution the applications forced. */
  lemma SharedStopIsQuiet(apps: seq<AppConfig>, running: map<string, AppConfig>, previous: map<string, AppConfig>,
                          a: string, b: string)
    requires a != b && a in previous && b in previous
    requires previous[a].processName == a && previous[b].processName == b
    requires previous[a].monitorName == RuleMonitor(apps, a) && previous[b].monitorName == RuleMonitor(apps, b)
    requires RuleMonitor(apps, a) == RuleMonitor(apps, b)
    requires running.Keys <= previous.Keys
    requires forall n :: n in previous && n !in running ==> n == a || n == b
    ensures QuietTick(apps, running, previous)
  {
    var m := RuleMonitor(apps, a);
    assert StillInUse(previous, m, a) by {
      assert previous[b].monitorName == m && previous[b].processName != a;
    }
    assert StillInUse(previous, m, b) by {
      assert previous[a].monitorName == m && previous[a].processName != b;
    }
  }

  /** One restore call of `shutdown` adds at least one call, and only calls for its monitor. */
  lemma RestoreCalls(added: seq<ChangeCall>, monitor: string, mode: Resolution, n: nat)
    requires n >= 1
    ensures forall c :: c in added + Repeat(ChangeCall(monitor, mode), n) ==> c in added || c == ChangeCall(monitor, mode)
    ensures ChangeCall(monitor, mode) in added + Repeat(ChangeCall(monitor, mode), n)
    ensures forall c :: c in added ==> c in added + Repeat(ChangeCall(monitor, mode), n)
  {
    var next := added + Repeat(ChangeCall(monitor, mode), n);
    assert next[|added|] == ChangeCall(monitor, mode);
  }

  /** `NewResolutionMonitor`: `loaded` is the outcome of loading the configuration. It
      fails when loading fails, when the monitor enumeration fails, or when the primary
      monitor's query fails; a failed query for any other monitor only leaves it out. */
  method NewResolutionMonitor(loaded: Result<Config, ConfigError>, display: DisplayManager)
    returns (r: Result<ResolutionMonitor, StartError>)
    ensures loaded.Err? ==> r == Err(ConfigFailed(loaded.error))
    ensures loaded.Ok? && display.Enumeration().Err? ==> r == Err(MonitorsFailed(display.Enumeration().error))
    ensures loaded.Ok? && display.Enumeration().Ok? && display.CurrentResolution("").Err? ==>
              r == Err(PrimaryFailed(display.CurrentResolution("").error))
    ensures r.Ok? <==> loaded.Ok? && display.Enumeration().Ok? && display.CurrentResolution("").Ok?
    ensures r.Ok? ==>
              && fresh(r.value) && r.value.Valid()
              && r.value.config == loaded.value && r.value.display == display
              && r.value.currentAppRes == map[] && r.value.activeApps == map[]
              && "" in r.value.originalRes && r.value.originalRes[""] == display.CurrentResolution("").value
              && (forall k :: k != "" ==>
                    (k in r.value.originalRes <==>
                     display.CurrentResolution(k).Ok? &&
                     exists i :: 0 <= i < |display.Enumeration().value| && display.Enumeration().value[i].deviceName == k))
              && (forall k :: k in r.value.originalRes && k != "" ==>
                    r.value.originalRes[k] == display.CurrentResolution(k).value)
  {
    if loaded.Err? {
      return Err(ConfigFailed(loaded.error));
    }
    var monitors := display.GetAvailableMonitors();
    if monitors.Err? {
      return Err(MonitorsFailed(monitors.error));
    }
    var primaryRes := display.CurrentResolution("");
    if primaryRes.Err? {
      return Err(PrimaryFailed(primaryRes.error));
    }
    var originalRes := CaptureOriginals(display, primaryRes.value, monitors.value);
    var rm := new ResolutionMonitor(loaded.value, display, originalRes);
    return Ok(rm);
  }
}
