/** The text codec of the configuration window: the "WxH@FHz" resolution format and its
    parser, the decoder of application-list entries, and the conversion of a monitor's
    display name back to its device name. */
module GuiHelpers {
  import opened Wrappers
  import opened Strings
  import opened Config
  import opened Display

  /** `fmt.Sprintf("%dx%d@%dHz", …)` of a resolution. */
  function FormatResolution(r: Resolution): string {
    DecimalString(r.width) + "x" + DecimalString(r.height) + "@" + DecimalString(r.frequency) + "Hz"
  }

  datatype ResolutionError = NotOneAt | NotOneX | BadWidth | BadHeight | BadFrequency

  /** `parseResolutionString`: split once at "@" and once at "x", three unsigned 32-bit
      decimal fields, and at most one trailing "Hz" removed from the frequency. */
  function ParseResolutionString(s: string): (r: Result<Resolution, ResolutionError>)
    ensures Count(s, '@') != 1 ==> r == Err(NotOneAt)
    ensures Count(s, '@') == 1 && Count(Split(s, '@')[0], 'x') != 1 ==> r == Err(NotOneX)
    ensures r.Ok? ==> Count(s, '@') == 1 && Count(Split(s, '@')[0], 'x') == 1
  {
    var parts := Split(s, '@');
    if |parts| != 2 then Err(NotOneAt)
    else
      var dims := Split(parts[0], 'x');
      if |dims| != 2 then Err(NotOneX)
      else
        match ParseUint32(dims[0])
        case None => Err(BadWidth)
        case Some(width) =>
          match ParseUint32(dims[1])
          case None => Err(BadHeight)
          case Some(height) =>
            match ParseUint32(TrimSuffix(parts[1], "Hz"))
            case None => Err(BadFrequency)
            case Some(frequency) => Ok(Resolution(width, height, frequency))
  }

  /** The text of a resolution with its three fields written as `a`, `b` and `c`. */
  function ResolutionText(a: string, b: string, c: string): string {
    a + "x" + b + "@" + c
  }

  lemma DigitsHaveNo(s: string, c: char)
    requires AllDigits(s) && !IsDigit(c)
    ensures c !in s
  {
    assert forall i :: 0 <= i < |s| ==> s[i] != c;
  }

  /** A field that `ParseUint32` accepts once "Hz" is trimmed holds neither "@" nor "x". */
  lemma FrequencyFieldHasNo(c: string, x: char)
    requires ParseUint32(TrimSuffix(c, "Hz")).Some? && !IsDigit(x) && x != 'H' && x != 'z'
    ensures x !in c
  {
    var t := TrimSuffix(c, "Hz");
    DigitsHaveNo(t, x);
    if HasSuffix(c, "Hz") {
      assert c == t + "Hz";
    }
  }

  /** The parser accepts exactly the texts made of two decimal fields around an "x", an "@"
      and a third decimal field with an optional "Hz", and reads those three values. Leading
      zeros are accepted. */
  lemma ParseResolutionStringShape(a: string, b: string, c: string)
    requires ParseUint32(a).Some? && ParseUint32(b).Some? && ParseUint32(TrimSuffix(c, "Hz")).Some?
    ensures ParseResolutionString(ResolutionText(a, b, c)) ==
            Ok(Resolution(ParseUint32(a).value, ParseUint32(b).value, ParseUint32(TrimSuffix(c, "Hz")).value))
  {
    DigitsHaveNo(a, 'x');
    DigitsHaveNo(a, '@');
    DigitsHaveNo(b, 'x');
    DigitsHaveNo(b, '@');
    FrequencyFieldHasNo(c, '@');
    var dims := a + "x" + b;
    assert '@' !in dims;
    assert ResolutionText(a, b, c) == dims + ['@'] + c;
    SplitAfter(dims, c, '@');
    SplitWithout(c, '@');
    assert dims == a + ['x'] + b;
    SplitAfter(a, b, 'x');
    SplitWithout(b, 'x');
  }

  /** Conversely, every text the parser accepts has that shape. */
  lemma ParseResolutionStringAccepted(s: string)
    requires ParseResolutionString(s).Ok?
    ensures exists a, b, c :: s == ResolutionText(a, b, c) && ParseUint32(a).Some? && ParseUint32(b).Some?
              && ParseUint32(TrimSuffix(c, "Hz")).Some?
  {
    var parts := Split(s, '@');
    SplitTwo(s, '@');
    var dims := Split(parts[0], 'x');
    SplitTwo(parts[0], 'x');
    assert s == ResolutionText(dims[0], dims[1], parts[1]);
  }

  /** Parsing what the "%dx%d@%dHz" format prints gives the resolution back. */
  lemma ParseFormatResolution(r: Resolution)
    ensures ParseResolutionString(FormatResolution(r)) == Ok(r)
  {
    ParseUint32Decimal(r.width);
    ParseUint32Decimal(r.height);
    ParseUint32Decimal(r.frequency);
    var f := DecimalString(r.frequency);
    assert TrimSuffix(f + "Hz", "Hz") == f by {
      assert (f + "Hz")[..|f + "Hz"| - 2] == f;
    }
    assert FormatResolution(r) == ResolutionText(DecimalString(r.width), DecimalString(r.height), f + "Hz");
    ParseResolutionStringShape(DecimalString(r.width), DecimalString(r.height), f + "Hz");
  }

  /** What a monitor is called in the window before its position and resolution are added:
      its device string, with " (Primary)" for the primary monitor. */
  function MonitorLabel(m: MonitorInfo): string {
    m.deviceString + (if m.isPrimary then " (Primary)" else "")
  }

  /** A display name with everything from its last " - " removed, and then everything
      from its last " [" removed. */
  function CleanDisplayName(d: string): (r: string)
    ensures r <= d
    ensures !Contains(d, " - ") && !Contains(d, " [") ==> r == d
  {
    StripLast(StripLast(d, " - "), " [")
  }

  /** `d` cut at the last occurrence of `sep`, if there is one. */
  function StripLast(d: string, sep: string): (r: string)
    ensures r <= d
    ensures !Contains(d, sep) ==> r == d
  {
    var a := LastIndexOf(d, sep);
    if a == -1 then d else d[..a]
  }

  predicate LabelMatches(m: MonitorInfo, clean: string) {
    m.deviceName != "" && MonitorLabel(m) == clean
  }

  /** The device name of the first named monitor whose label is `clean`. */
  function FirstLabelMatch(ms: seq<MonitorInfo>, clean: string): (r: Option<string>)
    ensures r.None? <==> forall i :: 0 <= i < |ms| ==> !LabelMatches(ms[i], clean)
    ensures r.Some? ==> exists i :: (0 <= i < |ms| && LabelMatches(ms[i], clean) && r.value == ms[i].deviceName
                                     && forall j :: 0 <= j < i ==> !LabelMatches(ms[j], clean))
  {
    if ms == [] then None
    else if LabelMatches(ms[0], clean) then Some(ms[0].deviceName)
    else
      var r := FirstLabelMatch(ms[1..], clean);
      assert forall i :: 1 <= i < |ms| ==> ms[i] == ms[1..][i - 1];
      r
  }

  /** `getDeviceNameFromDisplayName` over the outcome of a monitor enumeration (None: the
      enumeration failed). */
  function DeviceNameFromDisplayName(monitors: Option<seq<MonitorInfo>>, displayName: string): string {
    if displayName == "Primary Monitor" then ""
    else if monitors.None? then displayName
    else
      match FirstLabelMatch(monitors.value, CleanDisplayName(displayName))
      case Some(name) => name
      case None => if CleanDisplayName(displayName) == "Primary Monitor" then "" else displayName
  }

  /** The cleaning step of `getDeviceNameFromDisplayName`. */
  method CleanName(displayName: string) returns (clean: string)
    ensures clean == CleanDisplayName(displayName)
  {
    clean := displayName;
    var idx := LastIndexOf(clean, " - ");
    if idx != -1 {
      clean := clean[..idx];
    }
    idx := LastIndexOf(clean, " [");
    if idx != -1 {
      clean := clean[..idx];
    }
  }

  /** The search loop of `getDeviceNameFromDisplayName`, returning at the first match. */
  method FindLabel(ms: seq<MonitorInfo>, clean: string) returns (r: Option<string>)
    ensures r == FirstLabelMatch(ms, clean)
  {
    for i := 0 to |ms|
      invariant forall j :: 0 <= j < i ==> !LabelMatches(ms[j], clean)
    {
      if ms[i].deviceName != "" && MonitorLabel(ms[i]) == clean {
        return Some(ms[i].deviceName);
      }
    }
    return None;
  }

  /** `getDeviceNameFromDisplayName`: a search of the monitor list with an early return. */
  method GetDeviceNameFromDisplayName(monitors: Option<seq<MonitorInfo>>, displayName: string)
    returns (r: string)
    ensures r == DeviceNameFromDisplayName(monitors, displayName)
  {
    if displayName == "Primary Monitor" {
      return "";
    }
    if monitors.None? {
      return displayName;
    }
    var clean := CleanName(displayName);
    var found := FindLabel(monitors.value, clean);
    if found.Some? {
      return found.value;
    }
    if clean == "Primary Monitor" {
      return "";
    }
    return displayName;
  }

  /** The answer for "Primary Monitor" is always "", and when the enumeration fails every
      other name comes back unchanged. */
  lemma DeviceNameFallbacks(monitors: Option<seq<MonitorInfo>>, displayName: string)
    ensures DeviceNameFromDisplayName(monitors, "Primary Monitor") == ""
    ensures monitors.None? && displayName != "Primary Monitor" ==>
              DeviceNameFromDisplayName(monitors, displayName) == displayName
  {
  }

  /** A name that matches no monitor label and has nothing to strip comes back unchanged;
      this is what becomes of a device name such as "\\.\DISPLAY2" handed to the
      conversion. */
  lemma DeviceNameUnmatched(ms: seq<MonitorInfo>, name: string)
    requires name != "Primary Monitor" && !Contains(name, " - ") && !Contains(name, " [")
    requires forall i :: 0 <= i < |ms| ==> MonitorLabel(ms[i]) != name
    ensures DeviceNameFromDisplayName(Some(ms), name) == name
  {
  }

  /** Two named monitors with the same label are told apart only by their position, which
      the conversion strips: the later one's name converts to the earlier one's device. */
  lemma DuplicateLabelsResolveToFirst(ms: seq<MonitorInfo>, i: nat, j: nat, displayName: string)
    requires i < j < |ms| && LabelMatches(ms[i], MonitorLabel(ms[j]))
    requires forall k :: 0 <= k < i ==> !LabelMatches(ms[k], MonitorLabel(ms[j]))
    requires displayName != "Primary Monitor" && CleanDisplayName(displayName) == MonitorLabel(ms[j])
    ensures DeviceNameFromDisplayName(Some(ms), displayName) == ms[i].deviceName
  {
    var r := FirstLabelMatch(ms, MonitorLabel(ms[j]));
    var i' :| 0 <= i' < |ms| && LabelMatches(ms[i'], MonitorLabel(ms[j])) && r.value == ms[i'].deviceName
              && forall k :: 0 <= k < i' ==> !LabelMatches(ms[k], MonitorLabel(ms[j]));
    assert !(i < i');
  }

  datatype AppInfoError = NoDash | NoParen | Unbalanced | BadResolution(cause: ResolutionError)

  /** The visible part of a list entry: the text before the first NUL, if there is one. */
  function EntryText(entry: string): string {
    var parts := Split(entry, '\0');
    if |parts| > 1 then parts[0] else entry
  }

  /** The hidden part of a list entry: the text between the first and the second NUL, or ""
      when there is no NUL. */
  function EntryDevice(entry: string): string {
    var parts := Split(entry, '\0');
    if |parts| > 1 then parts[1] else ""
  }

  /** The parenthesis depth a text adds: its number of '(' less its number of ')'. */
  function Depth(t: string): int {
    if t == [] then 0
    else (if t[0] == '(' then 1 else if t[0] == ')' then -1 else 0) + Depth(t[1..])
  }

  /** Splits off the first character of a slice for `Depth`. */
  lemma DepthSlice(s: string, i: nat, k: nat)
    requires i < k <= |s|
    ensures Depth(s[i..k]) == (if s[i] == '(' then 1 else if s[i] == ')' then -1 else 0) + Depth(s[i + 1..k])
  {
    assert s[i..k][1..] == s[i + 1..k];
  }

  /** The index of the parenthesis that closes the group open at depth `depth` when
      scanning from index `i`, or -1 if the text ends first. */
  function CloseParen(s: string, i: nat, depth: nat): (r: int)
    requires depth >= 1
    ensures r == -1 || (i <= r < |s| && s[r] == ')')
    decreases |s| - i
  {
    if i >= |s| then -1
    else if s[i] == '(' then CloseParen(s, i + 1, depth + 1)
    else if s[i] == ')' then (if depth == 1 then i else CloseParen(s, i + 1, depth - 1))
    else CloseParen(s, i + 1, depth)
  }

  /** `CloseParen` finds the first index at which the depth, counted from `depth` at `i`,
      drops to 0, and finds nothing exactly when it stays at 1 or more to the end. */
  lemma {:induction false} CloseParenDepth(s: string, i: nat, depth: nat)
    requires depth >= 1
    ensures var r := CloseParen(s, i, depth);
            r != -1 ==> depth + Depth(s[i..r]) == 1 && forall k :: i <= k <= r ==> depth + Depth(s[i..k]) >= 1
    ensures var r := CloseParen(s, i, depth);
            r == -1 ==> forall k :: i <= k <= |s| ==> depth + Depth(s[i..k]) >= 1
    decreases |s| - i
  {
    if i < |s| {
      var d := if s[i] == '(' then depth + 1 else if s[i] == ')' then depth - 1 else depth;
      assert s[i..i] == [];
      if d != 0 {
        CloseParenDepth(s, i + 1, d);
        forall k | i < k <= |s| ensures Depth(s[i..k]) == d - depth + Depth(s[i + 1..k]) {
          DepthSlice(s, i, k);
        }
      }
    }
  }

  const RESTORE_TAG: string := "[Restore: "

  /** Its ten characters hold no "]", so the first "]" after the tag starts lies past it. */
  lemma RestoreTagHasNoBracket(m: string, ri: int)
    requires OccursAt(m, RESTORE_TAG, ri)
    ensures forall j :: 0 <= j < |RESTORE_TAG| ==> !OccursAt(m[ri..], "]", j)
  {
    forall j | 0 <= j < |RESTORE_TAG|
      ensures !OccursAt(m[ri..], "]", j)
    {
      assert m[ri..][j] == m[ri..ri + |RESTORE_TAG|][j] == RESTORE_TAG[j];
      assert j + 1 <= |m[ri..]| ==> m[ri..][j..j + 1] == [m[ri..][j]];
    }
  }

  /** A "[Restore: …]" tag inside the monitor segment: the restore resolution it names
      (None for "default" or text that does not parse) and the segment without the tag. */
  function RestoreTag(m: string): (r: (Option<Resolution>, string))
    ensures !Contains(m, RESTORE_TAG) ==> r == (None, m)
  {
    var ri := IndexOf(m, RESTORE_TAG);
    if ri == -1 then (None, m)
    else
      var re := IndexOf(m[ri..], "]");
      if re == -1 then (None, m)
      else
        RestoreTagHasNoBracket(m, ri);
        var restoreStr := m[ri + |RESTORE_TAG|..ri + re];
        var restore := if restoreStr != "default" && ParseResolutionString(restoreStr).Ok?
                       then Some(ParseResolutionString(restoreStr).value) else None;
        (restore, TrimSpace(m[..ri]))
  }

  /** The text before the first " - " is followed by " - " and holds none itself. */
  lemma FirstDash(text: string)
    requires Contains(text, " - ")
    ensures text[..IndexOf(text, " - ")] + " - " <= text
    ensures !Contains(text[..IndexOf(text, " - ")], " - ")
  {
    var dash := IndexOf(text, " - ");
    var p := text[..dash];
    assert text[..dash + 3] == p + " - ";
    forall j | 0 <= j <= |p| - 3
      ensures !OccursAt(p, " - ", j)
    {
      assert p[j..j + 3] == text[j..j + 3];
      assert !OccursAt(text, " - ", j);
    }
  }

  /** The rule a list entry is decoded to. */
  function ParsedAppInfo(entry: string, monitors: Option<seq<MonitorInfo>>): Result<AppConfig, AppInfoError> {
    ParsedText(EntryText(entry), EntryDevice(entry), monitors)
  }

  /** The decoding of the visible text of an entry, given its hidden device name. */
  function ParsedText(text: string, device: string, monitors: Option<seq<MonitorInfo>>): Result<AppConfig, AppInfoError> {
    var dash := IndexOf(text, " - ");
    if dash == -1 then Err(NoDash)
    else
      match Pieces(text[dash + 3..])
      case Err(e) => Err(e)
      case Ok((resolutionStr, segment)) => ParsedPieces(text[..dash], resolutionStr, segment, device, monitors)
  }

  /** The cuts after the process name: the resolution text before the first " (", and the
      monitor segment up to the parenthesis that closes it. */
  function Pieces(remainder: string): Result<(string, string), AppInfoError> {
    var open := IndexOf(remainder, " (");
    if open == -1 then Err(NoParen)
    else
      var close := CloseParen(remainder, open + 2, 1);
      if close == -1 then Err(Unbalanced)
      else Ok((remainder[..open], remainder[open + 2..close]))
  }

  /** No prefix of the text from `i` on closes the group open just before `i`. */
  predicate StaysOpen(s: string, i: nat)
    requires i <= |s|
  {
    forall k :: i <= k <= |s| ==> Depth(s[i..k]) >= 0
  }

  /** A text whose parentheses balance: the depth never drops below 0 and ends at 0. */
  predicate Balanced(t: string) {
    Depth(t) == 0 && forall k :: 0 <= k <= |t| ==> Depth(t[..k]) >= 0
  }

  /** The three outcomes of the cuts: NoParen exactly when there is no " (", Unbalanced
      exactly when the depth after the first " (" never drops back to 0, and otherwise the
      text before the first " (" and a balanced segment closed by ')'. */
  lemma PiecesOutcomes(remainder: string)
    ensures Pieces(remainder) == Err(NoParen) <==> !Contains(remainder, " (")
    ensures var open := IndexOf(remainder, " (");
            Pieces(remainder) == Err(Unbalanced) <==>
              open != -1 && StaysOpen(remainder, open + 2)
    ensures Pieces(remainder).Err? ==> Pieces(remainder) in {Err(NoParen), Err(Unbalanced)}
    ensures Pieces(remainder).Ok? ==>
              var (resolutionStr, segment) := Pieces(remainder).value;
              resolutionStr + " (" + segment + ")" <= remainder && !Contains(resolutionStr, " (") && Balanced(segment)
  {
    var open := IndexOf(remainder, " (");
    if open != -1 {
      var close := CloseParen(remainder, open + 2, 1);
      CloseParenDepth(remainder, open + 2, 1);
      if close != -1 {
        PiecesCut(remainder, open, close);
        SegmentBalanced(remainder, open + 2, close);
        DepthClosed(remainder, open + 2, close);
      }
    }
  }

  /** The text before the first " (" is followed by " (", the segment and ')', and holds no
      " (" itself. */
  lemma PiecesCut(remainder: string, open: nat, close: nat)
    requires open == IndexOf(remainder, " (") && open + 2 <= close < |remainder| && remainder[close] == ')'
    ensures var f := remainder[..open];
            f + " (" + remainder[open + 2..close] + ")" <= remainder && !Contains(f, " (")
  {
    var f := remainder[..open];
    assert remainder[..close + 1] == f + " (" + remainder[open + 2..close] + ")" by {
      assert remainder[open..open + 2] == " (";
    }
    forall j | 0 <= j <= |f| - 2 ensures !OccursAt(f, " (", j) {
      assert j < open && !OccursAt(remainder, " (", j);
      assert f[j..j + 2] == remainder[j..j + 2];
    }
  }

  /** The text from `i` up to the first index where the depth drops to 0 is balanced. */
  lemma SegmentBalanced(s: string, i: nat, close: nat)
    requires i <= close < |s| && s[close] == ')'
    requires Depth(s[i..close]) == 0 && forall k :: i <= k <= close ==> Depth(s[i..k]) >= 0
    ensures Balanced(s[i..close])
  {
    var segment := s[i..close];
    forall k | 0 <= k <= |segment| ensures Depth(segment[..k]) >= 0 {
      assert segment[..k] == s[i..i + k];
    }
  }

  /** The closing ')' takes a balanced text to depth -1, so the group does not stay open. */
  lemma DepthClosed(s: string, i: nat, close: nat)
    requires i <= close < |s| && s[close] == ')' && Depth(s[i..close]) == 0
    ensures Depth(s[i..close + 1]) == -1
  {
    assert s[i..close + 1] == s[i..close] + ")";
    DepthAppend(s[i..close], ")");
  }

  /** `Depth` adds up over concatenation. */
  lemma {:induction false} DepthAppend(a: string, b: string)
    ensures Depth(a + b) == Depth(a) + Depth(b)
  {
    if a != [] {
      assert (a + b)[1..] == a[1..] + b;
      DepthAppend(a[1..], b);
    } else {
      assert a + b == b;
    }
  }

  /** The decoding of the pieces: the resolution, and the monitor and restore resolution
      named in the monitor segment. */
  function ParsedPieces(processName: string, resolutionStr: string, segment: string, device: string,
                        monitors: Option<seq<MonitorInfo>>): Result<AppConfig, AppInfoError>
  {
    var (restore, monitorStr) := RestoreTag(segment);
    match ParseResolutionString(resolutionStr)
    case Err(e) => Err(BadResolution(e))
    case Ok(resolution) => Ok(AppConfig(processName, resolution, DecodedMonitor(device, monitorStr, monitors), restore))
  }

  /** The monitor name of a decoded entry: the hidden device name when there is one, else the
      display name converted back; trimmed, with "Primary Monitor" read as "". */
  function DecodedMonitor(device: string, monitorStr: string, monitors: Option<seq<MonitorInfo>>): string {
    var name := if device != "" then TrimSpace(device) else TrimSpace(DeviceNameFromDisplayName(monitors, monitorStr));
    if name == "Primary Monitor" then "" else name
  }

  /** An entry whose text has " - " is refused with NoParen when no " (" follows the first
      " - ", and with Unbalanced when the group after that " (" is never closed. */
  lemma ParsedAppInfoRefusals(entry: string, monitors: Option<seq<MonitorInfo>>)
    ensures var text := EntryText(entry);
            var dash := IndexOf(text, " - ");
            dash != -1 && !Contains(text[dash + 3..], " (") ==> ParsedAppInfo(entry, monitors) == Err(NoParen)
    ensures var text := EntryText(entry);
            var dash := IndexOf(text, " - ");
            (dash != -1 && Contains(text[dash + 3..], " (") &&
             StaysOpen(text[dash + 3..], IndexOf(text[dash + 3..], " (") + 2)) ==>
              ParsedAppInfo(entry, monitors) == Err(Unbalanced)
  {
    var text := EntryText(entry);
    var dash := IndexOf(text, " - ");
    if dash != -1 {
      PiecesOutcomes(text[dash + 3..]);
    }
  }

  /** A list entry without " - " is refused. Otherwise the process name is the text before
      the first " - ", the device name after the NUL takes precedence over the display name,
      and the monitor name is trimmed, with "Primary Monitor" read as "". */
  lemma ParsedAppInfoProperties(entry: string, monitors: Option<seq<MonitorInfo>>)
    ensures !Contains(EntryText(entry), " - ") ==> ParsedAppInfo(entry, monitors) == Err(NoDash)
    ensures var r := ParsedAppInfo(entry, monitors);
            r.Ok? ==> r.value.processName + " - " <= EntryText(entry) && !Contains(r.value.processName, " - ")
    ensures var r := ParsedAppInfo(entry, monitors);
            r.Ok? ==> r.value.monitorName != "Primary Monitor" && Trimmed(r.value.monitorName)
    ensures var r := ParsedAppInfo(entry, monitors);
            r.Ok? && EntryDevice(entry) != "" ==>
              r.value.monitorName == (if TrimSpace(EntryDevice(entry)) == "Primary Monitor" then ""
                                      else TrimSpace(EntryDevice(entry)))
  {
    if Contains(EntryText(entry), " - ") {
      FirstDash(EntryText(entry));
    }
  }

  /** The scan of `parseAppInfo` for the parenthesis that closes the one just before
      `start`: a depth counter that starts at 1 and stops when it drops to 0. */
  method MatchingParen(s: string, start: nat) returns (closePos: int)
    ensures closePos == CloseParen(s, start, 1)
  {
    var openCount := 1;
    closePos := -1;
    var i := start;
    while i < |s|
      invariant openCount >= 1 && closePos == -1
      invariant CloseParen(s, i, openCount) == CloseParen(s, start, 1)
      decreases |s| - i
    {
      if s[i] == '(' {
        openCount := openCount + 1;
      } else if s[i] == ')' {
        openCount := openCount - 1;
        if openCount == 0 {
          closePos := i;
          break;
        }
      }
      i := i + 1;
    }
  }

  /** The start of `parseAppInfo`: the visible text and the hidden device name. */
  method SplitEntry(entry: string) returns (appInfo: string, deviceName: string)
    ensures appInfo == EntryText(entry) && deviceName == EntryDevice(entry)
  {
    var parts := Split(entry, '\0');
    deviceName := "";
    appInfo := entry;
    if |parts| > 1 {
      deviceName := parts[1];
      appInfo := parts[0];
    }
  }

  /** The middle of `parseAppInfo`: the resolution text before the first " (" and the
      monitor segment up to the matching parenthesis. */
  method FindPieces(remainder: string) returns (r: Result<(string, string), AppInfoError>)
    ensures r == Pieces(remainder)
  {
    var firstOpen := IndexOf(remainder, " (");
    if firstOpen == -1 {
      return Err(NoParen);
    }
    var closePos := MatchingParen(remainder, firstOpen + 2);
    if closePos == -1 {
      return Err(Unbalanced);
    }
    return Ok((remainder[..firstOpen], remainder[firstOpen + 2..closePos]));
  }

  /** The end of `parseAppInfo`: the resolution is parsed and the monitor name chosen. */
  method DecodeAppPieces(processName: string, resolutionStr: string, segment: string, deviceName: string,
                      monitors: Option<seq<MonitorInfo>>)
    returns (r: Result<AppConfig, AppInfoError>)
    ensures r == ParsedPieces(processName, resolutionStr, segment, deviceName, monitors)
  {
    var (restore, monitorStr) := RestoreTag(segment);
    var resolution := ParseResolutionString(resolutionStr);
    if resolution.Err? {
      return Err(BadResolution(resolution.error));
    }
    var monitorName;
    if deviceName != "" {
      monitorName := TrimSpace(deviceName);
    } else {
      var converted := GetDeviceNameFromDisplayName(monitors, monitorStr);
      monitorName := TrimSpace(converted);
    }
    if monitorName == "Primary Monitor" {
      monitorName := "";
    }
    return Ok(AppConfig(processName, resolution.value, monitorName, restore));
  }

  /** `parseAppInfo`: the list entry is cut up as `ParsedAppInfo` says, with the matching
      parenthesis found by a depth-counting scan. */
  method ParseAppInfo(entry: string, monitors: Option<seq<MonitorInfo>>)
    returns (r: Result<AppConfig, AppInfoError>)
    ensures r == ParsedAppInfo(entry, monitors)
  {
    var appInfo, deviceName := SplitEntry(entry);
    r := ParseText(appInfo, deviceName, monitors);
  }

  /** `parseAppInfo` after the NUL split. */
  method ParseText(appInfo: string, deviceName: string, monitors: Option<seq<MonitorInfo>>)
    returns (r: Result<AppConfig, AppInfoError>)
    ensures r == ParsedText(appInfo, deviceName, monitors)
  {
    var firstDash := IndexOf(appInfo, " - ");
    if firstDash == -1 {
      return Err(NoDash);
    }
    var pieces := FindPieces(appInfo[firstDash + 3..]);
    if pieces.Err? {
      return Err(pieces.error);
    }
    var (resolutionStr, segment) := pieces.value;
    r := DecodeAppPieces(appInfo[..firstDash], resolutionStr, segment, deviceName, monitors);
  }
}
