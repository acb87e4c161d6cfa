/** The configuration data model, and what loading and saving a configuration file does
    around the JSON library. */
module Config {
  import opened Wrappers
  import opened Strings

  /** A display mode. A frequency of 0 means "not specified". */
  datatype Resolution = Resolution(width: uint32, height: uint32, frequency: uint32)

  /** One monitored application. `monitorName` "" stands for the primary monitor;
      `restoreResolution` None means "use the original resolution". */
  datatype AppConfig = AppConfig(
    processName: string,
    resolution: Resolution,
    monitorName: string,
    restoreResolution: Option<Resolution>)

  /** The whole configuration document. `defaultResolution` and `defaultMonitor` are read by
      the resolution monitor although the program's Config type does not declare them; they
      are part of this model so that the monitor's restore logic can be stated. */
  datatype Config = Config(
    applications: seq<AppConfig>,
    pollInterval: int,
    showGuiOnLaunch: bool,
    startWithWindows: bool,
    autoStartMonitoring: bool,
    defaultResolution: Resolution,
    defaultMonitor: string)

  type Bytes = seq<bv8>

  datatype ConfigError = ReadFailed | ParseFailed | MarshalFailed | WriteFailed

  /** The poll-interval default that loading applies: a non-positive interval becomes 2.
      Nothing else is adjusted; in particular the two flags documented as "defaults to true"
      are taken as decoded. */
  function Normalize(c: Config): (r: Config)
    ensures r.pollInterval >= 1
    ensures c.pollInterval > 0 ==> r.pollInterval == c.pollInterval
    ensures c.pollInterval <= 0 ==> r.pollInterval == 2
    ensures r.applications == c.applications && r.showGuiOnLaunch == c.showGuiOnLaunch
    ensures r.startWithWindows == c.startWithWindows && r.autoStartMonitoring == c.autoStartMonitoring
    ensures r.defaultResolution == c.defaultResolution && r.defaultMonitor == c.defaultMonitor
  {
    if c.pollInterval <= 0 then c.(pollInterval := 2) else c
  }

  /** `LoadConfig`: `file` is the outcome of reading the file (None: the read failed) and
      `decode` the JSON decoder (None: the document does not parse). Either failure is an
      error with no configuration; otherwise the decoded configuration, normalised. */
  function LoadConfig(file: Option<Bytes>, decode: Bytes -> Option<Config>): (r: Result<Config, ConfigError>)
    ensures file.None? ==> r == Err(ReadFailed)
    ensures file.Some? && decode(file.value).None? ==> r == Err(ParseFailed)
    ensures r.Ok? <==> file.Some? && decode(file.value).Some?
    ensures r.Ok? ==> r.value == Normalize(decode(file.value).value)
  {
    if file.None? then Err(ReadFailed)
    else
      match decode(file.value)
      case None => Err(ParseFailed)
      case Some(c) => Ok(Normalize(c))
  }

  /** What `SaveConfig` did: the bytes handed to the file write (None: no write was
      attempted), and the error it returned. */
  datatype SaveOutcome = SaveOutcome(written: Option<Bytes>, error: Option<ConfigError>)

  /** `SaveConfig`: `encode` is the JSON encoder (None: marshalling failed) and `writeOk`
      whether the file write succeeds. */
  function SaveConfig(c: Config, encode: Config -> Option<Bytes>, writeOk: bool): (r: SaveOutcome)
    ensures encode(c).None? ==> r.written.None? && r.error == Some(MarshalFailed)
    ensures encode(c).Some? ==> r.written == encode(c)
    ensures encode(c).Some? ==> (r.error.None? <==> writeOk)
    ensures encode(c).Some? && !writeOk ==> r.error == Some(WriteFailed)
  {
    match encode(c)
    case None => SaveOutcome(None, Some(MarshalFailed))
    case Some(data) => SaveOutcome(Some(data), if writeOk then None else Some(WriteFailed))
  }

  /** Saving and loading again gives back the same configuration, provided the JSON
      encoder and decoder agree and the poll interval is already positive. */
  lemma SaveThenLoad(c: Config, encode: Config -> Option<Bytes>, decode: Bytes -> Option<Config>)
    requires c.pollInterval >= 1
    requires encode(c).Some? && decode(encode(c).value) == Some(c)
    ensures SaveConfig(c, encode, true).error.None?
    ensures LoadConfig(SaveConfig(c, encode, true).written, decode) == Ok(c)
  {
  }

  /** The configuration `createDefaultConfig` writes on first run. */
  function DefaultConfig(): Config {
    Config(
      applications := [AppConfig("cs2.exe", Resolution(1280, 960, 144), "", None)],
      pollInterval := 2,
      showGuiOnLaunch := false,
      startWithWindows := false,
      autoStartMonitoring := false,
      defaultResolution := Resolution(1920, 1080, 144),
      defaultMonitor := "\\\\.\\DISPLAY1")
  }

  /** `createDefaultConfig` saves the default configuration. */
  function CreateDefaultConfig(encode: Config -> Option<Bytes>, writeOk: bool): (r: SaveOutcome)
    ensures r.written.Some? ==> r.written == encode(DefaultConfig())
    ensures r.error.None? <==> encode(DefaultConfig()).Some? && writeOk
  {
    SaveConfig(DefaultConfig(), encode, writeOk)
  }

  /** The default configuration is already normal: loading it back changes nothing, and
      its one rule targets the primary monitor and restores the original resolution. */
  lemma DefaultConfigIsNormal()
    ensures Normalize(DefaultConfig()) == DefaultConfig()
    ensures |DefaultConfig().applications| == 1
    ensures DefaultConfig().applications[0].monitorName == ""
    ensures DefaultConfig().applications[0].restoreResolution.None?
  {
  }
}
