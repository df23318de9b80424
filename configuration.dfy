/** Locating and loading a model's configuration
    (include/ModelEngineCommon.h, ConfigurationUtilities): the settings
    file names the configuration directory, the control file names the
    configuration and monitor files, and the record directory is built from
    the configuration and the control file's `Configuration` entry.

    The file system is a map from the paths that exist to their parsed
    JSON documents; reading, parsing and creating directories are not part
    of this model. */
module Configuration {
  import opened Basics

  /** A parsed JSON value, as far as the configuration code inspects it. */
  datatype Json =
    | JNull
    | JString(Text: string)
    | JInteger(Int: int)
    | JUnsigned(Nat: nat)
    | JObject(Members: map<string, Json>)
    | JOther

  /** `j[key]`: the member, or null when `j` has no such member. */
  function Member(j: Json, key: string): (r: Json)
    ensures (j.JObject? && key in j.Members) || r == JNull
  {
    if j.JObject? && key in j.Members then j.Members[key] else JNull
  }

  // ---------------------------------------------------------------------
  // Strings

  /** The erase-remove idiom on `"`: every double quote dropped, every
      other character kept. */
  function StripQuotes(s: string): (r: string)
    ensures '"' !in r
  {
    if s == [] then [] else (if s[0] == '"' then [] else [s[0]]) + StripQuotes(s[1..])
  }

  /** Every character other than `"` is kept as often as it occurs. */
  lemma {:induction false} StripQuotesKeepsOthers(s: string)
    ensures forall c :: c != '"' ==> multiset(StripQuotes(s))[c] == multiset(s)[c]
  {
    if s != [] {
      assert s == [s[0]] + s[1..];
      StripQuotesKeepsOthers(s[1..]);
    }
  }

  /** Stripping works piece by piece: the kept characters stay in order. */
  lemma {:induction false} StripQuotesAppend(a: string, b: string)
    ensures StripQuotes(a + b) == StripQuotes(a) + StripQuotes(b)
  {
    if a != [] {
      assert (a + b)[0] == a[0] && (a + b)[1..] == a[1..] + b;
      StripQuotesAppend(a[1..], b);
    } else {
      assert a + b == b;
    }
  }

  /** A string without quotes is left as it is. */
  lemma {:induction false} StripQuotesKeepsPlainText(s: string)
    requires '"' !in s
    ensures StripQuotes(s) == s
  {
    if s != [] {
      assert s[0] != '"';
      assert '"' !in s[1..];
      StripQuotesKeepsPlainText(s[1..]);
    }
  }

  predicate EndsWithJson(s: string)
  {
    |s| >= 5 && s[|s| - 5..] == ".json"
  }

  /** `.json` is appended when the name is shorter than five characters or
      its last five are not `.json`. */
  function WithJsonSuffix(s: string): (r: string)
    ensures EndsWithJson(r)
    ensures |r| >= |s| && r[..|s|] == s
  {
    if |s| < 5 || s[|s| - 5..] != ".json" then s + ".json" else s
  }

  /** The suffix is added at most once: a name that has it is kept, one
      that lacks it gets exactly `.json` more. */
  lemma JsonSuffixOnce(s: string)
    ensures WithJsonSuffix(WithJsonSuffix(s)) == WithJsonSuffix(s)
    ensures EndsWithJson(s) <==> WithJsonSuffix(s) == s
    ensures !EndsWithJson(s) <==> WithJsonSuffix(s) == s + ".json"
  {
    if !EndsWithJson(s) {
      assert |s + ".json"| != |s|;
    }
  }

  /** `rfind(c)`: the last position holding `c`. */
  function LastIndexOf(s: string, c: char): (p: Option<nat>)
    ensures p.Some? ==> p.value < |s| && s[p.value] == c && c !in s[p.value + 1..]
    ensures p.None? ==> c !in s
  {
    if s == [] then None
    else if s[|s| - 1] == c then Some(|s| - 1)
    else
      var p := LastIndexOf(s[..|s| - 1], c);
      assert s == s[..|s| - 1] + [s[|s| - 1]];
      if p.Some? then assert s[p.value + 1..] == s[..|s| - 1][p.value + 1..] + [s[|s| - 1]]; p
      else p
  }

  /** `t` starts at position `q` of `s`. */
  predicate OccursAt(s: string, t: string, q: nat)
  {
    q + |t| <= |s| && s[q..q + |t|] == t
  }

  /** The last position below `n` where `t` starts in `s`. */
  function FindBefore(s: string, t: string, n: nat): (p: Option<nat>)
    ensures p.Some? ==> p.value < n && OccursAt(s, t, p.value)
    ensures forall q: nat :: (p.None? || p.value < q) && q < n ==> !OccursAt(s, t, q)
  {
    if n == 0 then None
    else if OccursAt(s, t, n - 1) then Some(n - 1)
    else FindBefore(s, t, n - 1)
  }

  /** `rfind(t)`: the last position where `t` starts. */
  function LastOccurrence(s: string, t: string): Option<nat>
  {
    FindBefore(s, t, |s| + 1)
  }

  /** The project part of a configuration name: what follows its last
      `/`, cut before its last `.json`. */
  function ProjectName(configuration: string): (r: string)
    ensures '/' !in r
  {
    var last := LastIndexOf(configuration, '/');
    var name := if last.Some? then configuration[last.value + 1..] else configuration;
    var extension := LastOccurrence(name, ".json");
    if extension.Some? then name[..extension.value] else name
  }

  /** A path `<directory>/<name>.json` names the project `<name>`. */
  lemma ProjectNameOfPath(directory: string, name: string)
    requires '/' !in name
    ensures ProjectName(directory + "/" + name + ".json") == name
  {
    var s := directory + "/" + name + ".json";
    var last := LastIndexOf(s, '/');
    assert s[|directory|] == '/';
    assert s[|directory| + 1..] == name + ".json";
    assert '/' !in name + ".json";
    assert last == Some(|directory|);
    var file := name + ".json";
    assert OccursAt(file, ".json", |name|);
    var extension := LastOccurrence(file, ".json");
    assert extension == Some(|name|);
    assert file[..|name|] == name;
  }

  // ---------------------------------------------------------------------
  // The record directory and path

  /** `PostProcessing.RecordLocation` when it is a string, else `./`. */
  function RecordLocation(configuration: Json): string
  {
    var location := Member(Member(configuration, "PostProcessing"), "RecordLocation");
    if location.JString? then location.Text else "./"
  }

  /** `PostProcessing.RecordFile` when it is a string, else
      `ModelEngineRecord.csv`. */
  function RecordFileName(configuration: Json): string
  {
    var file := Member(Member(configuration, "PostProcessing"), "RecordFile");
    if file.JString? then file.Text else "ModelEngineRecord.csv"
  }

  function WithTrailingSlash(s: string): (r: string)
    requires s != []
    ensures r != [] && r[|r| - 1] == '/'
    ensures r == s || r == s + "/"
  {
    if s[|s| - 1] != '/' then s + "/" else s
  }

  /** ExtractRecordDirectory: the record location with a trailing `/`,
      then the project named by the control file, then `/` again when the
      result does not already end in one. */
  function ExtractRecordDirectory(configuration: Json, control: Json): (r: string)
    requires RecordLocation(configuration) != []
    ensures r != [] && r[|r| - 1] == '/'
    ensures var base := WithTrailingSlash(RecordLocation(configuration)); |base| <= |r| && r[..|base|] == base
  {
    var base := WithTrailingSlash(RecordLocation(configuration));
    var project := Member(control, "Configuration");
    var directory := if project.JString? then base + ProjectName(project.Text) else base;
    WithTrailingSlash(directory)
  }

  /** Without a project the record directory is the location; with a
      project `<dir>/<name>.json` it is a sub-directory `<name>/` of it. */
  lemma RecordDirectoryOfProject(configuration: Json, control: Json, directory: string, name: string)
    requires RecordLocation(configuration) != []
    ensures !Member(control, "Configuration").JString? ==>
      ExtractRecordDirectory(configuration, control) == WithTrailingSlash(RecordLocation(configuration))
    ensures Member(control, "Configuration") == JString(directory + "/" + name + ".json") && '/' !in name && name != [] ==>
      ExtractRecordDirectory(configuration, control) == WithTrailingSlash(RecordLocation(configuration)) + name + "/"
  {
    if Member(control, "Configuration") == JString(directory + "/" + name + ".json") && '/' !in name && name != [] {
      ProjectNameOfPath(directory, name);
      var s := WithTrailingSlash(RecordLocation(configuration)) + name;
      assert s[|s| - 1] == name[|name| - 1] != '/';
    }
  }

  /** ComposeRecordPath: the record directory followed by the record file
      name. */
  function ComposeRecordPath(configuration: Json, control: Json): (r: string)
    requires RecordLocation(configuration) != []
    ensures var directory := ExtractRecordDirectory(configuration, control);
      |directory| <= |r| && r[..|directory|] == directory && r[|directory|..] == RecordFileName(configuration)
  {
    ExtractRecordDirectory(configuration, control) + RecordFileName(configuration)
  }

  // ---------------------------------------------------------------------
  // Loading

  /** The state the loading steps work on: the fields of
      ConfigurationUtilities, which ModelRunner repeats. `Threw` records
      that a JSON value of the wrong type made a step throw, which ends
      the sequence. */
  datatype Loader = Loader(
    Valid: bool, Threw: bool,
    ConfigurationPath: string, SettingsFile: string, ControlFile: string, ConfigFile: string, MonitorFile: string,
    Settings: Json, Control: Json, Configuration: Json, Monitor: Json)

  const DefaultSettingsFile: string := "./ModelSettings.json"

  /** The fields as the class initialises them. */
  const InitialLoader := Loader(false, false, "", DefaultSettingsFile, "", "", "", JNull, JNull, JNull, JNull)

  /** A step runs only while the state is valid and nothing has thrown. */
  predicate Running(s: Loader)
  {
    s.Valid && !s.Threw
  }

  /** `<directory>/<name>`. */
  function Located(directory: string, name: string): string
  {
    directory + "/" + name
  }

  /** A JSON value that converts to a string or is null. */
  predicate ReadablePath(j: Json)
  {
    j.JNull? || j.JString?
  }

  /** LoadSettings: the settings file name gets its `.json`; when that
      file exists it is read and its `ConfigFilePath`, quotes removed,
      becomes the configuration directory (`./` when absent). */
  function SettingsLoaded(s: Loader, files: map<string, Json>): (t: Loader)
    ensures t.SettingsFile == WithJsonSuffix(s.SettingsFile) && EndsWithJson(t.SettingsFile)
    ensures t.Valid == s.Valid
    ensures t.Threw == (s.Threw || (t.SettingsFile in files && !ReadablePath(Member(files[t.SettingsFile], "ConfigFilePath"))))
    ensures t.SettingsFile !in files ==> t == s.(SettingsFile := t.SettingsFile)
    ensures t.SettingsFile in files ==> t.Settings == files[t.SettingsFile] && '"' !in t.ConfigurationPath
    ensures t.ControlFile == s.ControlFile && t.Control == s.Control && t.Configuration == s.Configuration
  {
    var settingsFile := WithJsonSuffix(s.SettingsFile);
    if settingsFile !in files then s.(SettingsFile := settingsFile)
    else
      var settings := files[settingsFile];
      var path := Member(settings, "ConfigFilePath");
      var loaded := s.(SettingsFile := settingsFile, Settings := settings, ConfigurationPath := "./");
      if path.JNull? then loaded
      else if path.JString? then loaded.(ConfigurationPath := StripQuotes(path.Text))
      else loaded.(Threw := true)
  }

  /** LoadControl: the control file is looked for in the configuration
      directory; when it is missing the state becomes invalid. */
  function ControlLoaded(s: Loader, files: map<string, Json>): (t: Loader)
    ensures t.ControlFile == Located(s.ConfigurationPath, s.ControlFile)
    ensures t.Valid == (s.Valid && t.ControlFile in files) && t.Threw == s.Threw
    ensures t.ControlFile in files ==> t.Control == files[t.ControlFile]
    ensures t.ControlFile !in files ==> t.Control == s.Control
    ensures t.ConfigFile == s.ConfigFile && t.Configuration == s.Configuration && t.ConfigurationPath == s.ConfigurationPath
  {
    var controlFile := Located(s.ConfigurationPath, s.ControlFile);
    if controlFile in files then s.(ControlFile := controlFile, Control := files[controlFile])
    else s.(ControlFile := controlFile, Valid := false)
  }

  /** The file a control document names under `key`: quotes removed,
      `.json` added, in the configuration directory. */
  function NamedFile(directory: string, control: Json, key: string): string
    requires Member(control, key).JString?
  {
    Located(directory, WithJsonSuffix(StripQuotes(Member(control, key).Text)))
  }

  /** LoadConfiguration: the control file's `Configuration` must be a
      string; the file it names is read, and when it is missing the state
      becomes invalid. */
  function ConfigurationLoaded(s: Loader, files: map<string, Json>): (t: Loader)
    ensures t.Threw == (s.Threw || !Member(s.Control, "Configuration").JString?)
    ensures !Member(s.Control, "Configuration").JString? ==> t == s.(Threw := true)
    ensures Member(s.Control, "Configuration").JString? ==>
      t.ConfigFile == NamedFile(s.ConfigurationPath, s.Control, "Configuration") && EndsWithJson(t.ConfigFile) &&
      t.Valid == (s.Valid && t.ConfigFile in files) &&
      (t.ConfigFile in files ==> t.Configuration == files[t.ConfigFile])
    ensures t.ControlFile == s.ControlFile && t.Control == s.Control && t.ConfigurationPath == s.ConfigurationPath
  {
    var configuration := Member(s.Control, "Configuration");
    if !configuration.JString? then s.(Threw := true)
    else
      var configFile := NamedFile(s.ConfigurationPath, s.Control, "Configuration");
      if configFile in files then s.(ConfigFile := configFile, Configuration := files[configFile])
      else s.(ConfigFile := configFile, Valid := false)
  }

  /** LoadMonitor: as LoadConfiguration for `Monitor`, except that a
      missing monitor file leaves the state valid. */
  function MonitorLoaded(s: Loader, files: map<string, Json>): (t: Loader)
    ensures t.Valid == s.Valid
    ensures t.Threw == (s.Threw || !Member(s.Control, "Monitor").JString?)
    ensures Member(s.Control, "Monitor").JString? ==>
      t.MonitorFile == NamedFile(s.ConfigurationPath, s.Control, "Monitor") &&
      (t.MonitorFile in files ==> t.Monitor == files[t.MonitorFile])
    ensures t.ControlFile == s.ControlFile && t.ConfigFile == s.ConfigFile && t.Configuration == s.Configuration
  {
    var monitor := Member(s.Control, "Monitor");
    if !monitor.JString? then s.(Threw := true)
    else
      var monitorFile := NamedFile(s.ConfigurationPath, s.Control, "Monitor");
      if monitorFile in files then s.(MonitorFile := monitorFile, Monitor := files[monitorFile])
      else s.(MonitorFile := monitorFile)
  }

  /** The settings step, then each later step only while running. */
  function LoadAll(s: Loader, files: map<string, Json>): Loader
  {
    var settings := SettingsLoaded(s, files);
    var control := if Running(settings) then ControlLoaded(settings, files) else settings;
    var configuration := if Running(control) then ConfigurationLoaded(control, files) else control;
    if Running(configuration) then MonitorLoaded(configuration, files) else configuration
  }

  /** InitializeConfiguration: remember the control file name, start
      valid, and load. */
  function Initialized(s: Loader, controlFile: string, files: map<string, Json>): Loader
  {
    LoadAll(s.(ControlFile := controlFile, Valid := true), files)
  }

  /** Loading ends valid exactly when the control file and the
      configuration file it names both exist (the monitor file does not
      matter); a missing control file stops before the configuration is
      looked at. */
  lemma LoadOutcome(s: Loader, files: map<string, Json>)
    requires Running(s)
    ensures var settings := SettingsLoaded(s, files);
      var t := LoadAll(s, files);
      !t.Threw ==>
        t.ControlFile == Located(settings.ConfigurationPath, s.ControlFile) &&
        (t.Valid <==> t.ControlFile in files && t.ConfigFile in files &&
                      t.ConfigFile == NamedFile(settings.ConfigurationPath, t.Control, "Configuration"))
    ensures var t := LoadAll(s, files);
      Running(t) ==> t.Control == files[t.ControlFile] && t.Configuration == files[t.ConfigFile]
    ensures var t := LoadAll(s, files);
      !t.Threw && t.ControlFile !in files ==> !t.Valid && t.ConfigFile == s.ConfigFile && t.Configuration == s.Configuration
  {
    var settings := SettingsLoaded(s, files);
    if Running(settings) {
      var control := ControlLoaded(settings, files);
      if Running(control) {
        var configuration := ConfigurationLoaded(control, files);
        assert configuration.Control == control.Control;
      }
    }
  }

  /** With no settings file the configuration directory keeps its initial
      empty value, so the control file is looked for at `/<name>`. */
  lemma NoSettingsFileMeansRootDirectory(controlFile: string, files: map<string, Json>)
    requires WithJsonSuffix(DefaultSettingsFile) !in files
    ensures Initialized(InitialLoader, controlFile, files).ControlFile == "/" + controlFile
  {
    var s := InitialLoader.(ControlFile := controlFile, Valid := true);
    assert SettingsLoaded(s, files).ConfigurationPath == "";
  }

  /** The default settings name already ends in `.json`. */
  lemma DefaultSettingsFileKept()
    ensures WithJsonSuffix(DefaultSettingsFile) == DefaultSettingsFile
  {
    assert DefaultSettingsFile[|DefaultSettingsFile| - 5..] == ".json";
  }

  class ConfigurationUtilities {
    var Valid: bool
    var Threw: bool
    var ConfigurationPath: string
    var SettingsFile: string
    var ControlFile: string
    var ConfigFile: string
    var MonitorFile: string
    var Settings: Json
    var Control: Json
    var Configuration: Json
    var Monitor: Json

    function State(): Loader
      reads this
    {
      Loader(Valid, Threw, ConfigurationPath, SettingsFile, ControlFile, ConfigFile, MonitorFile,
             Settings, Control, Configuration, Monitor)
    }

    constructor ()
      ensures State() == InitialLoader
    {
      Valid := false;
      Threw := false;
      ConfigurationPath := "";
      SettingsFile := DefaultSettingsFile;
      ControlFile := "";
      ConfigFile := "";
      MonitorFile := "";
      Settings := JNull;
      Control := JNull;
      Configuration := JNull;
      Monitor := JNull;
    }

    method InitializeConfiguration(controlFile: string, files: map<string, Json>) returns (valid: bool)
      modifies this
      ensures State() == Initialized(old(State()), controlFile, files) && valid == Valid
    {
      ControlFile := controlFile;
      Valid := true;
      LoadSettings(files);
      if Valid && !Threw {
        LoadControl(files);
      }
      if Valid && !Threw {
        LoadConfiguration(files);
      }
      if Valid && !Threw {
        LoadMonitor(files);
      }
      valid := Valid;
    }

    method LoadSettings(files: map<string, Json>)
      modifies this`SettingsFile, this`Settings, this`ConfigurationPath, this`Threw
      ensures State() == SettingsLoaded(old(State()), files)
    {
      SettingsFile := WithJsonSuffix(SettingsFile);
      if SettingsFile !in files {
        return;
      }
      Settings := files[SettingsFile];
      ConfigurationPath := "./";
      var path := Member(Settings, "ConfigFilePath");
      if !path.JNull? {
        if !path.JString? {
          Threw := true;
          return;
        }
        ConfigurationPath := StripQuotes(path.Text);
      }
    }

    method LoadControl(files: map<string, Json>)
      modifies this
      ensures State() == ControlLoaded(old(State()), files)
    {
      ControlFile := ConfigurationPath + "/" + ControlFile;
      if ControlFile !in files {
        Valid := false;
        return;
      }
      Control := files[ControlFile];
    }

    method LoadConfiguration(files: map<string, Json>)
      modifies this
      ensures State() == ConfigurationLoaded(old(State()), files)
    {
      var configuration := Member(Control, "Configuration");
      if !configuration.JString? {
        Threw := true;
        return;
      }
      ConfigFile := WithJsonSuffix(StripQuotes(configuration.Text));
      ConfigFile := ConfigurationPath + "/" + ConfigFile;
      if ConfigFile !in files {
        Valid := false;
        return;
      }
      Configuration := files[ConfigFile];
    }

    method LoadMonitor(files: map<string, Json>)
      modifies this
      ensures State() == MonitorLoaded(old(State()), files)
    {
      var monitor := Member(Control, "Monitor");
      if !monitor.JString? {
        Threw := true;
        return;
      }
      MonitorFile := WithJsonSuffix(StripQuotes(monitor.Text));
      MonitorFile := ConfigurationPath + "/" + MonitorFile;
      if MonitorFile !in files {
        return;
      }
      Monitor := files[MonitorFile];
    }
  }
}
