/** The start-up wrapper (include/sdk/ModelRunner.h): the command line
    names the control file, the configuration is loaded as
    ConfigurationUtilities loads it, and running reads the engine period
    and the record path from the configuration. Creating the model
    through the initializer plug-in and starting the engine are not part
    of this model. */
module ModelRunners {
  import opened Basics
  import opened Configuration

  /** An argument starting with `-` is an option. An empty argument is
      not: its first character is the terminating NUL. */
  predicate IsOption(arg: string)
  {
    |arg| > 0 && arg[0] == '-'
  }

  /** The position of the last argument that is not an option. */
  function LastControlIndex(args: seq<string>): (i: Option<nat>)
    ensures i.Some? ==> i.value < |args| && !IsOption(args[i.value])
    ensures forall j :: (i.None? || i.value < j) && 0 <= j < |args| ==> IsOption(args[j])
  {
    if args == [] then None
    else if !IsOption(args[|args| - 1]) then Some(|args| - 1)
    else LastControlIndex(args[..|args| - 1])
  }

  /** The control file name after the loop has looked at `args[1..i]`:
      the last name among them, or `start` when there is none. */
  function LastName(args: seq<string>, i: nat, start: string): string
    requires 1 <= i <= |args|
  {
    var last := LastControlIndex(args[1..i]);
    if last.Some? then args[1 + last.value] else start
  }

  /** One more argument: an option leaves the last name where it was, a
      name becomes the last one. */
  lemma LastNameStep(args: seq<string>, i: nat, start: string)
    requires 1 <= i < |args|
    ensures LastName(args, i + 1, start) == if IsOption(args[i]) then LastName(args, i, start) else args[i]
  {
    assert args[1..i + 1][..i - 1] == args[1..i];
  }

  /** ParseArgs: with at least one argument after the program name, the
      last one that is not an option becomes the control file; when there
      is such a name and it is not empty it gets its `.json` and the
      runner becomes valid. */
  function ArgumentsParsed(args: seq<string>, s: Loader): Loader
  {
    if |args| < 2 then s
    else
      var last := LastControlIndex(args[1..]);
      var controlFile := if last.Some? then args[1 + last.value] else s.ControlFile;
      if controlFile == [] then s.(ControlFile := controlFile)
      else s.(ControlFile := WithJsonSuffix(controlFile), Valid := true)
  }

  /** ArgumentsParsed in terms of the name the loop leaves behind. */
  lemma ParsedFromLastName(args: seq<string>, s: Loader)
    requires |args| >= 2
    ensures var name := LastName(args, |args|, s.ControlFile);
      ArgumentsParsed(args, s) ==
        if name == [] then s.(ControlFile := name) else s.(ControlFile := WithJsonSuffix(name), Valid := true)
  {
    assert args[1..|args|] == args[1..];
  }

  /** From the initial state the runner is valid exactly when there is an
      argument after the program name, the last non-option argument
      exists and is not empty; its name with `.json` is the control
      file. */
  lemma ParsedControlFile(args: seq<string>)
    ensures var t := ArgumentsParsed(args, InitialLoader);
      var last := if |args| >= 2 then LastControlIndex(args[1..]) else None;
      (t.Valid <==> last.Some? && args[1 + last.value] != []) &&
      (t.Valid ==> t.ControlFile == WithJsonSuffix(args[1 + last.value]) && EndsWithJson(t.ControlFile)) &&
      (!t.Valid ==> t.ControlFile == []) &&
      t.SettingsFile == InitialLoader.SettingsFile && t.Control == JNull && t.Configuration == JNull
  {
  }

  /** Options anywhere on the line leave the result alone: only the last
      name counts. */
  lemma OptionsAreSkipped(args: seq<string>, option: string)
    requires IsOption(option) && |args| >= 2
    ensures ArgumentsParsed(args + [option], InitialLoader) == ArgumentsParsed(args, InitialLoader)
  {
    var extended := args + [option];
    assert extended[1..] == args[1..] + [option];
    assert (args[1..] + [option])[..|args| - 1] == args[1..];
  }

  /** `get<int>()` of an integer: the low 32 bits, as a signed value. */
  function ToInt32(v: int): (r: int)
    ensures -0x8000_0000 <= r < 0x8000_0000
    ensures (r - v) % UIntModulus == 0
  {
    var low := v % UIntModulus;
    if low < 0x8000_0000 then low else low - UIntModulus
  }

  /** An int32 is kept. */
  lemma ToInt32Keeps(v: int)
    requires -0x8000_0000 <= v < 0x8000_0000
    ensures ToInt32(v) == v
  {
    if v < 0 {
      assert v % UIntModulus == v + UIntModulus;
    }
  }

  /** The engine period in microseconds: `Model.ModelTicks` when it is an
      integer, 1000 otherwise. */
  function EnginePeriod(configuration: Json): (ticks: int)
    ensures -0x8000_0000 <= ticks < 0x8000_0000
  {
    var modelTicks := Member(Member(configuration, "Model"), "ModelTicks");
    if modelTicks.JInteger? then ToInt32(modelTicks.Int)
    else if modelTicks.JUnsigned? then ToInt32(modelTicks.Nat)
    else 1000
  }

  /** A configured int32 period is used as it is; anything that is not an
      integer gives 1000. */
  lemma EnginePeriodChoice(configuration: Json)
    ensures var modelTicks := Member(Member(configuration, "Model"), "ModelTicks");
      (!modelTicks.JInteger? && !modelTicks.JUnsigned? ==> EnginePeriod(configuration) == 1000) &&
      (modelTicks.JInteger? && -0x8000_0000 <= modelTicks.Int < 0x8000_0000 ==> EnginePeriod(configuration) == modelTicks.Int) &&
      (modelTicks.JUnsigned? && modelTicks.Nat < 0x8000_0000 ==> EnginePeriod(configuration) == modelTicks.Nat)
  {
    var modelTicks := Member(Member(configuration, "Model"), "ModelTicks");
    if modelTicks.JInteger? && -0x8000_0000 <= modelTicks.Int < 0x8000_0000 {
      ToInt32Keeps(modelTicks.Int);
    }
    if modelTicks.JUnsigned? && modelTicks.Nat < 0x8000_0000 {
      ToInt32Keeps(modelTicks.Nat);
    }
  }

  /** ModelRunner's ComposeRecordPath: `RecordLocation` and `RecordFile`
      must both be strings (otherwise the conversion throws, here None);
      the path is their concatenation with every quote removed. */
  function RunnerRecordPath(configuration: Json): (r: Option<string>)
    ensures var postProcessing := Member(configuration, "PostProcessing");
      r.Some? <==> Member(postProcessing, "RecordLocation").JString? && Member(postProcessing, "RecordFile").JString?
    ensures r.Some? ==> '"' !in r.value
  {
    var postProcessing := Member(configuration, "PostProcessing");
    var location := Member(postProcessing, "RecordLocation");
    var file := Member(postProcessing, "RecordFile");
    if location.JString? && file.JString? then Some(StripQuotes(location.Text + file.Text)) else None
  }

  /** The record path is the location and the file name, each without
      quotes, one after the other; no `/` is put between them. */
  lemma RunnerRecordPathParts(configuration: Json)
    requires RunnerRecordPath(configuration).Some?
    ensures var postProcessing := Member(configuration, "PostProcessing");
      RunnerRecordPath(configuration).value ==
        StripQuotes(Member(postProcessing, "RecordLocation").Text) + StripQuotes(Member(postProcessing, "RecordFile").Text)
  {
    var postProcessing := Member(configuration, "PostProcessing");
    StripQuotesAppend(Member(postProcessing, "RecordLocation").Text, Member(postProcessing, "RecordFile").Text);
  }

  /** What Run does: nothing when the runner is invalid; otherwise it
      starts the engine with the period and the record path, unless
      composing the path throws. */
  datatype RunOutcome = NotValid | Started(Period: int, RecordPath: string) | Threw

  function RunResult(s: Loader): (r: RunOutcome)
    ensures r.NotValid? <==> !s.Valid
    ensures r.Started? ==> -0x8000_0000 <= r.Period < 0x8000_0000 && '"' !in r.RecordPath
  {
    if !s.Valid then NotValid
    else
      var path := RunnerRecordPath(s.Configuration);
      if path.Some? then Started(EnginePeriod(s.Configuration), path.value) else RunOutcome.Threw
  }

  class ModelRunner {
    var Valid: bool
    var Threw: bool
    var ConfigurationPath: string
    var SettingsFile: string
    var ControlFile: string
    var ConfigFile: string
    var MonitorFile: string
    var Settings: Json
    var Control: Json
    var Configuration: Json
    var Monitor: Json
    var InitializerLocation: string

    function State(): Loader
      reads this
    {
      Loader(Valid, Threw, ConfigurationPath, SettingsFile, ControlFile, ConfigFile, MonitorFile,
             Settings, Control, Configuration, Monitor)
    }

    /** Parse the command line, load the settings, then each further step
        only while valid; a valid runner finally reads
        `Execution.InitializerLocation`, which must be a string. */
    constructor (args: seq<string>, files: map<string, Json>)
      ensures var loaded := LoadAll(ArgumentsParsed(args, InitialLoader), files);
        var location := Member(Member(loaded.Configuration, "Execution"), "InitializerLocation");
        State() == loaded.(Threw := loaded.Threw || (Running(loaded) && !location.JString?)) &&
        InitializerLocation == (if Running(loaded) && location.JString? then location.Text else "")
    {
      Valid := false;
      Threw := false;
      ConfigurationPath := "";
      SettingsFile := DefaultSettingsFile;
      ControlFile := "";
      ConfigFile := "";
      MonitorFile := "";
      Settings := JNull;
      Control := JNull;
      Configuration := JNull;
      Monitor := JNull;
      InitializerLocation := "";
      new;
      assert State() == InitialLoader;
      ParseArgs(args);
      LoadFiles(files);
      ghost var loaded := State();
      if Valid && !Threw {
        ReadInitializerLocation();
      }
    }

    /** `Execution.InitializerLocation`, which must be a string. */
    method ReadInitializerLocation()
      modifies this`InitializerLocation, this`Threw
      ensures var location := Member(Member(Configuration, "Execution"), "InitializerLocation");
        Threw == (old(Threw) || !location.JString?) &&
        InitializerLocation == (if location.JString? then location.Text else old(InitializerLocation))
    {
      var location := Member(Member(Configuration, "Execution"), "InitializerLocation");
      if location.JString? {
        InitializerLocation := location.Text;
      } else {
        Threw := true;
      }
    }

    method ParseArgs(args: seq<string>)
      modifies this`ControlFile, this`Valid
      ensures State() == ArgumentsParsed(args, old(State()))
    {
      if |args| < 2 {
        return;
      }
      ghost var start := ControlFile;
      for i := 1 to |args|
        invariant ControlFile == LastName(args, i, start) && Valid == old(Valid)
      {
        LastNameStep(args, i, start);
        var arg := args[i];
        if |arg| > 0 && arg[0] == '-' {
          continue;
        }
        ControlFile := arg;
      }
      ParsedFromLastName(args, old(State()));
      if ControlFile == [] {
        return;
      }
      ControlFile := WithJsonSuffix(ControlFile);
      Valid := true;
    }

    /** The settings, then each further file only while valid. */
    method LoadFiles(files: map<string, Json>)
      modifies this
      ensures State() == LoadAll(old(State()), files) && InitializerLocation == old(InitializerLocation)
    {
      LoadSettings(files);
      if Valid && !Threw {
        LoadControl(files);
      }
      if Valid && !Threw {
        LoadConfiguration(files);
      }
      if Valid && !Threw {
        LoadMonitor(files);
      }
    }

    method LoadSettings(files: map<string, Json>)
      modifies this`SettingsFile, this`Settings, this`ConfigurationPath, this`Threw
      ensures State() == SettingsLoaded(old(State()), files) && InitializerLocation == old(InitializerLocation)
    {
      SettingsFile := WithJsonSuffix(SettingsFile);
      if SettingsFile !in files {
        return;
      }
      Settings := files[SettingsFile];
      ConfigurationPath := "./";
      var path := Member(Settings, "ConfigFilePath");
      if !path.JNull? {
        if !path.JString? {
          Threw := true;
          return;
        }
        ConfigurationPath := StripQuotes(path.Text);
      }
    }

    method LoadControl(files: map<string, Json>)
      modifies this
      ensures State() == ControlLoaded(old(State()), files) && InitializerLocation == old(InitializerLocation)
    {
      ControlFile := ConfigurationPath + "/" + ControlFile;
      if ControlFile !in files {
        Valid := false;
        return;
      }
      Control := files[ControlFile];
    }

    method LoadConfiguration(files: map<string, Json>)
      modifies this
      ensures State() == ConfigurationLoaded(old(State()), files) && InitializerLocation == old(InitializerLocation)
    {
      var configuration := Member(Control, "Configuration");
      if !configuration.JString? {
        Threw := true;
        return;
      }
      ConfigFile := WithJsonSuffix(StripQuotes(configuration.Text));
      ConfigFile := ConfigurationPath + "/" + ConfigFile;
      if ConfigFile !in files {
        Valid := false;
        return;
      }
      Configuration := files[ConfigFile];
    }

    method LoadMonitor(files: map<string, Json>)
      modifies this
      ensures State() == MonitorLoaded(old(State()), files) && InitializerLocation == old(InitializerLocation)
    {
      var monitor := Member(Control, "Monitor");
      if !monitor.JString? {
        Threw := true;
        return;
      }
      MonitorFile := WithJsonSuffix(StripQuotes(monitor.Text));
      MonitorFile := ConfigurationPath + "/" + MonitorFile;
      if MonitorFile !in files {
        return;
      }
      Monitor := files[MonitorFile];
    }

    /** Run and RunModelEngine, up to starting the engine: an invalid
        runner does nothing; a valid one reads the period, then composes
        the record path. */
    method Run() returns (outcome: RunOutcome)
      ensures outcome == RunResult(State())
    {
      if !Valid {
        return NotValid;
      }
      var modelTicks := Member(Member(Configuration, "Model"), "ModelTicks");
      var ticks := 1000;
      if modelTicks.JInteger? || modelTicks.JUnsigned? {
        ticks := ToInt32(if modelTicks.JInteger? then modelTicks.Int else modelTicks.Nat);
      }
      var path := ComposeRecordPath();
      if path.None? {
        return RunOutcome.Threw;
      }
      outcome := Started(ticks, path.value);
    }

    method ComposeRecordPath() returns (path: Option<string>)
      ensures path == RunnerRecordPath(Configuration)
    {
      var location := Member(Member(Configuration, "PostProcessing"), "RecordLocation");
      var file := Member(Member(Configuration, "PostProcessing"), "RecordFile");
      if !location.JString? || !file.JString? {
        return None;
      }
      var recordPath := location.Text + file.Text;
      path := Some(StripQuotes(recordPath));
    }
  }
}
