/**
 Server startup selection: the startup flags, the `--port` argument, and the choice
 between a TCP connection, a configured command, and the auto-installed server; plus
 the early exit of activation when the server is disabled.
 */
module Extension {
  import opened Wrappers
  import JsBuiltins
  import Installation

  /** A configuration value: unset, or a JSON value of some type (the getters do not check). */
  datatype Setting = Unset | Text(text: string) | Flag(flag: bool) | OtherValue

  /** `typeof v === "string" && v.length > 0`. */
  predicate IsNonEmptyText(v: Setting) {
    v.Text? && |v.text| > 0
  }

  /** The settings startup reads. */
  datatype Config = Config(enabled: Setting, startupFlagsOverride: Setting, releasePathOverride: Setting)

  /** How the language client reaches the server. */
  datatype ServerOptions =
    | Tcp(host: string, port: int)                  // connect to an externally started server
    | Command(command: string, args: seq<string>)   // spawn the executable with arguments

  /** `getStartupArgs`: the configured flags (or "--stdio"), split on whitespace runs. */
  function StartupArgs(flagsOverride: Setting): (args: seq<string>)
    ensures forall a :: a in args ==> a != [] && JsBuiltins.WhitespaceFree(a)
    ensures !IsNonEmptyText(flagsOverride) ==> args == ["--stdio"]
    ensures IsNonEmptyText(flagsOverride) ==>
              JsBuiltins.Concat(args) == JsBuiltins.RemoveWhitespace(flagsOverride.text)
  {
    if IsNonEmptyText(flagsOverride) then
      JsBuiltins.Tokens(flagsOverride.text)
    else
      JsBuiltins.TokensOfWord("--stdio");
      JsBuiltins.Tokens("--stdio")
  }

  /**
   `parsePortFromArgs`: `parseInt` of the argument after the first "--port";
   `None` when there is no "--port", it is the last argument, or nothing parses.
   */
  function ParsePortFromArgs(args: seq<string>): (port: Option<int>)
    ensures "--port" !in args ==> port.None?
    ensures forall i :: 0 <= i < |args| && args[i] == "--port" && "--port" !in args[..i] ==>
              port == (if i + 1 < |args| then JsBuiltins.ParseInt(args[i + 1]) else None)
  {
    var portIndex := JsBuiltins.IndexOf(args, "--port");
    if portIndex != -1 && portIndex + 1 < |args| then JsBuiltins.ParseInt(args[portIndex + 1])
    else None
  }

  /** Whatever precedes it, the first "--port" followed by a decimal integer yields that integer. */
  lemma PortRoundTrip(before: seq<string>, port: int, after: seq<string>)
    requires "--port" !in before
    ensures ParsePortFromArgs(before + ["--port", JsBuiltins.IntToString(port)] + after) == Some(port)
  {
    var args := before + ["--port", JsBuiltins.IntToString(port)] + after;
    var i := |before|;
    assert args[i] == "--port" && args[..i] == before;
    JsBuiltins.ParseIntOfIntToString(port, []);
    assert JsBuiltins.IntToString(port) + [] == JsBuiltins.IntToString(port);
    assert args[i + 1] == JsBuiltins.IntToString(port);
  }

  /** What `getServerStartupOptions` resolves to: options, none, or an exception from the installer. */
  datatype StartupResult = Resolved(options: Option<ServerOptions>) | Rejected

  /** The startup result together with the installer's outcome, when the installer ran. */
  datatype Startup = Startup(result: StartupResult, install: Option<Installation.Outcome>)

  /**
   `getServerStartupOptions`: a parsed port selects TCP to 127.0.0.1 without installing;
   otherwise a non-empty release-path override is the command; otherwise the installed
   server is the command, and no path means no options.
   */
  function ServerStartupOptions(config: Config, env: Installation.Env, store: Option<Installation.Manifest>)
    : (s: Startup)
    ensures var args := StartupArgs(config.startupFlagsOverride);
            var port := ParsePortFromArgs(args);
            && (port.Some? ==> s == Startup(Resolved(Some(Tcp("127.0.0.1", port.value))), None))
            && (port.None? && IsNonEmptyText(config.releasePathOverride) ==>
                  s == Startup(Resolved(Some(Command(config.releasePathOverride.text, args))), None))
    ensures s.install.Some? <==>
              ParsePortFromArgs(StartupArgs(config.startupFlagsOverride)).None? &&
              !IsNonEmptyText(config.releasePathOverride)
    ensures s.install.Some? ==> s.install.value == Installation.CheckAndInstall(env, store)
    ensures s.result.Rejected? <==> s.install.Some? && s.install.value.completion.Threw?
    ensures s.result == Resolved(None) <==> s.install.Some? && s.install.value.completion == Installation.Returned(None)
    ensures s.install.Some? && s.install.value.completion.Returned? && s.install.value.completion.path.Some? ==>
              s.result == Resolved(Some(Command(s.install.value.completion.path.value, StartupArgs(config.startupFlagsOverride))))
  {
    var args := StartupArgs(config.startupFlagsOverride);
    var port := ParsePortFromArgs(args);
    if port.Some? then
      Startup(Resolved(Some(Tcp("127.0.0.1", port.value))), None)
    else if IsNonEmptyText(config.releasePathOverride) then
      Startup(Resolved(Some(Command(config.releasePathOverride.text, args))), None)
    else
      var o := Installation.CheckAndInstall(env, store);
      match o.completion
      case Threw => Startup(Rejected, Some(o))
      case Returned(None) => Startup(Resolved(None), Some(o))
      case Returned(Some(path)) => Startup(Resolved(Some(Command(path, args))), Some(o))
  }

  /** How `activate` ends. */
  datatype ActivationResult =
    | Disabled                                 // the server is switched off: nothing else happens
    | ClientStarted(options: ServerOptions)    // a language client is created with these options
    | NotStarted                               // no startup options: no client
    | ActivationFailed                         // the installer or the project-directory lookup threw

  /** The end of activation and the manifest store it leaves behind. */
  datatype Activation = Activation(result: ActivationResult, store: Option<Installation.Manifest>, installRan: bool)

  /**
   `activate`, reduced to the decisions above: disabled exit, startup options, the
   project-directory lookup, client creation. `workspaceOpen` says whether the window
   has a workspace folder; without one, `getProjectDirUri` throws after the startup
   options (and so the installer) have already run.
   */
  function Activate(config: Config, workspaceOpen: bool, env: Installation.Env, store: Option<Installation.Manifest>)
    : (a: Activation)
    ensures a.result.Disabled? <==> config.enabled == Flag(false)
    ensures a.result.Disabled? ==> a.store == store && !a.installRan
    ensures a.store != store ==> a.installRan
    ensures !a.result.Disabled? ==>
              var s := ServerStartupOptions(config, env, store);
              && a.installRan == s.install.Some?
              && (s.install.Some? ==> a.store == s.install.value.store)
    ensures a.result.ClientStarted? <==>
              config.enabled != Flag(false) && workspaceOpen &&
              ServerStartupOptions(config, env, store).result.Resolved? &&
              ServerStartupOptions(config, env, store).result.options.Some?
    ensures a.result.ClientStarted? ==> ServerStartupOptions(config, env, store).result == Resolved(Some(a.result.options))
    ensures a.result.ActivationFailed? <==>
              config.enabled != Flag(false) &&
              (!workspaceOpen || ServerStartupOptions(config, env, store).result.Rejected?)
  {
    if config.enabled == Flag(false) then Activation(Disabled, store, false)
    else
      var s := ServerStartupOptions(config, env, store);
      var after := if s.install.Some? then s.install.value.store else store;
      match s.result
      case Rejected => Activation(ActivationFailed, after, s.install.Some?)
      case Resolved(options) =>
        if !workspaceOpen then Activation(ActivationFailed, after, s.install.Some?)
        else if options.None? then Activation(NotStarted, after, s.install.Some?)
        else Activation(ClientStarted(options.value), after, s.install.Some?)
  }

  /**
   Without a workspace folder, activation fails, but only after the installer ran and
   left its manifest in the store.
   */
  lemma NoWorkspaceFailsAfterInstall(config: Config, env: Installation.Env, store: Option<Installation.Manifest>)
    requires config.enabled != Flag(false)
    requires ParsePortFromArgs(StartupArgs(config.startupFlagsOverride)).None?
    requires !IsNonEmptyText(config.releasePathOverride)
    ensures var a := Activate(config, false, env, store);
            && a.result == ActivationFailed
            && a.installRan
            && a.store == Installation.CheckAndInstall(env, store).store
  {
  }

  /** An all-whitespace, non-empty flags override yields no arguments at all, not "--stdio". */
  lemma BlankFlagsGiveNoArgs(flags: string)
    requires |flags| > 0 && JsBuiltins.AllWhitespace(flags)
    ensures StartupArgs(Text(flags)) == []
  {
    JsBuiltins.TokensOfBlank(flags);
  }

  /**
   Flags separated by any whitespace runs (optional at both ends, non-empty between two
   flags) come back as exactly the same list of arguments.
   */
  lemma FlagsRoundTrip(seps: seq<string>, flags: seq<string>)
    requires |flags| > 0 && JsBuiltins.WellFormedTokens(flags)
    requires JsBuiltins.Separators(seps, |flags|)
    ensures StartupArgs(Text(JsBuiltins.Interleave(seps, flags))) == flags
  {
    JsBuiltins.TokensInterleaveRoundTrip(seps, flags);
  }

  /** "--debug --verbose" splits into its two flags. */
  lemma DebugVerboseFlags()
    ensures StartupArgs(Text("--debug --verbose")) == ["--debug", "--verbose"]
  {
    var flags := ["--debug", "--verbose"];
    var seps := ["", " ", ""];
    assert JsBuiltins.Interleave(seps, flags) == "--debug --verbose";
    FlagsRoundTrip(seps, flags);
  }

  /** With a parsed port and a workspace folder, the installer never runs and the store is untouched. */
  lemma TcpSkipsInstall(config: Config, env: Installation.Env, store: Option<Installation.Manifest>)
    requires config.enabled != Flag(false)
    requires ParsePortFromArgs(StartupArgs(config.startupFlagsOverride)).Some?
    ensures var a := Activate(config, true, env, store);
            a.result.ClientStarted? && a.result.options.Tcp? && !a.installRan && a.store == store
  {
  }
}
