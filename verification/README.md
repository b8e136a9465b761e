# Expert language server: install/update decision and startup selection

This project models in Dafny the part of the Expert VS Code extension that decides
which language-server executable to run. The model has three parts.

- **Platform resolution** (`Platform`, `src/platform.ts`). The host identifiers
  (`os.platform()`, `os.arch()`) are rewritten to the aliases the release pipeline
  uses: `win32` becomes `windows` and `x64` becomes `amd64`. The expected asset name
  is `expert_<platform>_<arch>`. Both are pure functions of the two host
  identifiers, so repeated calls give the same result.
- **Nightly install/update orchestration** (`Installation`, `src/installation.ts`).
  `checkAndInstall` reads the persisted manifest, fetches the `nightly` release and
  ends in one of these outcomes:
  - fresh install;
  - reuse of the installed executable, when the manifest is strictly newer;
  - update install;
  - "no distribution for your platform";
  - fall back to the installed path when the check throws while a manifest exists.

  The manifest store, the fetched release and the success of the download are
  inputs. Each effect is an `Event` in the outcome, in order: file written,
  manifest stored, update notification, "no distribution" error.
- **Startup selection** (`Extension` over `JsBuiltins`, `src/extension.ts`). This
  covers the startup flags (`split(/\s+/).filter(Boolean)`), the `--port` argument
  (`indexOf` and `Number.parseInt(…, 10)`), and the choice between TCP mode, the
  release-path override and the auto-installed server, in that order. It also
  covers the early exit of `activate` when the server is disabled, and its failure
  when no workspace folder is open.
  `JsBuiltins` gives the JavaScript built-ins the exact semantics the code relies
  on, including the full `\s` character set.

## Model

| member | source | states |
|---|---|---|
| Platform.GetPlatformInfo | src/platform.ts:37-46 | "win32" becomes "windows" and "x64" becomes "amd64"; every other identifier passes through unchanged; the result never holds "win32" or "x64" |
| Platform.NormalizeIdempotent | src/platform.ts:37-46 | normalising a normalised pair gives the same pair |
| Platform.CanonicalIsFixedPoint | src/platform.ts:42-43 | a pair is left unchanged by normalisation exactly when it holds neither "win32" nor "x64" |
| Platform.ExpectedAssetName | src/platform.ts:51-54 | the expected name is "expert_", the normalised platform, "_" and the normalised arch |
| Platform.AliasesShareAssetName | src/platform.ts:51-54 | "win32"/"windows" and "x64"/"amd64" give the same expected name, and a host's name equals the name of its normalised pair |
| Installation.DistributionPrefix | src/installation.ts:133-140 | the prefix built by findDistribution's inline alias rewriting is `expert_` followed by the platform resolver's normalised pair |
| Installation.DistributionTarget | src/installation.ts:140-146 | the pair named in the "no distribution" error, after `expert_`, is exactly the prefix that was searched for |
| Installation.PrefixIsExpectedAssetName | src/installation.ts:133-140 | the prefix built by findDistribution's own alias rewriting equals getExpectedAssetName for the same host |
| Installation.SelectedAssetHasExpectedName | src/installation.ts:132-151 | the expected asset name is a prefix of the name of any asset findDistribution selects |
| Installation.FirstWithPrefix | src/installation.ts:140 | `find` returns the first position whose name has the prefix; no earlier position has it; None only when no position from the start has it |
| Installation.FindDistribution | src/installation.ts:132-151 | the result is a member of the release's assets with the host's prefix and no earlier asset has the prefix; the result is None exactly when no asset has the prefix |
| Installation.JoinPathLastSegment | src/installation.ts:162-167 | for a name without "/", the last segment of the install path is the asset name |
| Installation.MustInstallLatest | src/installation.ts:73-94 | without a manifest: it throws exactly when the fetch fails or the download of a matching asset fails, and an exception leaves no effects and no manifest; a stored manifest comes exactly with the write of its own asset file followed by the manifest write; the resulting store is the replay of the recorded events over an empty store, and the events form a well-formed trace |
| Installation.CompareAndInstall | src/installation.ts:97-130 | with a manifest: an exception leaves no effects and the manifest unchanged; a manifest is always present afterwards; replacing it always fires the update notification; the resulting store is the replay of the recorded events over the previous manifest, and the events form a well-formed trace |
| Installation.CheckAndInstall | src/installation.ts:49-70 | the store afterwards is the old store with the recorded manifest writes applied; at most one file write, at most one manifest write and at most one notification of any kind (update or "no distribution"); a manifest is stored only right after its own asset file is written; a returned path always points at the stored manifest's asset; only the no-manifest path throws, and with a manifest the result is always a return; with a manifest and a failed fetch the result is the installed path with no effects; no update notification on a fresh install |
| Installation.FreshInstall | src/installation.ts:73-94 | with no manifest and a matching asset, the asset is written, the manifest {asset name, tag, asset time, release time} is stored, the path storageDir/asset.name is returned, and no update notification fires |
| Installation.FreshInstallUnsupported | src/installation.ts:76-80 | with no manifest and no matching asset, the result is undefined, the store stays empty and only the "no distribution" error is shown |
| Installation.UpToDate | src/installation.ts:102-108 | a manifest whose release time is strictly later than the release's is kept, its path is returned, and nothing is downloaded |
| Installation.UpdateInstall | src/installation.ts:110-129 | a manifest that is not strictly newer (equal times included) with a matching asset: write, manifest overwrite with the new release's fields, exactly one update notification, new path returned |
| Installation.UpdateUnsupported | src/installation.ts:110-114 | a manifest that is not strictly newer and no matching asset: undefined, manifest unchanged, no download |
| Installation.FallbackOnFetchError | src/installation.ts:60-69 | with a manifest, a failing fetch returns storageDir/manifest.name, leaves the manifest unchanged and has no effects |
| Installation.FallbackOnDownloadError | src/installation.ts:60-69 | with a manifest that is not strictly newer and a matching asset, a failing download returns storageDir/manifest.name, leaves the manifest unchanged and has no effects |
| Installation.FreshInstallFetchFailure | src/installation.ts:52-56 | without a manifest, a failing fetch propagates as an exception with no effects |
| Installation.FreshInstallDownloadFailure | src/installation.ts:73-83 | without a manifest, a failing download of the matching asset propagates out of checkAndInstall as an exception with no effects and no manifest |
| Installation.StoreChangesOnlyWithDownload | src/installation.ts:82-91 | the manifest store changes only in an invocation that wrote an asset file |
| Installation.StoredNameIsLastSegment | src/installation.ts:116-129 | when asset names hold no "/", the stored manifest's name is the last segment of the returned path |
| JsBuiltins.IndexOf | src/extension.ts:122 | `indexOf` returns -1 exactly when the element is absent, and otherwise the position of its first occurrence |
| JsBuiltins.SplitOnWhitespace | src/extension.ts:118 | `split(/\s+/)` gives at least one piece, each free of whitespace; the first piece is a prefix of the string; a whitespace-free string (`""` included) is one piece; leading (trailing) whitespace gives an empty first (last) piece |
| JsBuiltins.SplitWordRun | src/extension.ts:118 | `split(/\s+/)` breaks exactly at a maximal whitespace run: a whitespace-free word, a non-empty run, then text not starting with whitespace split into the word followed by the pieces of that text |
| JsBuiltins.DropEmpty | src/extension.ts:118 | `filter(Boolean)` keeps only non-empty input strings, keeps every non-empty input string, never lengthens the list, and leaves a list without empty strings unchanged |
| JsBuiltins.DropEmptyAppend | src/extension.ts:118 | `filter(Boolean)` works element by element: filtering a concatenation is the concatenation of the filtered parts, and one string is kept exactly when it is non-empty, so order and multiplicity are preserved |
| JsBuiltins.Tokens | src/extension.ts:118 | every token is non-empty and whitespace-free, and the tokens, concatenated, are exactly the non-whitespace characters of the flags string, in order |
| JsBuiltins.ParseInt | src/extension.ts:124 | a number is parsed only if a digit occurs; a string starting with a digit gives a non-negative number; a string starting with a character that is not whitespace, a sign or a digit gives NaN |
| JsBuiltins.TokensInterleaveRoundTrip | src/extension.ts:118 | well-formed tokens separated by any whitespace runs (optional at the ends, non-empty between tokens) tokenise to exactly those tokens |
| JsBuiltins.ParseIntOfDigits | src/extension.ts:124 | white space, an optional "+" or "-", a digit run and text that does not continue the run parse to the run's decimal value, negated after "-" |
| JsBuiltins.ParseIntNoDigitAfterSign | src/extension.ts:124 | when no digit follows the white space and the optional sign (a second sign, white space after the sign, or any other character), the result is NaN |
| JsBuiltins.ParseIntOfIntToString | src/extension.ts:124 | parseInt reads back the decimal form of every integer, whatever non-digit text follows |
| JsBuiltins.ParseIntWithoutDigits | src/extension.ts:124-125 | a string with no digit parses to NaN, which becomes undefined |
| Extension.StartupArgs | src/extension.ts:114-119 | every argument is non-empty and holds no whitespace; an override that is absent, not a string or empty gives ["--stdio"]; otherwise the arguments keep all non-whitespace characters of the override, in order |
| Extension.BlankFlagsGiveNoArgs | src/extension.ts:116-118 | a non-empty all-whitespace override gives [] and not ["--stdio"] |
| Extension.FlagsRoundTrip | src/extension.ts:114-119 | a non-empty list of flags separated by any whitespace runs comes back as exactly the same argument list |
| Extension.DebugVerboseFlags | src/test/extension.test.ts:115-131 | "--debug --verbose" gives ["--debug", "--verbose"] |
| Extension.ParsePortFromArgs | src/extension.ts:121-128 | undefined without "--port"; at the first "--port", undefined when it is the last argument and otherwise parseInt of the next argument |
| Extension.PortRoundTrip | src/extension.ts:121-128 | when the first "--port" is followed by the decimal form of an integer, the port is that integer |
| Extension.ServerStartupOptions | src/extension.ts:131-163 | a parsed port selects TCP to 127.0.0.1 and no install; otherwise a non-empty override is the command with the same args and no install; otherwise checkAndInstall runs, its exception rejects, its undefined result gives no options, and its path is the command with the startup args |
| Extension.Activate | src/extension.ts:21-60 | activation is disabled exactly when the enabled setting is false, and then nothing is installed and the store is unchanged; otherwise the installer's store is kept whenever it ran; a client is created exactly when a workspace folder is open and startup options resolve to a value, and it is started with exactly those options; activation fails exactly when the installer threw or no workspace folder is open |
| Extension.NoWorkspaceFailsAfterInstall | src/configuration.ts:23-35 | without a workspace folder, `getProjectDirUri` throws after the installer already ran, so activation fails with the installer's manifest stored |
| Extension.TcpSkipsInstall | src/extension.ts:137-146 | with a parsed port and a workspace folder open, the client uses TCP, the installer does not run and the store is unchanged |

## Left out

- Network and filesystem I/O are not modelled. This covers the release request (`fetchNightlyRelease`, src/github.ts), the asset download, `writeFileSync`/`chmodSync` and `ensureDirectoryExists`. The release is an input (`Fetched` or `FetchFailed`). A download either succeeds or throws before anything is written. A release body without an asset list is treated as a failed fetch.
- A download that writes the file and then fails in `chmodSync` is not modelled: such a download is treated as one that throws before writing.
- A failing `globalState.update` is not modelled: storing the manifest always succeeds.
- Date parsing is not modelled: timestamps are integers. An invalid date (`NaN`, which makes the `>` comparison false and forces a re-download) and `Date` values coming back as strings from persisted state are outside the model.
- `Uri.joinPath(...).fsPath` is modelled as `dir + "/" + name`. Windows path separators are not modelled.
- Notification texts and the "Disable this notification" action are not modelled; notifications are recorded as events only. The `notifyOnServerAutoUpdate` setting is never consulted before the update notification in src/installation.ts, so the model fires the notification unconditionally, as the code does.
- `JsBuiltins.ParseInt`: integers only. It does not model the loss of precision beyond 2^53, and it models `-0` as 0.
- The getter `Configuration.getReleasePathOverride` called at src/extension.ts:148 is not defined in src/configuration.ts. The override is therefore a `Setting` input. src/configuration.ts defines `getStartCommandOverride`.
- `checkForUpdates`, imported at src/extension.ts:12, is not defined in src/installation.ts and is not modelled.
- Authentication (src/auth.ts), command registration (src/commands.ts), starting and stopping the `LanguageClient`, `deactivate`, and the TCP socket are not modelled. A created client is the `ClientStarted` result.
- Release channels other than nightly, version ordering, checksum verification and retry are not modelled: there is no code for them in the modelled files.
