/**
 The nightly install/update decision of `checkAndInstall`.

 The persisted manifest store, the fetched nightly release and the outcome of the
 download are explicit inputs; the effects the code performs (writing the
 distribution file, storing the manifest, showing a notification) are recorded,
 in order, as events of the outcome. Timestamps are integers (milliseconds).
 */
module Installation {
  import opened Wrappers
  import Platform

  /** One downloadable file attached to a release. */
  datatype Asset = Asset(name: string, url: string, updatedAt: int)

  /** The nightly release as returned by the release API. */
  datatype Release = Release(tagName: string, updatedAt: int, assets: seq<Asset>)

  /** What is persisted under the "install_manifest" key between restarts. */
  datatype Manifest = Manifest(name: string, version: string, assetTimestamp: int, releaseTimestamp: int)

  /** The raw host identifiers, as `os.platform()` and `os.arch()` report them. */
  datatype Host = Host(osPlatform: string, osArch: string)

  /** The result of fetching the nightly release: the release, or an exception. */
  datatype Fetch = Fetched(release: Release) | FetchFailed

  /**
   Everything `checkAndInstall` learns from outside: the extension's storage directory,
   the host, the nightly release fetch, and whether downloading an asset succeeds
   (when it does not, `download` throws before writing anything).
   */
  datatype Env = Env(storageDir: string, host: Host, nightly: Fetch, downloadSucceeds: bool)

  /** An observable effect of one invocation. */
  datatype Event =
    | FileWritten(path: string)               // the distribution is written and made executable
    | ManifestStored(manifest: Manifest)      // the manifest store is overwritten
    | UpdateNotified                          // the "automatically updated" notification
    | NoDistributionNotified(target: string)  // the "no distribution for your platform" error

  /** A message shown to the user: the update notice or the "no distribution" error. */
  predicate IsNotification(e: Event) {
    e.UpdateNotified? || e.NoDistributionNotified?
  }

  /** How an invocation ends: it returns an install path (or `undefined`), or it throws. */
  datatype Completion = Returned(path: Option<string>) | Threw

  /** The completion, the effects in the order they happen, and the manifest store afterwards. */
  datatype Outcome = Outcome(completion: Completion, events: seq<Event>, store: Option<Manifest>)

  /** `Uri.joinPath(storage, name).fsPath`, with "/" as the separator. */
  function JoinPath(dir: string, name: string): string {
    dir + "/" + name
  }

  /** The part of `path` after its last "/" (all of it when there is none). */
  function LastSegment(path: string): string
    decreases |path|
  {
    if path == [] then []
    else if path[|path| - 1] == '/' then []
    else LastSegment(path[..|path| - 1]) + [path[|path| - 1]]
  }

  /** The path returned for an asset names that asset as its last segment. */
  lemma JoinPathLastSegment(dir: string, name: string)
    requires '/' !in name
    ensures LastSegment(JoinPath(dir, name)) == name
  {
    LastSegmentAfterSlash(dir + "/", name);
  }

  lemma {:induction false} LastSegmentAfterSlash(prefix: string, name: string)
    requires |prefix| > 0 && prefix[|prefix| - 1] == '/'
    requires '/' !in name
    ensures LastSegment(prefix + name) == name
    decreases |name|
  {
    var p := prefix + name;
    if name == [] {
      assert p == prefix;
    } else {
      var init := name[..|name| - 1];
      assert p[..|p| - 1] == prefix + init;
      assert p[|p| - 1] == name[|name| - 1];
      assert name[|name| - 1] in name;
      assert forall c :: c in init ==> c in name;
      LastSegmentAfterSlash(prefix, init);
      assert init + [name[|name| - 1]] == name;
    }
  }

  /**
   The asset-name prefix `findDistribution` searches for, built with its own copy of
   the alias rewriting (not through the platform resolver).
   */
  function DistributionPrefix(host: Host): (prefix: string)
    ensures prefix == Platform.AssetName(Platform.GetPlatformInfo(host.osPlatform, host.osArch))
  {
    var platform := if host.osPlatform == "win32" then "windows" else host.osPlatform;
    var arch := if host.osArch == "x64" then "amd64" else host.osArch;
    "expert_" + platform + "_" + arch
  }

  /** The "platform_arch" pair named in the "no distribution" error: the pair that was searched for. */
  function DistributionTarget(host: Host): (target: string)
    ensures "expert_" + target == DistributionPrefix(host)
  {
    var info := Platform.GetPlatformInfo(host.osPlatform, host.osArch);
    info.platform + "_" + info.arch
  }

  /** The prefix `findDistribution` uses is the expected asset name of the platform resolver. */
  lemma PrefixIsExpectedAssetName(host: Host)
    ensures DistributionPrefix(host) == Platform.ExpectedAssetName(host.osPlatform, host.osArch)
  {
  }

  /** Any asset `findDistribution` selects carries the platform resolver's expected asset name. */
  lemma SelectedAssetHasExpectedName(release: Release, host: Host, asset: Asset)
    requires FindDistribution(release, host) == Some(asset)
    ensures Platform.ExpectedAssetName(host.osPlatform, host.osArch) <= asset.name
  {
    PrefixIsExpectedAssetName(host);
  }

  predicate HasPrefix(asset: Asset, prefix: string) {
    prefix <= asset.name
  }

  /** `assets.find(a => a.name.startsWith(prefix))`, as a position, from position `from` on. */
  function FirstWithPrefix(assets: seq<Asset>, prefix: string, from: nat): (r: Option<nat>)
    requires from <= |assets|
    ensures r.Some? ==> from <= r.value < |assets| && HasPrefix(assets[r.value], prefix)
    ensures r.Some? ==> forall j :: from <= j < r.value ==> !HasPrefix(assets[j], prefix)
    ensures r.None? ==> forall j :: from <= j < |assets| ==> !HasPrefix(assets[j], prefix)
    decreases |assets| - from
  {
    if from == |assets| then None
    else if HasPrefix(assets[from], prefix) then Some(from)
    else FirstWithPrefix(assets, prefix, from + 1)
  }

  /**
   `findDistribution`: the first asset of the release, in list order, whose name starts
   with the host's expected asset name; `None` when no asset does.
   */
  function FindDistribution(release: Release, host: Host): (r: Option<Asset>)
    ensures r.Some? ==> r.value in release.assets && HasPrefix(r.value, DistributionPrefix(host))
    ensures r.Some? ==> exists k :: (0 <= k < |release.assets| && release.assets[k] == r.value &&
              forall j :: 0 <= j < k ==> !HasPrefix(release.assets[j], DistributionPrefix(host)))
    ensures r.None? <==> forall a :: a in release.assets ==> !HasPrefix(a, DistributionPrefix(host))
  {
    match FirstWithPrefix(release.assets, DistributionPrefix(host), 0)
    case None => None
    case Some(k) => Some(release.assets[k])
  }

  /** The error event `findDistribution` emits when nothing matches. */
  function NoDistributionNotice(host: Host): Event {
    NoDistributionNotified(DistributionTarget(host))
  }

  /** The manifest recorded for an asset installed from a release. */
  function ManifestFor(release: Release, asset: Asset): Manifest {
    Manifest(asset.name, release.tagName, asset.updatedAt, release.updatedAt)
  }

  /** `mustInstallLatest`: there is no manifest; install the nightly asset for this host. */
  function MustInstallLatest(env: Env): (o: Outcome)
    ensures o.completion.Threw? ==> o.events == [] && o.store.None?
    ensures o.completion.Threw? <==>
              env.nightly.FetchFailed? ||
              (FindDistribution(env.nightly.release, env.host).Some? && !env.downloadSucceeds)
    ensures o.store.Some? ==>
              o.events == [FileWritten(JoinPath(env.storageDir, o.store.value.name)), ManifestStored(o.store.value)]
    ensures o.store.None? ==> forall e :: e in o.events ==> !e.FileWritten? && !e.ManifestStored?
    ensures o.store == Replay(None, o.events)
    ensures WellFormedTrace(env.storageDir, o.events)
  {
    match env.nightly
    case FetchFailed => Outcome(Threw, [], None)
    case Fetched(release) =>
      match FindDistribution(release, env.host)
      case None =>
        NoticeTrace(env.storageDir, DistributionTarget(env.host), None);
        Outcome(Returned(None), [NoDistributionNotice(env.host)], None)
      case Some(asset) =>
        if !env.downloadSucceeds then Outcome(Threw, [], None)
        else
          var path := JoinPath(env.storageDir, asset.name);
          var manifest := ManifestFor(release, asset);
          DownloadTrace(env.storageDir, manifest, None);
          Outcome(Returned(Some(path)), [FileWritten(path), ManifestStored(manifest)], Some(manifest))
  }

  /**
   `compareAndInstall`: there is a manifest; keep it if it is strictly newer than the
   nightly release, otherwise install the nightly asset for this host over it.
   */
  function CompareAndInstall(env: Env, manifest: Manifest): (o: Outcome)
    ensures o.completion.Threw? ==> o.events == [] && o.store == Some(manifest)
    ensures o.store.Some?
    ensures o.store != Some(manifest) ==> UpdateNotified in o.events
    ensures o.store == Replay(Some(manifest), o.events)
    ensures WellFormedTrace(env.storageDir, o.events)
  {
    match env.nightly
    case FetchFailed => Outcome(Threw, [], Some(manifest))
    case Fetched(release) =>
      if manifest.releaseTimestamp > release.updatedAt then
        Outcome(Returned(Some(JoinPath(env.storageDir, manifest.name))), [], Some(manifest))
      else
        match FindDistribution(release, env.host)
        case None =>
          NoticeTrace(env.storageDir, DistributionTarget(env.host), Some(manifest));
          Outcome(Returned(None), [NoDistributionNotice(env.host)], Some(manifest))
        case Some(asset) =>
          if !env.downloadSucceeds then Outcome(Threw, [], Some(manifest))
          else
            var path := JoinPath(env.storageDir, asset.name);
            var updated := ManifestFor(release, asset);
            UpdateTrace(env.storageDir, updated, Some(manifest));
            Outcome(Returned(Some(path)), [FileWritten(path), ManifestStored(updated), UpdateNotified], Some(updated))
  }

  /** The manifest store after applying the recorded effects to `store`. */
  function Replay(store: Option<Manifest>, events: seq<Event>): Option<Manifest>
    decreases |events|
  {
    if events == [] then store
    else
      var last := events[|events| - 1];
      if last.ManifestStored? then Some(last.manifest) else Replay(store, events[..|events| - 1])
  }

  /**
   The per-invocation discipline: at most one file write, at most one manifest write,
   at most one notification of any kind (update or "no distribution"); a manifest is
   stored only right after its own asset was written, and the update notification
   only right after a manifest.
   */
  predicate WellFormedTrace(dir: string, events: seq<Event>) {
    && (forall i, j :: 0 <= i < j < |events| ==> !(events[i].FileWritten? && events[j].FileWritten?))
    && (forall i, j :: 0 <= i < j < |events| ==> !(events[i].ManifestStored? && events[j].ManifestStored?))
    && (forall i, j :: 0 <= i < j < |events| ==> !(IsNotification(events[i]) && IsNotification(events[j])))
    && (forall i :: 0 <= i < |events| && events[i].ManifestStored? ==>
          0 < i && events[i - 1] == FileWritten(JoinPath(dir, events[i].manifest.name)))
    && (forall i :: 0 <= i < |events| && events[i].UpdateNotified? ==> 0 < i && events[i - 1].ManifestStored?)
  }

  /** A lone "no distribution" error is a well-formed trace that leaves the store alone. */
  lemma NoticeTrace(dir: string, target: string, store: Option<Manifest>)
    ensures var events := [NoDistributionNotified(target)];
            WellFormedTrace(dir, events) && Replay(store, events) == store
  {
    var events := [NoDistributionNotified(target)];
    assert events[..0] == [];
  }

  /** Writing an asset and then its manifest is a well-formed trace that stores the manifest. */
  lemma DownloadTrace(dir: string, m: Manifest, store: Option<Manifest>)
    ensures var events := [FileWritten(JoinPath(dir, m.name)), ManifestStored(m)];
            WellFormedTrace(dir, events) && Replay(store, events) == Some(m)
  {
  }

  /** Writing an asset, its manifest and the update notice is a well-formed trace that stores the manifest. */
  lemma UpdateTrace(dir: string, m: Manifest, store: Option<Manifest>)
    ensures var events := [FileWritten(JoinPath(dir, m.name)), ManifestStored(m), UpdateNotified];
            WellFormedTrace(dir, events) && Replay(store, events) == Some(m)
  {
    var events := [FileWritten(JoinPath(dir, m.name)), ManifestStored(m), UpdateNotified];
    assert events[..2] == [FileWritten(JoinPath(dir, m.name)), ManifestStored(m)];
  }

  /**
   `checkAndInstall`: install when there is no manifest (exceptions propagate);
   otherwise compare and install, and on any exception fall back to the installed path.
   */
  function CheckAndInstall(env: Env, store: Option<Manifest>): (o: Outcome)
    ensures o.store == Replay(store, o.events)
    ensures WellFormedTrace(env.storageDir, o.events)
    ensures o.completion.Returned? && o.completion.path.Some? ==>
              o.store.Some? && o.completion.path.value == JoinPath(env.storageDir, o.store.value.name)
    ensures o.completion.Threw? ==> store.None? && o.store.None? && o.events == []
    ensures UpdateNotified in o.events ==> store.Some?
    ensures store.Some? ==> o.completion.Returned?
    ensures store.Some? && env.nightly.FetchFailed? ==>
              o == Outcome(Returned(Some(JoinPath(env.storageDir, store.value.name))), [], store)
  {
    match store
    case None => MustInstallLatest(env)
    case Some(manifest) =>
      var o := CompareAndInstall(env, manifest);
      if o.completion.Threw? then
        Outcome(Returned(Some(JoinPath(env.storageDir, manifest.name))), o.events, o.store)
      else o
  }

  // ---------------------------------------------------------------------------
  // The outcomes, one scenario at a time.

  /** No manifest and a matching asset: download it, store its manifest, no notification. */
  lemma FreshInstall(env: Env, release: Release, asset: Asset)
    requires env.nightly == Fetched(release) && env.downloadSucceeds
    requires FindDistribution(release, env.host) == Some(asset)
    ensures var o := CheckAndInstall(env, None);
            var path := JoinPath(env.storageDir, asset.name);
            && o.completion == Returned(Some(path))
            && o.store == Some(Manifest(asset.name, release.tagName, asset.updatedAt, release.updatedAt))
            && FileWritten(path) in o.events
            && UpdateNotified !in o.events
  {
  }

  /** No manifest and no matching asset: `undefined`, nothing stored, an error shown. */
  lemma FreshInstallUnsupported(env: Env, release: Release)
    requires env.nightly == Fetched(release)
    requires forall a :: a in release.assets ==> !HasPrefix(a, DistributionPrefix(env.host))
    ensures var o := CheckAndInstall(env, None);
            && o.completion == Returned(None)
            && o.store == None
            && o.events == [NoDistributionNotice(env.host)]
  {
  }

  /** A manifest strictly newer than the nightly release is kept and its path returned. */
  lemma UpToDate(env: Env, manifest: Manifest, release: Release)
    requires env.nightly == Fetched(release)
    requires manifest.releaseTimestamp > release.updatedAt
    ensures var o := CheckAndInstall(env, Some(manifest));
            && o.completion == Returned(Some(JoinPath(env.storageDir, manifest.name)))
            && o.store == Some(manifest)
            && o.events == []
  {
  }

  /**
   A manifest that is not strictly newer (equal timestamps included) with a matching
   asset: the asset is downloaded, the manifest overwritten, one notification shown.
   */
  lemma UpdateInstall(env: Env, manifest: Manifest, release: Release, asset: Asset)
    requires env.nightly == Fetched(release) && env.downloadSucceeds
    requires manifest.releaseTimestamp <= release.updatedAt
    requires FindDistribution(release, env.host) == Some(asset)
    ensures var o := CheckAndInstall(env, Some(manifest));
            var path := JoinPath(env.storageDir, asset.name);
            && o.completion == Returned(Some(path))
            && o.store == Some(Manifest(asset.name, release.tagName, asset.updatedAt, release.updatedAt))
            && o.events == [FileWritten(path), ManifestStored(o.store.value), UpdateNotified]
  {
  }

  /** A manifest that is not strictly newer and no matching asset: `undefined`, manifest kept. */
  lemma UpdateUnsupported(env: Env, manifest: Manifest, release: Release)
    requires env.nightly == Fetched(release)
    requires manifest.releaseTimestamp <= release.updatedAt
    requires forall a :: a in release.assets ==> !HasPrefix(a, DistributionPrefix(env.host))
    ensures var o := CheckAndInstall(env, Some(manifest));
            && o.completion == Returned(None)
            && o.store == Some(manifest)
            && o.events == [NoDistributionNotice(env.host)]
  {
  }

  /** With a manifest, a failed fetch falls back to the installed path with no effects. */
  lemma FallbackOnFetchError(env: Env, manifest: Manifest)
    requires env.nightly.FetchFailed?
    ensures var o := CheckAndInstall(env, Some(manifest));
            && o.completion == Returned(Some(JoinPath(env.storageDir, manifest.name)))
            && o.store == Some(manifest)
            && o.events == []
  {
  }

  /**
   With a manifest that is not strictly newer and a matching asset, a failed download
   falls back to the installed path with no effects.
   */
  lemma FallbackOnDownloadError(env: Env, manifest: Manifest, release: Release)
    requires env.nightly == Fetched(release) && !env.downloadSucceeds
    requires manifest.releaseTimestamp <= release.updatedAt
    requires FindDistribution(release, env.host).Some?
    ensures var o := CheckAndInstall(env, Some(manifest));
            && o.completion == Returned(Some(JoinPath(env.storageDir, manifest.name)))
            && o.store == Some(manifest)
            && o.events == []
  {
  }

  /** Without a manifest, a failed fetch is not caught. */
  lemma FreshInstallFetchFailure(env: Env)
    requires env.nightly.FetchFailed?
    ensures CheckAndInstall(env, None) == Outcome(Threw, [], None)
  {
  }

  /** Without a manifest, a failed download of the matching asset is not caught either. */
  lemma FreshInstallDownloadFailure(env: Env, release: Release)
    requires env.nightly == Fetched(release) && !env.downloadSucceeds
    requires FindDistribution(release, env.host).Some?
    ensures CheckAndInstall(env, None) == Outcome(Threw, [], None)
  {
  }

  /** The manifest store changes only in an invocation that wrote an asset file. */
  lemma StoreChangesOnlyWithDownload(env: Env, store: Option<Manifest>)
    ensures var o := CheckAndInstall(env, store);
            o.store != store ==> exists p :: FileWritten(p) in o.events
  {
  }

  /** The manifest stored names the last segment of the returned path (asset names hold no "/"). */
  lemma StoredNameIsLastSegment(env: Env, store: Option<Manifest>)
    requires store.Some? ==> '/' !in store.value.name
    requires env.nightly.Fetched? ==> forall a :: a in env.nightly.release.assets ==> '/' !in a.name
    ensures var o := CheckAndInstall(env, store);
            o.completion.Returned? && o.completion.path.Some? ==>
              LastSegment(o.completion.path.value) == o.store.value.name
  {
    var o := CheckAndInstall(env, store);
    if o.completion.Returned? && o.completion.path.Some? {
      var name := o.store.value.name;
      if o.store != store {
        assert FindDistribution(env.nightly.release, env.host).Some?;
      }
      JoinPathLastSegment(env.storageDir, name);
    }
  }
}
