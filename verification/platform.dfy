/**
 Platform resolution: the host's operating-system and CPU identifiers, rewritten to the
 aliases the release pipeline uses in asset names, and the asset name expected for them.
 The host identifiers (`os.platform()`, `os.arch()`) are parameters.
 */
module Platform {

  /** The normalised platform/architecture pair. */
  datatype PlatformInfo = PlatformInfo(platform: string, arch: string)

  /** A pair that uses the pipeline's aliases: neither raw identifier the aliases replace occurs. */
  predicate Canonical(info: PlatformInfo) {
    info.platform != "win32" && info.arch != "x64"
  }

  /** The platform alias: "win32" is renamed "windows", any other identifier passes through. */
  function NormalizePlatform(platform: string): string {
    if platform == "win32" then "windows" else platform
  }

  /** The architecture alias: "x64" is renamed "amd64", any other identifier passes through. */
  function NormalizeArch(arch: string): string {
    if arch == "x64" then "amd64" else arch
  }

  /** The pair `getPlatformInfo` returns for the host identifiers `osPlatform` and `osArch`. */
  function GetPlatformInfo(osPlatform: string, osArch: string): (info: PlatformInfo)
    ensures Canonical(info)
    ensures osPlatform == "win32" ==> info.platform == "windows"
    ensures osPlatform != "win32" ==> info.platform == osPlatform
    ensures osArch == "x64" ==> info.arch == "amd64"
    ensures osArch != "x64" ==> info.arch == osArch
  {
    PlatformInfo(NormalizePlatform(osPlatform), NormalizeArch(osArch))
  }

  /** The expected asset name (and asset-name prefix) for a normalised pair. */
  function AssetName(info: PlatformInfo): string {
    "expert_" + info.platform + "_" + info.arch
  }

  /** The asset name `getExpectedAssetName` returns for the host identifiers. */
  function ExpectedAssetName(osPlatform: string, osArch: string): (name: string)
    ensures var info := GetPlatformInfo(osPlatform, osArch);
            name == "expert_" + info.platform + "_" + info.arch
  {
    AssetName(GetPlatformInfo(osPlatform, osArch))
  }

  /** Normalising an already normalised pair changes nothing. */
  lemma NormalizeIdempotent(osPlatform: string, osArch: string)
    ensures var info := GetPlatformInfo(osPlatform, osArch);
            GetPlatformInfo(info.platform, info.arch) == info
  {
  }

  /** A canonical pair is a fixed point of normalisation, and only canonical pairs are. */
  lemma CanonicalIsFixedPoint(info: PlatformInfo)
    ensures GetPlatformInfo(info.platform, info.arch) == info <==> Canonical(info)
  {
  }

  /**
   The raw alias and its replacement resolve to the same asset name, and the name of a
   host equals the name of its own normalised pair.
   */
  lemma AliasesShareAssetName(osPlatform: string, osArch: string)
    ensures ExpectedAssetName("win32", osArch) == ExpectedAssetName("windows", osArch)
    ensures ExpectedAssetName(osPlatform, "x64") == ExpectedAssetName(osPlatform, "amd64")
    ensures var info := GetPlatformInfo(osPlatform, osArch);
            ExpectedAssetName(info.platform, info.arch) == ExpectedAssetName(osPlatform, osArch)
  {
  }
}
