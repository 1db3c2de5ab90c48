/**
 * The module resource loader: turns `vendor/package:resource` identifiers
 * into module resources, and from there into paths or URLs. Every other
 * string passes through unchanged.
 *
 * Its collaborators are parameters here: the module registry is a map from
 * module keys to modules, the filesystem is a `Disk` of known directories
 * and files under a base folder, and the URL generator is a function from
 * resolved values to strings.
 */
module ModuleResourceLoader {
  import opened Wrappers
  import opened PhpStrings
  import opened ResourceIdentifier

  /** A resource of a module, as the module hands it out; the loader only reads its relative path. */
  datatype ModuleResource = ModuleResource(relativePath: string)

  /** A registered module: it turns a sub-path into one of its resources. */
  datatype Module = Module(getResource: string -> ModuleResource)

  /** The module registry, keyed by `vendor/package`. */
  type Registry = map<string, Module>

  /**
   * The filesystem as the manifest diagnostic sees it: the installation's
   * base folder and the sets of existing directories and files.
   */
  datatype Disk = Disk(baseFolder: string, dirs: set<string>, files: set<string>)
  {
    /** `is_dir`. */
    predicate IsDir(path: string)
    {
      path in dirs
    }

    /** `file_exists`, which holds for directories as well as files. */
    predicate FileExists(path: string)
    {
      path in dirs || path in files
    }
  }

  /** What `resolveResource` hands back: a module resource, or the input string itself. */
  datatype Resolved = Resource(resource: ModuleResource) | Opaque(raw: string)

  /** The two errors the loader raises. */
  datatype LoaderError =
    | ModuleNotFound(moduleKey: string, manifestMissing: bool)
    | MalformedModuleKey(moduleKey: string)

  const ComposerMissingSuffix: string := ", the composer.json file appears to be missing."

  const MalformedSuffix: string := " is not in the format of vendor/package"

  /** The text of the exception the loader throws for an error. */
  function ErrorMessage(e: LoaderError): (msg: string)
    ensures e.MalformedModuleKey? ==> e.moduleKey <= msg && EndsWith(msg, MalformedSuffix)
    ensures e.ModuleNotFound? ==> ("Can't find module '" + e.moduleKey + "'") <= msg
  {
    match e
    case ModuleNotFound(m, missing) =>
      "Can't find module '" + m + "'" + (if missing then ComposerMissingSuffix else "")
    case MalformedModuleKey(m) =>
      m + MalformedSuffix
  }

  predicate EndsWith(s: string, suffix: string)
  {
    |suffix| <= |s| && s[|s| - |suffix|..] == suffix
  }

  /**
   * The not-found message names the module, and carries the
   * "composer.json missing" suffix exactly when the manifest was not found.
   */
  lemma NotFoundMessage(m: string, missing: bool)
    ensures var msg := ErrorMessage(ModuleNotFound(m, missing));
      ("Can't find module '" + m + "'") <= msg && (EndsWith(msg, ComposerMissingSuffix) <==> missing)
  {
    var msg := ErrorMessage(ModuleNotFound(m, missing));
    if !missing {
      assert msg[|msg| - 1] == '\'';
      assert ComposerMissingSuffix[|ComposerMissingSuffix| - 1] == '.';
      if |ComposerMissingSuffix| <= |msg| {
        assert msg[|msg| - |ComposerMissingSuffix|..][|ComposerMissingSuffix| - 1] == '\'';
      }
    }
  }

  /** The file name of a package manifest. */
  const ManifestName: string := "composer.json"

  /** The vendor-layout package directory `base/vendor/<vendor>/<package>`. */
  function VendorDir(disk: Disk, vendor: string, package: string): string
  {
    JoinLinks([disk.baseFolder, "vendor", vendor, package])
  }

  /** The root-layout package directory `base/<package>`; the vendor plays no part. */
  function RootDir(disk: Disk, package: string): string
  {
    JoinLinks([disk.baseFolder, package])
  }

  /**
   * The filesystem probe of `hasModuleComposerConfig`: the two candidate
   * manifests are built by joining path components, and the answer is
   * false when neither parent directory exists, false when neither
   * manifest exists, and true otherwise.
   */
  function ProbeManifest(disk: Disk, vendor: string, package: string): (found: bool)
    ensures found ==> ManifestPresent(disk, vendor, package)
  {
    var vendorPath := JoinLinks([disk.baseFolder, "vendor", vendor, package, ManifestName]);
    var rootPath := JoinLinks([disk.baseFolder, package, ManifestName]);
    VendorManifestPath(disk, vendor, package);
    RootManifestPath(disk, package);
    if !disk.IsDir(Dirname(vendorPath)) && !disk.IsDir(Dirname(rootPath)) then false
    else if !disk.FileExists(vendorPath) && !disk.FileExists(rootPath) then false
    else true
  }

  /**
   * `hasModuleComposerConfig`: whether a module looks installed. The key is
   * exploded on '/', and only its first two pieces are used; a missing,
   * empty or "0" vendor or package is an error.
   */
  function HasModuleComposerConfig(disk: Disk, moduleKey: string): (r: Result<bool, LoaderError>)
    ensures r.Err? ==> r.error == MalformedModuleKey(moduleKey)
    ensures r.Ok? ==> '/' in moduleKey
  {
    var parts := Explode('/', moduleKey);
    if |parts| < 2 || IsFalsy(parts[0]) || IsFalsy(parts[1]) then Err(MalformedModuleKey(moduleKey))
    else
      assert moduleKey[|parts[0]|] == '/';
      Ok(ProbeManifest(disk, parts[0], parts[1]))
  }

  /** The vendor-layout manifest, inside the vendor-layout directory. */
  function VendorManifest(disk: Disk, vendor: string, package: string): string
  {
    VendorDir(disk, vendor, package) + "/" + ManifestName
  }

  /** The root-layout manifest, inside the root-layout directory. */
  function RootManifest(disk: Disk, package: string): string
  {
    RootDir(disk, package) + "/" + ManifestName
  }

  /**
   * The manifest check as a plain formula over the two layouts: some
   * candidate directory exists and some candidate manifest exists.
   */
  predicate ManifestPresent(disk: Disk, vendor: string, package: string)
  {
    (disk.IsDir(VendorDir(disk, vendor, package)) || disk.IsDir(RootDir(disk, package)))
    && (disk.FileExists(VendorManifest(disk, vendor, package)) || disk.FileExists(RootManifest(disk, package)))
  }

  lemma VendorManifestPath(disk: Disk, vendor: string, package: string)
    ensures JoinLinks([disk.baseFolder, "vendor", vendor, package, ManifestName]) == VendorManifest(disk, vendor, package)
    ensures Dirname(JoinLinks([disk.baseFolder, "vendor", vendor, package, ManifestName])) == VendorDir(disk, vendor, package)
  {
    var parts := [disk.baseFolder, "vendor", vendor, package];
    assert parts + [ManifestName] == [disk.baseFolder, "vendor", vendor, package, ManifestName];
    assert '/' !in ManifestName;
    DirnameOfJoin(parts, ManifestName);
  }

  lemma RootManifestPath(disk: Disk, package: string)
    ensures JoinLinks([disk.baseFolder, package, ManifestName]) == RootManifest(disk, package)
    ensures Dirname(JoinLinks([disk.baseFolder, package, ManifestName])) == RootDir(disk, package)
  {
    var parts := [disk.baseFolder, package];
    assert parts + [ManifestName] == [disk.baseFolder, package, ManifestName];
    assert '/' !in ManifestName;
    DirnameOfJoin(parts, ManifestName);
  }

  /** The probe is the cross-combination of the two layouts. */
  lemma ProbeIsCrossCombination(disk: Disk, vendor: string, package: string)
    ensures ProbeManifest(disk, vendor, package) == ManifestPresent(disk, vendor, package)
  {
    VendorManifestPath(disk, vendor, package);
    RootManifestPath(disk, package);
  }

  /** Exploding `vendor/package` with slash-free segments gives exactly those two pieces. */
  lemma ExplodeModuleKey(vendor: string, package: string)
    requires '/' !in vendor && '/' !in package
    ensures Explode('/', vendor + "/" + package) == [vendor, package]
  {
    ExplodeCons('/', vendor, package);
  }

  /** For a well-shaped key, the diagnostic computes `ManifestPresent`. */
  lemma ManifestCheck(disk: Disk, vendor: string, package: string)
    requires '/' !in vendor && '/' !in package && !IsFalsy(vendor) && !IsFalsy(package)
    ensures HasModuleComposerConfig(disk, vendor + "/" + package) == Ok(ManifestPresent(disk, vendor, package))
  {
    ExplodeModuleKey(vendor, package);
    ProbeIsCrossCombination(disk, vendor, package);
  }

  /**
   * A key with two slash-free segments is rejected exactly when one of
   * them is PHP-falsy ("" or "0").
   */
  lemma MalformedIffFalsySegment(disk: Disk, vendor: string, package: string)
    requires '/' !in vendor && '/' !in package
    ensures HasModuleComposerConfig(disk, vendor + "/" + package).Err? <==> IsFalsy(vendor) || IsFalsy(package)
  {
    ExplodeModuleKey(vendor, package);
  }

  /** A key without any '/' has no package and is rejected. */
  lemma KeyWithoutSlashIsMalformed(disk: Disk, moduleKey: string)
    requires '/' !in moduleKey
    ensures HasModuleComposerConfig(disk, moduleKey) == Err(MalformedModuleKey(moduleKey))
  {
  }

  /** Segments after the second are ignored: only the first two pieces of the key are read. */
  lemma ExtraSegmentsIgnored(disk: Disk, vendor: string, package: string, rest: string)
    requires '/' !in vendor && '/' !in package
    ensures var long := HasModuleComposerConfig(disk, vendor + "/" + package + "/" + rest);
      var short := HasModuleComposerConfig(disk, vendor + "/" + package);
      (long.Err? <==> short.Err?) && (long.Ok? ==> long == short)
  {
    ExplodeCons('/', package, rest);
    assert vendor + "/" + package + "/" + rest == vendor + "/" + (package + "/" + rest);
    ExplodeCons('/', vendor, package + "/" + rest);
    var parts := Explode('/', vendor + "/" + package + "/" + rest);
    assert |parts| >= 2 && parts[0] == vendor && parts[1] == package;
    ExplodeModuleKey(vendor, package);
  }

  /**
   * On a disk where a manifest only exists inside an existing directory,
   * the cross-combined check means "the manifest is present in one of the
   * two layouts".
   */
  lemma ManifestCheckOnCoherentDisk(disk: Disk, vendor: string, package: string)
    requires '/' !in vendor && '/' !in package && !IsFalsy(vendor) && !IsFalsy(package)
    requires disk.FileExists(VendorManifest(disk, vendor, package)) ==> disk.IsDir(VendorDir(disk, vendor, package))
    requires disk.FileExists(RootManifest(disk, package)) ==> disk.IsDir(RootDir(disk, package))
    ensures HasModuleComposerConfig(disk, vendor + "/" + package)
         == Ok((disk.IsDir(VendorDir(disk, vendor, package)) && disk.FileExists(VendorManifest(disk, vendor, package)))
               || (disk.IsDir(RootDir(disk, package)) && disk.FileExists(RootManifest(disk, package))))
  {
    ManifestCheck(disk, vendor, package);
  }

  /**
   * Without that coherence the check is not per layout: the vendor
   * directory together with the root manifest is enough, though neither
   * layout is complete on its own.
   */
  lemma CrossCombinationAcceptsMixedLayouts(disk: Disk, vendor: string, package: string)
    requires '/' !in vendor && '/' !in package && !IsFalsy(vendor) && !IsFalsy(package)
    requires disk.IsDir(VendorDir(disk, vendor, package)) && disk.FileExists(RootManifest(disk, package))
    ensures HasModuleComposerConfig(disk, vendor + "/" + package) == Ok(true)
  {
    ManifestCheck(disk, vendor, package);
  }

  /**
   * `resolveResource`: a string outside the identifier grammar comes back
   * as it is; an identifier of a registered module becomes that module's
   * resource for the sub-path; an identifier of an unregistered module is
   * an error naming the module and saying whether its manifest is missing.
   */
  function ResolveResource(registry: Registry, disk: Disk, raw: string): (r: Result<Resolved, LoaderError>)
    ensures Parse(raw).None? ==> r == Ok(Opaque(raw))
    ensures Parse(raw).Some? && Parse(raw).value.moduleKey in registry
            ==> r == Ok(Resource(registry[Parse(raw).value.moduleKey].getResource(Parse(raw).value.subPath)))
    ensures Parse(raw).Some? && Parse(raw).value.moduleKey !in registry
            ==> r.Err? && r.error.moduleKey == Parse(raw).value.moduleKey
    ensures r.Ok? && r.value.Opaque? ==> r.value.raw == raw
  {
    match Parse(raw)
    case None => Ok(Opaque(raw))
    case Some(q) =>
      if q.moduleKey in registry then Ok(Resource(registry[q.moduleKey].getResource(q.subPath)))
      else
        match HasModuleComposerConfig(disk, q.moduleKey)
        case Err(e) => Err(e)
        case Ok(present) => Err(ModuleNotFound(q.moduleKey, !present))
  }

  /**
   * The error for an identifier of an unregistered module, in full: a
   * vendor or package of "0" trips the key check of the diagnostic;
   * otherwise the module is not found, and flagged as missing its
   * manifest exactly when no candidate directory or no candidate manifest
   * exists.
   */
  lemma UnregisteredModuleError(registry: Registry, disk: Disk, l: Layout)
    requires l.WellFormed() && l.ModuleKey() !in registry
    ensures ResolveResource(registry, disk, Render(l))
         == if l.vendor == "0" || l.package == "0" then Err(MalformedModuleKey(l.ModuleKey()))
            else Err(ModuleNotFound(l.ModuleKey(), !ManifestPresent(disk, l.vendor, l.package)))
  {
    ParseRender(l);
    assert '/' !in l.vendor && '/' !in l.package;
    assert IsFalsy(l.vendor) <==> l.vendor == "0";
    assert IsFalsy(l.package) <==> l.package == "0";
    MalformedIffFalsySegment(disk, l.vendor, l.package);
    if l.vendor != "0" && l.package != "0" {
      ManifestCheck(disk, l.vendor, l.package);
    }
  }

  /**
   * When an unregistered module is reported as not found, the message
   * carries the "composer.json missing" suffix exactly when the manifest
   * diagnostic answered false.
   */
  lemma NotFoundSuffixIffNoManifest(registry: Registry, disk: Disk, l: Layout)
    requires l.WellFormed() && l.ModuleKey() !in registry
    ensures var r := ResolveResource(registry, disk, Render(l));
      r.Err? && (r.error.ModuleNotFound? <==> HasModuleComposerConfig(disk, l.ModuleKey()).Ok?)
    ensures var r := ResolveResource(registry, disk, Render(l));
      r.Err? && r.error.ModuleNotFound? ==>
        (EndsWith(ErrorMessage(r.error), ComposerMissingSuffix)
         <==> HasModuleComposerConfig(disk, l.ModuleKey()) == Ok(false))
  {
    ParseRender(l);
    var r := ResolveResource(registry, disk, Render(l));
    if r.error.ModuleNotFound? {
      NotFoundMessage(r.error.moduleKey, r.error.manifestMissing);
    }
  }

  /**
   * `resolvePath`: blank input ("" or "0") gives null; a module identifier
   * gives the relative path of the resolved resource; any other string is
   * returned as it was given.
   */
  function ResolvePath(registry: Registry, disk: Disk, raw: string): (r: Result<Option<string>, LoaderError>)
    ensures IsFalsy(raw) ==> r == Ok(None)
    ensures !IsFalsy(raw) && Parse(raw).None? ==> r == Ok(Some(raw))
    ensures !IsFalsy(raw) && Parse(raw).Some? && Parse(raw).value.moduleKey in registry
            ==> r == Ok(Some(registry[Parse(raw).value.moduleKey].getResource(Parse(raw).value.subPath).relativePath))
    ensures r.Err? <==> !IsFalsy(raw) && ResolveResource(registry, disk, raw).Err?
    ensures r.Err? ==> r.error == ResolveResource(registry, disk, raw).error
  {
    if IsFalsy(raw) then Ok(None)
    else
      match ResolveResource(registry, disk, raw)
      case Err(e) => Err(e)
      case Ok(Resource(res)) => Ok(Some(res.relativePath))
      case Ok(Opaque(_)) => Ok(Some(raw))
  }

  /**
   * `resolveURL`: blank input gives null without consulting the generator;
   * otherwise whatever `resolveResource` produced, a resource or the
   * string itself, is handed to the URL generator.
   */
  function ResolveURL(registry: Registry, disk: Disk, urlFor: Resolved -> string, raw: string)
    : (r: Result<Option<string>, LoaderError>)
    ensures IsFalsy(raw) ==> r == Ok(None)
    ensures !IsFalsy(raw) && Parse(raw).None? ==> r == Ok(Some(urlFor(Opaque(raw))))
    ensures !IsFalsy(raw) && Parse(raw).Some? && Parse(raw).value.moduleKey in registry
            ==> r == Ok(Some(urlFor(Resource(registry[Parse(raw).value.moduleKey].getResource(Parse(raw).value.subPath)))))
    ensures r.Err? <==> !IsFalsy(raw) && ResolveResource(registry, disk, raw).Err?
    ensures r.Err? ==> r.error == ResolveResource(registry, disk, raw).error
  {
    if IsFalsy(raw) then Ok(None)
    else
      match ResolveResource(registry, disk, raw)
      case Err(e) => Err(e)
      case Ok(resolved) => Ok(Some(urlFor(resolved)))
  }

  /** The names under which the two projections are exposed to templates. */
  function TemplateGlobalVariables(): (names: seq<string>)
    ensures |names| == 2 && names[0] == "resourcePath" && names[1] == "resourceURL"
  {
    ["resourcePath", "resourceURL"]
  }

  /**
   * Blank input short-circuits both projections, whatever the registry,
   * the filesystem and the URL generator are; and since neither "" nor
   * "0" is an identifier, the short circuit never hides a module lookup.
   */
  lemma BlankInputShortCircuits(registry: Registry, disk: Disk, urlFor: Resolved -> string, raw: string)
    requires IsFalsy(raw)
    ensures ResolvePath(registry, disk, raw) == Ok(None)
    ensures ResolveURL(registry, disk, urlFor, raw) == Ok(None)
    ensures ResolveResource(registry, disk, raw) == Ok(Opaque(raw))
  {
    FalsyStringsNeverMatch();
  }

  /** Absolute URLs pass through every entry point untouched. */
  lemma AbsoluteUrlPassesThrough(registry: Registry, disk: Disk, urlFor: Resolved -> string)
    ensures ResolveResource(registry, disk, "http://example.com/x:y") == Ok(Opaque("http://example.com/x:y"))
    ensures ResolvePath(registry, disk, "http://example.com/x:y") == Ok(Some("http://example.com/x:y"))
    ensures ResolveURL(registry, disk, urlFor, "http://example.com/x:y") == Ok(Some(urlFor(Opaque("http://example.com/x:y"))))
  {
    UrlWithColonInPathNeverMatches();
  }

  /** `vendor/package:resource` of a registered module resolves to the module's resource for that sub-path. */
  lemma RegisteredModuleResolves(registry: Registry, disk: Disk, vendor: string, package: string, resource: string)
    requires IsSegment(vendor) && IsSegment(package) && NoSpace(resource)
    requires vendor + "/" + package in registry
    ensures ResolvePath(registry, disk, vendor + "/" + package + ":" + resource)
         == Ok(Some(registry[vendor + "/" + package].getResource(resource).relativePath))
  {
    ParseRoundTrip(vendor, package, resource);
    FalsyStringsNeverMatch();
  }

  /** An identifier with an empty resource resolves to the module's root resource. */
  lemma EmptyResourceIsModuleRoot(registry: Registry, disk: Disk, vendor: string, package: string)
    requires IsSegment(vendor) && IsSegment(package)
    requires vendor + "/" + package in registry
    ensures ResolvePath(registry, disk, vendor + "/" + package + ":")
         == Ok(Some(registry[vendor + "/" + package].getResource("").relativePath))
  {
    EmptyResourceAccepted(vendor, package);
    FalsyStringsNeverMatch();
  }
}
