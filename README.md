# Module resource loader

A Dafny model of SilverStripe's `ModuleResourceLoader`. The loader resolves
logical resource identifiers of the form `vendor/package:resource` into a
module resource, and from there into a base-relative path (`resolvePath`) or
a public URL (`resolveURL`). A string that is not such an identifier passes
through unchanged. Absolute URLs such as `http://bla` are among these strings.
An identifier that names an unregistered module is an error. The error
reports whether the module's `composer.json` manifest appears to be missing.

The PHP class has no fields and no loops. Every method is straight-line
logic over its argument plus read-only queries. So the model is made of
functions, datatypes and lemmas:

- `wrappers.dfy`: `Option`, standing for PHP's `null`, and `Result`,
  standing for a return value or a thrown exception.
- `php_strings.dfy`: the PHP primitives the loader relies on. These are
  string truthiness (`empty()`: only `""` and `"0"` are falsy), `explode`
  and `implode` on one character, `dirname`, and path joining.
- `resource_identifier.dfy`: the identifier grammar
  `^ *[^/: ]+/[^/: ]+ *: *[^ ]*$`, written twice. `Render` builds every
  string the grammar accepts from its parts (a `Layout`). `ParseLayout` is a
  left-to-right scanner. The two are proved inverse to each other on
  well-formed layouts. Only the ASCII space counts as whitespace.
- `module_resource_loader.dfy`: the resolver and the manifest diagnostic
  `hasModuleComposerConfig`. It also holds the two projections and the
  template-global names.

The collaborators the PHP code reaches through static calls are parameters:

- The module registry (`ModuleLoader::getModule`) is a `map` from module
  keys to `Module` values.
- A `Module`'s `getResource` is a function field. Its result, a
  `ModuleResource`, is reduced to the relative path it reports.
- The filesystem is a `Disk`: the base folder (`Director::baseFolder()`)
  and the sets of existing directories and files. `file_exists` holds for
  both directories and files.
- The URL generator (`ResourceURLGenerator::urlForResource`) is a function
  from resolved values to strings.

The model follows the code in these places, where a reader might expect
otherwise:

- Blank input yields `null` (`None`), not an empty string.
- The manifest check is the cross-combination
  `(dirV || dirR) && (fileV || fileR)`, not a per-layout check.
  `ManifestCheckOnCoherentDisk` shows that the two agree when every
  manifest sits in an existing directory. `CrossCombinationAcceptsMixedLayouts`
  shows where they part.
- Key segments after the second are ignored rather than rejected.
- A vendor or package of `"0"` is rejected, because PHP treats it as falsy.
  This segment passes the identifier grammar. So an identifier such as
  `0/pkg:x` of an unregistered module raises the malformed-key error instead
  of the not-found error (`UnregisteredModuleError`).

## Model

| member | source | states |
|---|---|---|
| `ResourceIdentifier.ParseLayout` | src/Core/Manifest/ModuleResourceLoader.php:106 | whatever the scanner extracts from a string is well formed (two segments free of `/`, `:` and space, a space-free resource) and renders back to exactly that string |
| `ResourceIdentifier.Parse` | src/Core/Manifest/ModuleResourceLoader.php:106-110 | on a match, the `module` group is a `vendor/package` key of two non-empty segments free of `/`, `:` and space joined by one `/`, and the `resource` group contains no space |
| `ResourceIdentifier.ParseRender` | src/Core/Manifest/ModuleResourceLoader.php:106 | round trip: scanning the rendering of any well-formed layout gives back that layout |
| `ResourceIdentifier.ParseMeansRender` | src/Core/Manifest/ModuleResourceLoader.php:106 | a string matches the grammar as a given well-formed layout if and only if it is that layout's rendering |
| `ResourceIdentifier.RenderScan` | src/Core/Manifest/ModuleResourceLoader.php:106 | for proper segments and a resource not starting with a space, the string matches, as exactly that layout, if and only if the resource contains no space |
| `ResourceIdentifier.ParseOfIdentifier` | src/Core/Manifest/ModuleResourceLoader.php:106-110 | any amount of leading space, `vendor/package`, spaces, `:`, spaces and a space-free resource yields exactly the groups `vendor/package` and the resource |
| `ResourceIdentifier.ParseRoundTrip` | src/Core/Manifest/ModuleResourceLoader.php:106-110 | for valid `v`, `p` and space-free `r`, parsing `v/p:r` yields `(v/p, r)` |
| `ResourceIdentifier.LeadingSpaceIgnored` | src/Core/Manifest/ModuleResourceLoader.php:106 | a leading space changes neither whether a string matches nor the captured groups |
| `ResourceIdentifier.ColonSpacingIgnored` | src/Core/Manifest/ModuleResourceLoader.php:106 | the number of spaces on either side of the colon does not affect the parse |
| `ResourceIdentifier.EmptyResourceAccepted` | src/Core/Manifest/ModuleResourceLoader.php:106 | `vendor/package:` matches, with an empty resource |
| `ResourceIdentifier.TrailingSpaceRejected` | src/Core/Manifest/ModuleResourceLoader.php:106 | a string whose final space follows a character that is neither a space nor the colon never matches |
| `ResourceIdentifier.TrailingSpaceAfterResource` | src/Core/Manifest/ModuleResourceLoader.php:106 | appending a space to any well-formed identifier with a non-empty resource makes a non-match, including resources that end in `:` such as `a/b:c: ` |
| `ResourceIdentifier.SchemeNeverMatches` | src/Core/Manifest/ModuleResourceLoader.php:105-106 | a first token followed directly by `:` (a URL scheme) never matches, whatever follows |
| `ResourceIdentifier.AbsoluteUrlNeverMatches` | src/Core/Manifest/ModuleResourceLoader.php:105-106 | `http://bla`, the absolute URL the source names, is not an identifier |
| `ResourceIdentifier.UrlWithColonInPathNeverMatches` | src/Core/Manifest/ModuleResourceLoader.php:105-106 | `http://example.com/x:y` is not an identifier either, although a `:` follows a `/` later in it |
| `ResourceIdentifier.SchemeUrlNeverMatches` | src/Core/Manifest/ModuleResourceLoader.php:105-106 | any string `scheme:rest` whose scheme is a segment (no `/`, `:` or space) is not an identifier |
| `ResourceIdentifier.FalsyStringsNeverMatch` | src/Core/Manifest/ModuleResourceLoader.php:29-32 | the blank strings `""` and `"0"` are not identifiers, so skipping them hides no module lookup |
| `PhpStrings.IsFalsy` | src/Core/Manifest/ModuleResourceLoader.php:30 | plain definition of PHP string truthiness: exactly `""` and `"0"` are falsy; it is the test of `empty()` at :30 and :50 and of the vendor and package test at :137 |
| `PhpStrings.Explode` | src/Core/Manifest/ModuleResourceLoader.php:135 | `explode` returns at least one piece, no piece contains the separator, and imploding the pieces gives back the input |
| `PhpStrings.Dirname` | src/Core/Manifest/ModuleResourceLoader.php:144 | for a path containing `/`, the result (unless it is `/`) followed by `/` is a prefix of the path |
| `PhpStrings.JoinLinks` | src/Core/Manifest/ModuleResourceLoader.php:141-142 | the joined path starts with the first component; `ImplodeAppend` and `DirnameOfJoin` state how a last component is attached |
| `PhpStrings.ExplodeCons` | src/Core/Manifest/ModuleResourceLoader.php:135 | exploding a separator-free head, the separator and a tail gives the head followed by the pieces of the tail |
| `PhpStrings.ImplodeAppend` | src/Core/Manifest/ModuleResourceLoader.php:141-142 | joining one more component adds exactly one separator and that component at the end |
| `PhpStrings.DirnameOfJoin` | src/Core/Manifest/ModuleResourceLoader.php:141-144 | the directory part of a joined path ending in a slash-free name is the join of the other components |
| `ModuleResourceLoader.HasModuleComposerConfig` | src/Core/Manifest/ModuleResourceLoader.php:133-139 | the only error is the malformed-key error naming the key, and a key without `/` never gets an answer |
| `ModuleResourceLoader.ProbeManifest` | src/Core/Manifest/ModuleResourceLoader.php:141-152 | the two candidate manifests are joined from path components and probed in source order; a true answer implies that a candidate directory and a candidate manifest exist (`ProbeIsCrossCombination` gives the converse) |
| `ModuleResourceLoader.ProbeIsCrossCombination` | src/Core/Manifest/ModuleResourceLoader.php:141-152 | the filesystem probe equals `(isDir(vendorDir) or isDir(rootDir)) and (exists(vendorDir/composer.json) or exists(rootDir/composer.json))`, with the root layout using only the package name |
| `ModuleResourceLoader.ManifestCheck` | src/Core/Manifest/ModuleResourceLoader.php:133-153 | for a key of two slash-free, non-falsy segments, the diagnostic answers that cross-combined formula |
| `ModuleResourceLoader.MalformedIffFalsySegment` | src/Core/Manifest/ModuleResourceLoader.php:135-139 | a key of two slash-free segments is rejected if and only if the vendor or the package is `""` or `"0"` |
| `ModuleResourceLoader.KeyWithoutSlashIsMalformed` | src/Core/Manifest/ModuleResourceLoader.php:135-139 | a key with no `/` (no package) raises the malformed-key error |
| `ModuleResourceLoader.ExtraSegmentsIgnored` | src/Core/Manifest/ModuleResourceLoader.php:135 | `v/p/rest` is rejected exactly when `v/p` is, and otherwise gets the same answer, because only the first two pieces are read |
| `ModuleResourceLoader.ManifestCheckOnCoherentDisk` | src/Core/Manifest/ModuleResourceLoader.php:144-152 | when a manifest can only exist inside an existing directory, the check means "the manifest is present under the vendor layout or under the root layout" |
| `ModuleResourceLoader.CrossCombinationAcceptsMixedLayouts` | src/Core/Manifest/ModuleResourceLoader.php:144-152 | the vendor directory together with the root manifest is enough for a true answer |
| `ModuleResourceLoader.ErrorMessage` | src/Core/Manifest/ModuleResourceLoader.php:137-139 | the malformed-key message starts with the key and ends with ` is not in the format of vendor/package`; the not-found message starts with `Can't find module '<module>'` |
| `ModuleResourceLoader.NotFoundMessage` | src/Core/Manifest/ModuleResourceLoader.php:113-117 | the not-found message starts with `Can't find module '<module>'` and ends with the composer.json suffix exactly when the missing flag is set |
| `ModuleResourceLoader.ResolveResource` | src/Core/Manifest/ModuleResourceLoader.php:103-122 | a non-matching string comes back unchanged; a registered module yields exactly `getResource(subPath)`; an unregistered module is an error naming the module key |
| `ModuleResourceLoader.UnregisteredModuleError` | src/Core/Manifest/ModuleResourceLoader.php:111-118 | for the rendering of any well-formed layout whose module is unregistered, the error is the malformed-key error when vendor or package is `"0"`, and otherwise not-found with the missing flag equal to the negation of the cross-combined manifest formula |
| `ModuleResourceLoader.NotFoundSuffixIffNoManifest` | src/Core/Manifest/ModuleResourceLoader.php:111-117 | the rendering of any well-formed layout whose module is unregistered always gives an error; it is not-found exactly when the diagnostic answers; and then the message has the composer.json suffix exactly when the diagnostic answered false |
| `ModuleResourceLoader.ResolvePath` | src/Core/Manifest/ModuleResourceLoader.php:27-38 | blank input gives null; a non-identifier is returned as given; a registered identifier gives its resource's relative path; errors are exactly those of `resolveResource` on non-blank input |
| `ModuleResourceLoader.ResolveURL` | src/Core/Manifest/ModuleResourceLoader.php:47-61 | blank input gives null; otherwise the generator receives the resolved value, which is the raw string for a non-identifier and the module resource for a registered identifier; errors are exactly those of `resolveResource` |
| `ModuleResourceLoader.TemplateGlobalVariables` | src/Core/Manifest/ModuleResourceLoader.php:87-93 | the template globals are exactly `resourcePath` and `resourceURL`, in that order |
| `ModuleResourceLoader.BlankInputShortCircuits` | src/Core/Manifest/ModuleResourceLoader.php:29-32 | for `""` and `"0"` both projections give null whatever the registry, filesystem and generator, and `resolveResource` would pass them through anyway |
| `ModuleResourceLoader.AbsoluteUrlPassesThrough` | src/Core/Manifest/ModuleResourceLoader.php:105-107 | `http://example.com/x:y` is returned unchanged by `resolveResource` and `resolvePath`, and handed unchanged to the URL generator |
| `ModuleResourceLoader.RegisteredModuleResolves` | src/Core/Manifest/ModuleResourceLoader.php:33-35 | `resolvePath("v/p:r")` for a registered module is the relative path of that module's resource for `r` |
| `ModuleResourceLoader.EmptyResourceIsModuleRoot` | src/Core/Manifest/ModuleResourceLoader.php:119-121 | `resolvePath("v/p:")` for a registered module is the relative path of the module's resource for the empty sub-path |

## Left out

- `Injector::inst()`, the `Injectable` trait and `singleton()` are service-location plumbing. The registry, the filesystem and the URL generator are explicit parameters instead.
- The static template wrappers `resourcePath` and `resourceURL` only forward to the singleton's `resolvePath` and `resolveURL`. They are not modelled; only the names they are exposed under are.
- `ModuleLoader::getModule` is modelled as exact lookup in a map. Any name normalisation the real manifest performs is not part of this model.
- `Module::getResource` and `ModuleResource::getRelativePath` belong to foreign classes. A module is an arbitrary function from sub-paths to resources, and a resource is reduced to its relative path.
- The cache-busting logic of `ResourceURLGenerator::urlForResource` is external. The generator is an arbitrary function.
- `Controller::join_links` is modelled as joining with a single `/`. Its collapsing of duplicate slashes and its handling of query strings and fragments are left out. These matter only for a base folder that ends in `/`, or for segments containing `?` or `#`.
- PHP's `dirname` is modelled as "everything before the last `/`". Stripping trailing slashes is left out, because the paths it receives here always end in `composer.json`.
- `is_dir` and `file_exists` are membership tests in two fixed sets. Symbolic links, permissions and a filesystem that changes between probes are not modelled.
- The exception classes (`InvalidArgumentException` versus `\Exception`) are modelled as the two variants of `LoaderError`. For a key without `/`, PHP also raises a notice for the undefined `list()` element; this is modelled as the same malformed-key error.
- Non-string arguments (`null`, arrays, numbers) are not modelled: every entry point takes a string.
- PCRE lets `$` match before a final newline. This has no effect here: `[^ ]*` also accepts a newline and is greedy, so a final newline always ends up in the resource group, as it does in the model.
- Calling the projections twice with the same registry and filesystem gives the same answer. No lemma states this, because every member is a pure function.
