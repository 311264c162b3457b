# PackageLibraryLoader in Dafny

A model of the pure decision logic of MumbleLink's `PackageLibraryLoader`. This is the class
that finds the bundled native Mumble link library on the class path and turns it into a file
the native loader can open. The model covers:

- **Canonical architecture.** `getCanonicalArchitecture` (`platform.dfy`): `os.arch` is
  lower-cased and trimmed, then renamed through the alias table (`powerpc` → `ppc`, `i686` →
  `x86`, `amd64` → `x86-64`, ...). Last comes the workaround that turns `ppc64` into `ppc64le`
  on little-endian machines.
- **Resource directory prefix.** `getNativeLibraryResourcePrefix` (`platform.dfy`):
  `darwin` on Mac, and `<os tag>-<canonical arch>` everywhere else. For an operating system
  without a fixed tag, the tag is taken from `os.name`.
- **Library file names.** `mapSharedLibraryName` and `isVersionedName` (`library_names.dfy`):
  - A name already in the system's shared-library form is kept as it is (`lib…dylib`,
    `libfoo.so.1.2`, `foo.dll`, ...).
  - Any other name goes through the JVM's default mapping. On Mac, `.jnilib` is rewritten to
    `.dylib`.
  - `isVersionedName`'s scan is a method with loop invariants, proved equal to a declarative
    predicate.
- **Resource lookup and outcome.** The decision part of `extractFromResourcePath`
  (`resource_lookup.dfy`):
  - which resource path is computed;
  - the lookup, and the fallback to the bare library name;
  - the not-found error;
  - the choice of outcome: use a `file:` resource in place, copy any other resource to a
    temporary file (`.dll` suffix on Windows), or return nothing when `jna.nounpack` is set.
    This is modelled twice:
    - `ExtractAsWritten` is the code as it stands. It fails for a non-file library found only
      by the fallback (see "## Findings").
    - `Extract` is the corrected loader. It opens the stream of the resource that was found.
  - The lemmas named `Extract…` below describe the corrected loader.
    `AsWrittenAgreesExceptFallbackStreams` shows that the loader as written gives the same
    results everywhere except that one case.

Inputs the source reads from the JVM are parameters:

- the system properties `os.arch`, `os.name`, `sun.cpu.endian` and `jna.nounpack`;
- JNA's operating-system type;
- `System.mapLibraryName`, a function parameter;
- the class loader's resources, a map from resource name to URL;
- the files that exist, a set of paths.

An unset `sun.cpu.endian` is `None`. Java's `String` operations are modelled in `strings.dfy`.
`Option` and `Result` in `wrappers.dfy` stand for `null` and for a thrown `IOException`.

With `jna.nounpack` set, a non-file resource is not extracted. Both branches are skipped and
`null` is returned (`PackageLibraryLoader.java:119,152`). The model's outcome for this case is
`NotUnpacked`.

## Model

| member | source | states |
|---|---|---|
| Platform.CanonicalArchitecture | src/main/java/zsawyer/mods/mumblelink/loader/PackageLibraryLoader.java:266-286 | getCanonicalArchitecture. No contract of its own; its properties are the `CanonicalArchitecture…` and `Alias…` lemmas below. |
| Platform.AliasMatchesTable | src/main/java/zsawyer/mods/mumblelink/loader/PackageLibraryLoader.java:268-280 | The alias if-chain renames exactly the six tokens of the alias table, each to its table entry, and keeps every other token. |
| Platform.AliasIdempotent | src/main/java/zsawyer/mods/mumblelink/loader/PackageLibraryLoader.java:268-280 | Renaming twice equals renaming once: no alias target is itself an alias. |
| Platform.CanonicalArchitectureForm | src/main/java/zsawyer/mods/mumblelink/loader/PackageLibraryLoader.java:266-286 | The canonical architecture has no upper-case letter and no character at most U+0020 at either end. |
| Platform.CanonicalArchitectureIdempotent | src/main/java/zsawyer/mods/mumblelink/loader/PackageLibraryLoader.java:266-286 | Canonicalising an already canonical architecture changes nothing, for any byte order. |
| Platform.EndianOnlyAffectsPpc64 | src/main/java/zsawyer/mods/mumblelink/loader/PackageLibraryLoader.java:281-284 | Only a token that the aliases turn into `ppc64` can come out differently under different byte orders. |
| Platform.CanonicalArchitecturePpc64le | src/main/java/zsawyer/mods/mumblelink/loader/PackageLibraryLoader.java:266-286 | The result is `ppc64le` if and only if the trimmed lower-cased input already was, or it aliases to `ppc64` and `sun.cpu.endian` is `little`. |
| Platform.ResourcePrefix | src/main/java/zsawyer/mods/mumblelink/loader/PackageLibraryLoader.java:229-264 | getNativeLibraryResourcePrefix. No contract of its own; its properties are `ResourcePrefixShape`, `ResourcePrefixCanonicalArch` and `ResourcePrefixLinuxAmd64`. |
| Platform.OsNamePart | src/main/java/zsawyer/mods/mumblelink/loader/PackageLibraryLoader.java:254-259 | The tag taken from `os.name` is the longest space-free prefix of the lower-cased name. It has no space, is a prefix of the name, and stops only at a space. |
| Platform.OsTag | src/main/java/zsawyer/mods/mumblelink/loader/PackageLibraryLoader.java:232-262 | The operating-system tag of a non-Mac prefix never contains a space. |
| Platform.ResourcePrefixShape | src/main/java/zsawyer/mods/mumblelink/loader/PackageLibraryLoader.java:229-264 | On Mac the prefix is `darwin` whatever the architecture. Elsewhere it is the tag, a dash and the canonical architecture, and it splits back into them. For an unlisted system the tag is the cut `os.name`. |
| Platform.CanonicalArchitectureAmd64 | src/main/java/zsawyer/mods/mumblelink/loader/PackageLibraryLoader.java:277-279 | `amd64` canonicalises to `x86-64` under every byte order. |
| Platform.CanonicalArchitectureI686 | src/main/java/zsawyer/mods/mumblelink/loader/PackageLibraryLoader.java:274-276 | `i686` canonicalises to `x86` under every byte order. |
| Platform.ResourcePrefixLinuxAmd64 | src/main/java/zsawyer/mods/mumblelink/loader/PackageLibraryLoader.java:229-264 | On Linux with `os.arch` = `amd64`, the prefix is `linux-x86-64`. |
| Platform.ResourcePrefixCanonicalArch | src/main/java/zsawyer/mods/mumblelink/loader/PackageLibraryLoader.java:229-231 | The prefix for an already canonical architecture equals the prefix for the raw one. |
| LibraryNames.IsVersionedName | src/main/java/zsawyer/mods/mumblelink/loader/PackageLibraryLoader.java:186-200 | isVersionedName as a predicate. No contract of its own; `CheckVersionedName` is the source's loop proved equal to it, and `VersionedName…` state its properties. |
| LibraryNames.CheckVersionedName | src/main/java/zsawyer/mods/mumblelink/loader/PackageLibraryLoader.java:186-200 | The scan with its early exit returns true exactly when the name satisfies the versioned-name predicate. |
| LibraryNames.VersionedNameIff | src/main/java/zsawyer/mods/mumblelink/loader/PackageLibraryLoader.java:186-200 | A name is versioned if and only if it starts with `lib` and some `.so.` in it is followed by a non-empty run of digits and dots that reaches the end. |
| LibraryNames.VersionedNameNecessary | src/main/java/zsawyer/mods/mumblelink/loader/PackageLibraryLoader.java:186-200 | A versioned name starts with `lib`, does not end in `.so.`, and ends in a digit or a dot. |
| LibraryNames.VersionedNameIntro | src/main/java/zsawyer/mods/mumblelink/loader/PackageLibraryLoader.java:186-200 | `lib<x>.so.<v>` is versioned for every `x` and every non-empty `v` of digits and dots. |
| LibraryNames.VersionedNameAccepts | src/main/java/zsawyer/mods/mumblelink/loader/PackageLibraryLoader.java:186-200 | `libfoo.so.1.2.3` is versioned. |
| LibraryNames.VersionedNameRejectsLetter | src/main/java/zsawyer/mods/mumblelink/loader/PackageLibraryLoader.java:191-194 | `libfoo.so.1.2a` is not versioned: a letter follows the marker. |
| LibraryNames.VersionedNameRejectsNoLib | src/main/java/zsawyer/mods/mumblelink/loader/PackageLibraryLoader.java:187 | `foo.so.1` is not versioned: it lacks the `lib` prefix. |
| LibraryNames.VersionedNameRejectsEmptyVersion | src/main/java/zsawyer/mods/mumblelink/loader/PackageLibraryLoader.java:189 | `libfoo.so.` is not versioned: nothing follows the marker. |
| LibraryNames.MapSharedLibraryName | src/main/java/zsawyer/mods/mumblelink/loader/PackageLibraryLoader.java:155-184 | mapSharedLibraryName. No contract of its own; its properties are `MacMapping`, `NonMacMapping`, `MapSharedLibraryNameIdempotent` and `MacMappingNative`. |
| LibraryNames.MacMapping | src/main/java/zsawyer/mods/mumblelink/loader/PackageLibraryLoader.java:156-170 | On Mac a `lib…dylib`/`lib…jnilib` name is kept. Any other name is mapped and never ends in `.jnilib`. A mapped `.jnilib` name keeps its stem and ends in `.dylib` instead. |
| LibraryNames.NonMacMapping | src/main/java/zsawyer/mods/mumblelink/loader/PackageLibraryLoader.java:171-183 | Off Mac a name already in the system's shared-library form is kept, and any other name gets exactly the default mapping. Systems other than Linux, FreeBSD and Windows keep no name. |
| LibraryNames.MapSharedLibraryNameIdempotent | src/main/java/zsawyer/mods/mumblelink/loader/PackageLibraryLoader.java:155-184 | When the default mapping yields the system's shared-library form, the mapped name is in that form and mapping it again changes nothing. |
| LibraryNames.MacMappingNative | src/main/java/zsawyer/mods/mumblelink/loader/PackageLibraryLoader.java:156-170 | On Mac, when the default mapping yields a `lib…dylib`/`lib…jnilib` name, the result is also such a name. This includes the `.jnilib` → `.dylib` rewrite. |
| ResourceLookup.LibName | src/main/java/zsawyer/mods/mumblelink/loader/PackageLibraryLoader.java:83 | The library name. No contract of its own; `ResourcePathShape` and `AbsoluteNameIgnoresMapping` state its properties. |
| ResourceLookup.ResourcePath | src/main/java/zsawyer/mods/mumblelink/loader/PackageLibraryLoader.java:84-87 | The resource path. No contract of its own; `ResourcePathShape` states its properties. |
| ResourceLookup.ResourcePathShape | src/main/java/zsawyer/mods/mumblelink/loader/PackageLibraryLoader.java:83-87 | A name starting with `/` is its own library name, and the resource path is that name without the `/`. Any other name gives `<prefix>/<mapped name>`, with a leading `/` stripped. |
| ResourceLookup.Lookup | src/main/java/zsawyer/mods/mumblelink/loader/PackageLibraryLoader.java:88-99 | The lookup with its fallback and the not-found error. No contract of its own; `LookupOrder` states its properties. |
| ResourceLookup.Locate | src/main/java/zsawyer/mods/mumblelink/loader/PackageLibraryLoader.java:82-99 | The prefix, library name and path computed and looked up. No contract of its own; `ExtractNotFound` and the examples state its properties. |
| ResourceLookup.LookupOrder | src/main/java/zsawyer/mods/mumblelink/loader/PackageLibraryLoader.java:88-99 | The resource path is looked up first. The bare library name is tried only when the path is absent and starts with the prefix. The lookup fails, naming the path, exactly when both miss. What is found is the resource under the name reported. |
| ResourceLookup.MaterializeAsWritten | src/main/java/zsawyer/mods/mumblelink/loader/PackageLibraryLoader.java:104-152 | The choice of outcome as written, with the stream taken from the resource path. No contract of its own; see `ExtractAsWritten`. |
| ResourceLookup.ExtractAsWritten | src/main/java/zsawyer/mods/mumblelink/loader/PackageLibraryLoader.java:82-152 | extractFromResourcePath as written. No contract of its own; `AsWrittenAgreesExceptFallbackStreams`, `FoundFileUsedInPlace` and `FallbackStreamFailsAsWritten` state its properties. |
| ResourceLookup.Materialize | src/main/java/zsawyer/mods/mumblelink/loader/PackageLibraryLoader.java:104-152 | Corrected loader: the choice of outcome, with the stream taken from the resource that was found. No contract of its own; see `Extract`. |
| ResourceLookup.Extract | src/main/java/zsawyer/mods/mumblelink/loader/PackageLibraryLoader.java:82-152 | Corrected loader: extractFromResourcePath with the stream taken from the resource that was found. No contract of its own; the `Extract…` lemmas, `FoundFileUsedInPlace` and `AbsoluteNameIgnoresMapping` state its properties. |
| ResourceLookup.ExtractNotFound | src/main/java/zsawyer/mods/mumblelink/loader/PackageLibraryLoader.java:82-99 | Corrected loader; the lookup it depends on is shared with the loader as written. Extraction fails with not-found, naming the resource path, if and only if neither lookup step finds a resource. |
| ResourceLookup.ExtractOutcomes | src/main/java/zsawyer/mods/mumblelink/loader/PackageLibraryLoader.java:104-152 | Corrected loader. Each outcome is tied to what the lookup found. A file is used in place only as the path of the `file:` URL that was found, and only if that file exists. The undecodable error carries the `file:` URL that was found, whose file is missing. A temporary copy is made only when unpacking is allowed, of the non-file resource that was found (the path or the library name), with the `.dll`/JVM suffix. `NotUnpacked` happens only under `jna.nounpack`. Opening the stream never fails. This last point is false of lines 120-123 as written; see `AsWrittenAgreesExceptFallbackStreams`. |
| ResourceLookup.FoundFileUsedInPlace | src/main/java/zsawyer/mods/mumblelink/loader/PackageLibraryLoader.java:104-118 | Both loaders. A `file:` URL that was found is used in place: the file if it exists, the undecodable error otherwise. It is never copied to a temporary file, and the loader as written agrees with the corrected one here. |
| ResourceLookup.ExtractUnpacksFoundStreams | src/main/java/zsawyer/mods/mumblelink/loader/PackageLibraryLoader.java:119-152 | Corrected loader, the intended behaviour. Once found, a non-file resource is always copied to a temporary file, unless `jna.nounpack` is set, in which case the result is null. |
| ResourceLookup.AbsoluteNameIgnoresMapping | src/main/java/zsawyer/mods/mumblelink/loader/PackageLibraryLoader.java:83-84 | Corrected loader. For a name starting with `/`, the default library-name mapping has no effect on the lookup or the outcome. |
| ResourceLookup.FallbackStreamFailsAsWritten | src/main/java/zsawyer/mods/mumblelink/loader/PackageLibraryLoader.java:88-123 | As written, a non-file library found only by the fallback always fails with "Can't obtain InputStream". The corrected loader copies it. |
| ResourceLookup.AsWrittenAgreesExceptFallbackStreams | src/main/java/zsawyer/mods/mumblelink/loader/PackageLibraryLoader.java:88-152 | The loader as written and the corrected one give different results exactly when the fallback found a non-file library and unpacking is allowed. That is also exactly when the loader as written fails with "Can't obtain InputStream". Everywhere else, including a `file:` library found by the fallback and any library under `jna.nounpack`, the loader as written has the outcomes stated for the corrected one. |
| ResourceLookup.FallbackStreamFailureExample | src/main/java/zsawyer/mods/mumblelink/loader/PackageLibraryLoader.java:88-123 | Concrete case on Mac: `mumble` → `libmumble.dylib`, packaged at the jar root. As written it fails for `darwin/libmumble.dylib`; corrected, it is copied from `libmumble.dylib`. |
| ResourceLookup.LinuxAmd64Example | src/main/java/zsawyer/mods/mumblelink/loader/PackageLibraryLoader.java:82-152 | End to end on Linux with `amd64`: `mumble`, mapped to `libmumble.so`, is found at `linux-x86-64/libmumble.so`. A jar entry there is copied to a temporary file with the JVM's suffix, by both loaders. |
| ResourceLookup.LinuxExampleLibName | src/main/java/zsawyer/mods/mumblelink/loader/PackageLibraryLoader.java:171-183 | On Linux `mumble` is neither versioned nor `.so`, so it gets the default mapping. |
| ResourceLookup.MacExampleLocated | src/main/java/zsawyer/mods/mumblelink/loader/PackageLibraryLoader.java:82-92 | In that case, the lookup of `darwin/libmumble.dylib` misses and the fallback finds the jar entry `libmumble.dylib`. |

## Left out

- `loadLibrary` (`PackageLibraryLoader.java:47-67`) is not modelled. It hands the extracted file to JNA (`NativeLibrary.getInstance`, `Native.loadLibrary`), which are foreign calls. Its null dereference when `jna.nounpack` yields `null` is not modelled either.
- The choice of class loader (lines 72-78) is not modelled. The resource space is a parameter.
- The `DEBUG` output (lines 71, 79-81, 100-102, 112-114) is not modelled. It is switched off by a constant and only prints.
- Temporary-file creation, `deleteOnExit` under `jnidispatch.preserve`, the buffered copy loop, stream closing and the "Failed to create temporary file" error (lines 124-150) are left out as I/O. `TempCopy` records only which resource is copied and the suffix requested.
- `getTempDir` (lines 202-227) is left out as file-system I/O. That includes `jna.tmpdir`, the per-user directory named after `user.name`'s hash code, and its errors.
- Decoding a `file:` URL (lines 106-111, `new URI` with the `getPath` fallback) is left out. A `Url` carries the path it decodes to.
- The class-path listing in the not-found message (lines 93-97) is left out. `NotFound` keeps only the resource path.
- The class loader's resource space is a map: `getResource` and `getResourceAsStream` agree and do not change during one call.
- Strings.Lower: only ASCII letters are lower-cased. Java's `toLowerCase` also converts other Unicode letters and depends on the default locale. This affects `os.arch`, `os.name` and the URL protocol.
- LibraryNames.IsDigit: accepts only `0`-`9`. `Character.isDigit` also accepts other Unicode decimal digits.
- Platform.IsWindows: taken to mean JNA's `WINDOWS` or `WINDOWSCE` type. JNA's `Platform` class is not part of this model.
- Platform.CanonicalArchitecture: a null `os.arch`, for which the source throws a `NullPointerException`, is not modelled. The architecture is always a string.

## Findings

| source | as written | input that shows it | evidently intended | confidence | as-written member | corrected member |
|---|---|---|---|---|---|---|
| src/main/java/zsawyer/mods/mumblelink/loader/PackageLibraryLoader.java:120-123 | The stream is opened with `getResourceAsStream(resourcePath)`, even when the URL was found by the fallback under `libname`, where `resourcePath` has just been shown to be absent. | Mac, `mumble` mapped to `libmumble.dylib`, with `libmumble.dylib` at the root of a jar and nothing at `darwin/libmumble.dylib`: the fallback finds it, then extraction fails with "Can't obtain InputStream for darwin/libmumble.dylib". | Open the stream of the resource that was found, so the fallback works for jar-packaged libraries as it does for `file:` ones. | not executed | ResourceLookup.FallbackStreamFailsAsWritten | ResourceLookup.ExtractUnpacksFoundStreams |
