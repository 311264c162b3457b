/**
 * The decision part of PackageLibraryLoader.extractFromResourcePath: which resource path is
 * looked up, the fallback lookup without the platform prefix, the not-found error, and the
 * choice between using a resource that already is a file, copying it to a temporary file, and
 * returning nothing when unpacking is disabled (`jna.nounpack`).
 *
 * The class loader's resource space is a map from resource names to the URL the loader would
 * return; files that exist on disk are a set of paths.
 */
module ResourceLookup {
  import opened Wrappers
  import opened Strings
  import opened Platform
  import opened LibraryNames

  /** A resource URL: its protocol and the file path it decodes to. */
  datatype Url = Url(protocol: string, path: string)

  /** The system properties the loader reads: os type, `os.arch`, `os.name`, `sun.cpu.endian`, `jna.nounpack`. */
  datatype Environment = Environment(
    os: OSType, osArch: string, osName: string, endian: Option<string>, noUnpack: bool)

  /** What the loader hands on to the native loader. */
  datatype Extracted =
    | DirectFile(path: string)
      // the resource already is a file on disk: use it in place
    | TempCopy(source: string, suffix: Option<string>)
      // a fresh temporary file holding the bytes of resource `source`; the suffix is chosen
      // by the loader (`.dll` on Windows) or left to the JVM (`None`)
    | NotUnpacked
      // `jna.nounpack` is set and the resource is not a file: the loader returns null

  /** The IOExceptions of the decision logic. */
  datatype LoadError =
    | NotFound(resourcePath: string)   // "Native library (...) not found in resource path (...)"
    | Undecodable(url: Url)            // "File URL ... could not be properly decoded"
    | NoStream(resourcePath: string)   // "Can't obtain InputStream for ..."

  /** A URL returned by the class loader and the resource name it was found under. */
  datatype Found = Found(url: Url, at: string)

  /** The resource path that was computed and what the lookup found. */
  datatype Located = Located(path: string, found: Found)

  /** The library file name: a name starting with `/` is kept as given, any other is mapped. */
  function LibName(os: OSType, name: string, mapLibraryName: string -> string): string {
    if StartsWith(name, "/") then name else MapSharedLibraryName(os, name, mapLibraryName)
  }

  /**
   * The resource path: a name starting with `/` is used as it is, any other becomes
   * `<prefix>/<libname>`; one leading `/` is then stripped.
   */
  function ResourcePath(name: string, prefix: string, libname: string): string {
    var path := if StartsWith(name, "/") then name else prefix + "/" + libname;
    if StartsWith(path, "/") then path[1..] else path
  }

  /**
   * A name starting with `/` is both the library name and, without that `/`, the resource path:
   * no mapping and no prefix. Any other name gives `<prefix>/<mapped name>`, with one leading `/`
   * stripped should the prefix itself begin with one.
   */
  lemma ResourcePathShape(os: OSType, name: string, prefix: string, mapLibraryName: string -> string)
    ensures var libname := LibName(os, name, mapLibraryName);
            var path := ResourcePath(name, prefix, libname);
            (StartsWith(name, "/") ==> libname == name && "/" + path == name) &&
            (!StartsWith(name, "/") ==>
               libname == MapSharedLibraryName(os, name, mapLibraryName) &&
               (prefix != [] && !StartsWith(prefix, "/") ==> path == prefix + "/" + libname) &&
               (prefix == [] || StartsWith(prefix, "/") ==> "/" + path == prefix + "/" + libname))
  {
    var libname := LibName(os, name, mapLibraryName);
    var path := ResourcePath(name, prefix, libname);
    if StartsWith(name, "/") {
      assert name == [name[0]] + name[1..];
    } else {
      var raw := prefix + "/" + libname;
      if StartsWith(prefix, "/") {
        assert raw[..1] == prefix[..1];
        assert raw == [raw[0]] + raw[1..];
      } else if |prefix| > 0 {
        assert raw[..1] == prefix[..1];
      } else {
        assert raw == [raw[0]] + raw[1..];
      }
    }
  }

  /**
   * The lookup: the resource path first; if it is absent and the path starts with the prefix,
   * the bare library name; otherwise not found, naming the resource path.
   */
  function Lookup(resources: map<string, Url>, prefix: string, libname: string, path: string)
    : Result<Found, LoadError>
  {
    if path in resources then Ok(Found(resources[path], path))
    else if StartsWith(path, prefix) && libname in resources then Ok(Found(resources[libname], libname))
    else Err(NotFound(path))
  }

  /**
   * What the lookup finds is a resource of the space under the name it reports. It is the
   * resource path whenever that is present; the library name is used only when the path is
   * absent and starts with the prefix. The lookup fails, naming the path, exactly when neither
   * step finds anything.
   */
  lemma LookupOrder(resources: map<string, Url>, prefix: string, libname: string, path: string)
    ensures var r := Lookup(resources, prefix, libname, path);
            (r.Ok? ==> r.value.at in resources && resources[r.value.at] == r.value.url) &&
            (path in resources ==> r.Ok? && r.value.at == path) &&
            (r.Ok? && r.value.at != path ==>
               path !in resources && StartsWith(path, prefix) && r.value.at == libname) &&
            (r.Err? <==> path !in resources && (!StartsWith(path, prefix) || libname !in resources)) &&
            (r.Err? ==> r.error == NotFound(path))
  {
  }

  /** Lines 82-99 of the source: compute the prefix, the library name and the path, and look up. */
  function Locate(env: Environment, name: string, resources: map<string, Url>,
                  mapLibraryName: string -> string): Result<Located, LoadError>
  {
    var prefix := ResourcePrefix(env.os, env.osArch, env.osName, env.endian);
    var libname := LibName(env.os, name, mapLibraryName);
    var path := ResourcePath(name, prefix, libname);
    match Lookup(resources, prefix, libname, path)
    case Err(e) => Err(e)
    case Ok(found) => Ok(Located(path, found))
  }

  /** `url.getProtocol().toLowerCase().equals("file")`. */
  predicate IsFileUrl(url: Url) {
    Lower(url.protocol) == "file"
  }

  /** The temporary file's suffix: `.dll` on Windows, the JVM's choice elsewhere. */
  function TempSuffix(os: OSType): Option<string> {
    if IsWindows(os) then Some(".dll") else None
  }

  /**
   * Lines 104-152 as written: a file URL is used in place if the file exists; otherwise, unless
   * `jna.nounpack` is set, the bytes are streamed from the resource PATH, which fails when the
   * resource was only found under the library name.
   */
  function MaterializeAsWritten(env: Environment, resources: map<string, Url>, located: Located,
                                existingFiles: set<string>): Result<Extracted, LoadError>
  {
    var url := located.found.url;
    if IsFileUrl(url) then
      if url.path in existingFiles then Ok(DirectFile(url.path)) else Err(Undecodable(url))
    else if !env.noUnpack then
      if located.path in resources then Ok(TempCopy(located.path, TempSuffix(env.os)))
      else Err(NoStream(located.path))
    else
      Ok(NotUnpacked)
  }

  /**
   * Lines 104-152 with the stream opened on the resource that was actually found, so that a
   * library found by the fallback lookup is copied like any other.
   */
  function Materialize(env: Environment, located: Located, existingFiles: set<string>)
    : Result<Extracted, LoadError>
  {
    var url := located.found.url;
    if IsFileUrl(url) then
      if url.path in existingFiles then Ok(DirectFile(url.path)) else Err(Undecodable(url))
    else if !env.noUnpack then
      Ok(TempCopy(located.found.at, TempSuffix(env.os)))
    else
      Ok(NotUnpacked)
  }

  /** extractFromResourcePath as written. */
  function ExtractAsWritten(env: Environment, name: string, resources: map<string, Url>,
                            existingFiles: set<string>, mapLibraryName: string -> string)
    : Result<Extracted, LoadError>
  {
    match Locate(env, name, resources, mapLibraryName)
    case Err(e) => Err(e)
    case Ok(located) => MaterializeAsWritten(env, resources, located, existingFiles)
  }

  /** extractFromResourcePath, with the stream taken from the resource that was found. */
  function Extract(env: Environment, name: string, resources: map<string, Url>,
                   existingFiles: set<string>, mapLibraryName: string -> string)
    : Result<Extracted, LoadError>
  {
    match Locate(env, name, resources, mapLibraryName)
    case Err(e) => Err(e)
    case Ok(located) => Materialize(env, located, existingFiles)
  }

  /**
   * The not-found error is raised exactly when neither the resource path nor, under the prefix
   * condition, the library name is a resource; it names the resource path.
   */
  lemma ExtractNotFound(env: Environment, name: string, resources: map<string, Url>,
                        existingFiles: set<string>, mapLibraryName: string -> string)
    ensures var prefix := ResourcePrefix(env.os, env.osArch, env.osName, env.endian);
            var libname := LibName(env.os, name, mapLibraryName);
            var path := ResourcePath(name, prefix, libname);
            var r := Extract(env, name, resources, existingFiles, mapLibraryName);
            (r.Err? && r.error.NotFound? <==>
               path !in resources && (!StartsWith(path, prefix) || libname !in resources)) &&
            (r.Err? && r.error.NotFound? ==> r.error.resourcePath == path)
  {
    var prefix := ResourcePrefix(env.os, env.osArch, env.osName, env.endian);
    var libname := LibName(env.os, name, mapLibraryName);
    var path := ResourcePath(name, prefix, libname);
    LookedUpNotFound(env, Lookup(resources, prefix, libname, path), path, existingFiles);
    LookupOrder(resources, prefix, libname, path);
  }

  /** Only the lookup raises the not-found error; materialising a found resource never does. */
  lemma LookedUpNotFound(env: Environment, lookup: Result<Found, LoadError>, path: string,
                         existingFiles: set<string>)
    ensures var r := match lookup
                     case Err(e) => Err(e)
                     case Ok(found) => Materialize(env, Located(path, found), existingFiles);
            r.Err? && r.error.NotFound? <==> lookup.Err? && lookup.error.NotFound?
  {
  }

  /**
   * Each outcome of a successful lookup, and when it happens. A library is used in place only
   * when a file URL was found and its file exists; a file URL whose file is missing is the
   * undecodable error; any other URL is copied to a temporary file from the resource that was
   * found (the resource path, or the library name by the fallback) unless `jna.nounpack` is
   * set, in which case nothing is returned. The corrected loader never fails to open a stream.
   */
  lemma ExtractOutcomes(env: Environment, name: string, resources: map<string, Url>,
                        existingFiles: set<string>, mapLibraryName: string -> string)
    ensures var prefix := ResourcePrefix(env.os, env.osArch, env.osName, env.endian);
            var libname := LibName(env.os, name, mapLibraryName);
            var path := ResourcePath(name, prefix, libname);
            var l := Locate(env, name, resources, mapLibraryName);
            var r := Extract(env, name, resources, existingFiles, mapLibraryName);
            (r.Ok? ==> l.Ok?) &&
            (forall p :: r == Ok(DirectFile(p)) ==>
               p in existingFiles && IsFileUrl(l.value.found.url) && p == l.value.found.url.path &&
               ((path in resources && IsFileUrl(resources[path]) && resources[path].path == p) ||
                (libname in resources && IsFileUrl(resources[libname]) && resources[libname].path == p))) &&
            (forall u :: r == Err(Undecodable(u)) ==>
               IsFileUrl(u) && u.path !in existingFiles && u in resources.Values &&
               l.Ok? && u == l.value.found.url) &&
            (forall src, sfx :: r == Ok(TempCopy(src, sfx)) ==>
               !env.noUnpack && l.Ok? && src == l.value.found.at && sfx == TempSuffix(env.os) && (src == path || src == libname) &&
               src in resources && !IsFileUrl(resources[src])) &&
            (r == Ok(NotUnpacked) ==> env.noUnpack) &&
            !(r.Err? && r.error.NoStream?)
  {
    var prefix := ResourcePrefix(env.os, env.osArch, env.osName, env.endian);
    var libname := LibName(env.os, name, mapLibraryName);
    var path := ResourcePath(name, prefix, libname);
    LookupOrder(resources, prefix, libname, path);
  }

  /**
   * A `file:` URL that was found is used in place, by the loader as written and the corrected
   * one alike: the file itself when it exists, the undecodable error otherwise, and never a
   * temporary copy.
   */
  lemma FoundFileUsedInPlace(env: Environment, name: string, resources: map<string, Url>,
                             existingFiles: set<string>, mapLibraryName: string -> string)
    ensures var l := Locate(env, name, resources, mapLibraryName);
            var r := Extract(env, name, resources, existingFiles, mapLibraryName);
            var w := ExtractAsWritten(env, name, resources, existingFiles, mapLibraryName);
            l.Ok? && IsFileUrl(l.value.found.url) ==>
              var url := l.value.found.url;
              r == w &&
              (url.path in existingFiles ==> r == Ok(DirectFile(url.path))) &&
              (url.path !in existingFiles ==> r == Err(Undecodable(url))) &&
              !(r.Ok? && r.value.TempCopy?)
  {
  }

  /**
   * Once the library has been found, a URL that is not a file is always copied to a temporary
   * file unless `jna.nounpack` is set; with it set, the result is null.
   */
  lemma ExtractUnpacksFoundStreams(env: Environment, name: string, resources: map<string, Url>,
                                   existingFiles: set<string>, mapLibraryName: string -> string)
    ensures var l := Locate(env, name, resources, mapLibraryName);
            var r := Extract(env, name, resources, existingFiles, mapLibraryName);
            l.Ok? && !IsFileUrl(l.value.found.url) ==>
              (env.noUnpack ==> r == Ok(NotUnpacked)) &&
              (!env.noUnpack ==> r == Ok(TempCopy(l.value.found.at, TempSuffix(env.os))))
  {
  }

  /** A name starting with `/` is looked up as given: the mapping of library names plays no part. */
  lemma AbsoluteNameIgnoresMapping(env: Environment, name: string, resources: map<string, Url>,
                                   existingFiles: set<string>, m1: string -> string, m2: string -> string)
    requires StartsWith(name, "/")
    ensures Locate(env, name, resources, m1) == Locate(env, name, resources, m2)
    ensures Extract(env, name, resources, existingFiles, m1)
            == Extract(env, name, resources, existingFiles, m2)
  {
  }

  /**
   * As written, when the library is found only under its bare name (the fallback) and is not a
   * file, the stream is requested for the resource path that was just shown to be absent, so
   * extraction always fails with "Can't obtain InputStream"; the corrected loader copies the
   * resource that was found.
   */
  lemma FallbackStreamFailsAsWritten(env: Environment, name: string, resources: map<string, Url>,
                                     existingFiles: set<string>, mapLibraryName: string -> string)
    requires Locate(env, name, resources, mapLibraryName).Ok?
    requires Locate(env, name, resources, mapLibraryName).value.found.at
             != Locate(env, name, resources, mapLibraryName).value.path
    requires !IsFileUrl(Locate(env, name, resources, mapLibraryName).value.found.url)
    requires !env.noUnpack
    ensures var l := Locate(env, name, resources, mapLibraryName).value;
            ExtractAsWritten(env, name, resources, existingFiles, mapLibraryName)
              == Err(NoStream(l.path)) &&
            Extract(env, name, resources, existingFiles, mapLibraryName)
              == Ok(TempCopy(l.found.at, TempSuffix(env.os)))
  {
    var prefix := ResourcePrefix(env.os, env.osArch, env.osName, env.endian);
    var libname := LibName(env.os, name, mapLibraryName);
    var path := ResourcePath(name, prefix, libname);
    LookupOrder(resources, prefix, libname, path);
  }

  /**
   * The library was found by the fallback, is not a file, and unpacking is allowed: the one case
   * in which the source streams from a resource other than the one it found.
   */
  predicate FallbackStream(env: Environment, l: Result<Located, LoadError>) {
    l.Ok? && l.value.found.at != l.value.path && !IsFileUrl(l.value.found.url) && !env.noUnpack
  }

  /**
   * The loader as written and the corrected one differ exactly on fallback streams, and that is
   * exactly when the one as written fails to obtain a stream. Everywhere else, including a
   * `file:` resource found by the fallback and every resource under `jna.nounpack`, the loader
   * as written has all the outcomes `ExtractOutcomes` states.
   */
  lemma AsWrittenAgreesExceptFallbackStreams(env: Environment, name: string,
                                             resources: map<string, Url>,
                                             existingFiles: set<string>,
                                             mapLibraryName: string -> string)
    ensures var l := Locate(env, name, resources, mapLibraryName);
            var w := ExtractAsWritten(env, name, resources, existingFiles, mapLibraryName);
            var e := Extract(env, name, resources, existingFiles, mapLibraryName);
            (w == e <==> !FallbackStream(env, l)) &&
            (w.Err? && w.error.NoStream? <==> FallbackStream(env, l))
  {
    var l := Locate(env, name, resources, mapLibraryName);
    var prefix := ResourcePrefix(env.os, env.osArch, env.osName, env.endian);
    var libname := LibName(env.os, name, mapLibraryName);
    var path := ResourcePath(name, prefix, libname);
    LookupOrder(resources, prefix, libname, path);
    if FallbackStream(env, l) {
      FallbackStreamFailsAsWritten(env, name, resources, existingFiles, mapLibraryName);
    }
  }

  /**
   * An input that shows the stream failure: on Mac, library `mumble` mapped to `libmumble.dylib`
   * and packaged at the root of a jar, not under `darwin/`. The lookup of
   * `darwin/libmumble.dylib` fails, the fallback finds `libmumble.dylib`, and the stream is then
   * requested for `darwin/libmumble.dylib`.
   */
  lemma FallbackStreamFailureExample(env: Environment, name: string, resources: map<string, Url>,
                                     mapLibraryName: string -> string)
    requires env.os == Mac && !env.noUnpack
    requires name == "mumble" && mapLibraryName(name) == "libmumble.dylib"
    requires resources == map["libmumble.dylib" := Url("jar", "/mods/mumblelink.jar")]
    ensures ExtractAsWritten(env, name, resources, {}, mapLibraryName)
            == Err(NoStream("darwin/libmumble.dylib"))
    ensures Extract(env, name, resources, {}, mapLibraryName)
            == Ok(TempCopy("libmumble.dylib", None))
  {
    MacExampleLocated(env, name, resources, mapLibraryName);
    FallbackStreamFailsAsWritten(env, name, resources, {}, mapLibraryName);
  }

  /** The lookup of the example: found by the fallback, under the bare library name. */
  lemma MacExampleLocated(env: Environment, name: string, resources: map<string, Url>,
                          mapLibraryName: string -> string)
    requires env.os == Mac
    requires name == "mumble" && mapLibraryName(name) == "libmumble.dylib"
    requires resources == map["libmumble.dylib" := Url("jar", "/mods/mumblelink.jar")]
    ensures Locate(env, name, resources, mapLibraryName)
            == Ok(Located("darwin/libmumble.dylib",
                          Found(Url("jar", "/mods/mumblelink.jar"), "libmumble.dylib")))
    ensures !IsFileUrl(Url("jar", "/mods/mumblelink.jar"))
  {
    MacExampleLibName(name, mapLibraryName);
    MacExamplePath("darwin", "libmumble.dylib");
    assert Lower("jar")[0] == 'j';
  }

  /** On Mac `mumble` is not a library file name of its own; its mapped name is kept. */
  lemma MacExampleLibName(name: string, mapLibraryName: string -> string)
    requires name == "mumble" && mapLibraryName(name) == "libmumble.dylib"
    ensures LibName(Mac, name, mapLibraryName) == "libmumble.dylib"
  {
    assert name[0] == 'm' && name[..1][0] == 'm' && name[..3][0] == 'm';
    MacMapping(name, mapLibraryName);
    var m := mapLibraryName(name);
    assert m[|m| - 7] == 'e';
    assert m[|m| - 7..][0] == 'e';
  }

  /** `mumble` under the Mac prefix: `darwin/libmumble.dylib`, which the fallback condition accepts. */
  lemma MacExamplePath(prefix: string, libname: string)
    requires prefix == "darwin" && libname == "libmumble.dylib"
    ensures ResourcePath("mumble", prefix, libname) == "darwin/libmumble.dylib"
    ensures StartsWith("darwin/libmumble.dylib", prefix)
    ensures "darwin/libmumble.dylib" != libname
  {
    assert "mumble"[0] == 'm';
    assert (prefix + "/" + libname)[0] == 'd';
    assert "darwin/libmumble.dylib"[..6] == prefix;
  }

  /**
   * The usual case on 64-bit Linux: `mumble`, mapped to `libmumble.so`, is found at
   * `linux-x86-64/libmumble.so`; a jar entry there is copied to a temporary file with the JVM's
   * suffix, by the loader as written and by the corrected one alike.
   */
  lemma LinuxAmd64Example(env: Environment, name: string, resources: map<string, Url>,
                          existingFiles: set<string>, mapLibraryName: string -> string)
    requires env.os == Linux && env.osArch == "amd64" && !env.noUnpack
    requires name == "mumble" && mapLibraryName(name) == "libmumble.so"
    requires resources == map["linux-x86-64/libmumble.so" := Url("jar", "/mods/mumblelink.jar")]
    ensures Locate(env, name, resources, mapLibraryName)
            == Ok(Located("linux-x86-64/libmumble.so",
                          Found(Url("jar", "/mods/mumblelink.jar"), "linux-x86-64/libmumble.so")))
    ensures Extract(env, name, resources, existingFiles, mapLibraryName)
            == Ok(TempCopy("linux-x86-64/libmumble.so", None))
    ensures ExtractAsWritten(env, name, resources, existingFiles, mapLibraryName)
            == Ok(TempCopy("linux-x86-64/libmumble.so", None))
  {
    ResourcePrefixLinuxAmd64(env.osArch, env.osName, env.endian);
    LinuxExampleLibName(name, mapLibraryName);
    LinuxExamplePath("linux-x86-64", "libmumble.so");
    assert Lower("jar")[0] == 'j';
  }

  /** On Linux `mumble` is neither a versioned nor a `.so` name, so it gets the default mapping. */
  lemma LinuxExampleLibName(name: string, mapLibraryName: string -> string)
    requires name == "mumble" && mapLibraryName(name) == "libmumble.so"
    ensures LibName(Linux, name, mapLibraryName) == "libmumble.so"
  {
    assert name[0] == 'm' && name[..1][0] == 'm' && name[..3][0] == 'm';
    assert name[5] == 'e' && name[3..][2] == 'e';
    NonMacMapping(Linux, name, mapLibraryName);
  }

  /** `mumble` under the Linux prefix: `linux-x86-64/libmumble.so`. */
  lemma LinuxExamplePath(prefix: string, libname: string)
    requires prefix == "linux-x86-64" && libname == "libmumble.so"
    ensures ResourcePath("mumble", prefix, libname) == "linux-x86-64/libmumble.so"
  {
    assert "mumble"[0] == 'm';
    assert (prefix + "/" + libname)[0] == 'l';
  }
}
