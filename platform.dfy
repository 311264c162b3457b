/**
 * Platform fingerprinting: the canonical CPU architecture token and the resource-directory
 * prefix (`linux-x86-64`, `win32-x86`, `darwin`, ...) under which a bundled native library
 * is looked up (PackageLibraryLoader.getCanonicalArchitecture and
 * PackageLibraryLoader.getNativeLibraryResourcePrefix).
 */
module Platform {
  import opened Wrappers
  import opened Strings

  /**
   * The operating-system families the loader distinguishes (JNA's Platform.getOSType()).
   * Every other JNA operating-system type (AIX, Android, GNU, kFreeBSD, NetBSD, ...) is `Other`.
   */
  datatype OSType = Mac | Linux | Windows | Solaris | FreeBSD | OpenBSD | WindowsCE | Other

  /** JNA's Platform.isWindows(): desktop Windows and Windows CE. */
  predicate IsWindows(os: OSType) {
    os == Windows || os == WindowsCE
  }

  /** The architecture aliases, as a table: the reference for `Alias`. */
  const Aliases: map<string, string> :=
    map["powerpc" := "ppc", "powerpc64" := "ppc64", "i386" := "x86", "i686" := "x86",
        "x86_64" := "x86-64", "amd64" := "x86-64"]

  /** The if-chain that renames a lower-cased, trimmed architecture token. */
  function Alias(t: string): string {
    if t == "powerpc" then "ppc"
    else if t == "powerpc64" then "ppc64"
    else if t == "i386" || t == "i686" then "x86"
    else if t == "x86_64" || t == "amd64" then "x86-64"
    else t
  }

  /** Renaming keeps a token in canonical form. */
  lemma AliasKeepsCanonicalForm(t: string)
    requires IsLowered(t) && IsTrimmed(t)
    ensures IsLowered(Alias(t)) && IsTrimmed(Alias(t))
  {
  }

  /** Renaming is idempotent: the table's targets are not themselves aliases. */
  lemma AliasIdempotent(t: string)
    ensures Alias(Alias(t)) == Alias(t)
  {
  }

  /** The if-chain renames exactly the tokens of the alias table, to their table entries. */
  lemma AliasMatchesTable(t: string)
    ensures Alias(t) == if t in Aliases then Aliases[t] else t
  {
  }

  /**
   * The workaround for OpenJDK misreporting `os.arch` on 64-bit little-endian PowerPC: `ppc64`
   * becomes `ppc64le` when the reported byte order (`sun.cpu.endian`, `None` when the property
   * is unset) is "little"; every other token is kept.
   */
  function EndianFix(a: string, endian: Option<string>): string {
    if a == "ppc64" && endian == Some("little") then "ppc64le" else a
  }

  /** The alias step and the byte-order step keep a token in canonical form. */
  lemma FixedAliasKeepsCanonicalForm(t: string, endian: Option<string>)
    requires IsLowered(t) && IsTrimmed(t)
    ensures IsLowered(EndianFix(Alias(t), endian)) && IsTrimmed(EndianFix(Alias(t), endian))
  {
    AliasKeepsCanonicalForm(t);
  }

  /**
   * getCanonicalArchitecture: lower-case and trim `arch`, apply the alias table, then the
   * byte-order workaround.
   */
  function CanonicalArchitecture(arch: string, endian: Option<string>): string {
    EndianFix(Alias(Trim(Lower(arch))), endian)
  }

  /** The canonical token has no upper-case letter and no blank at either end. */
  lemma CanonicalArchitectureForm(arch: string, endian: Option<string>)
    ensures IsLowered(CanonicalArchitecture(arch, endian))
    ensures IsTrimmed(CanonicalArchitecture(arch, endian))
  {
    TrimKeepsLowered(Lower(arch));
    FixedAliasKeepsCanonicalForm(Trim(Lower(arch)), endian);
  }

  /** The alias step followed by the byte-order step is idempotent on any token. */
  lemma FixedAliasIdempotent(t: string, endian: Option<string>)
    ensures EndianFix(Alias(EndianFix(Alias(t), endian)), endian) == EndianFix(Alias(t), endian)
  {
    AliasIdempotent(t);
    if Alias(t) == "ppc64" && endian == Some("little") {
      assert Alias("ppc64le") == "ppc64le";
    }
  }

  /** Canonicalising a canonical token changes nothing, whatever the byte order. */
  lemma CanonicalArchitectureIdempotent(arch: string, endian: Option<string>)
    ensures CanonicalArchitecture(CanonicalArchitecture(arch, endian), endian)
            == CanonicalArchitecture(arch, endian)
  {
    var r := CanonicalArchitecture(arch, endian);
    CanonicalArchitectureForm(arch, endian);
    LoweredIsFixed(r);
    assert Trim(Lower(r)) == r;
    FixedAliasIdempotent(Trim(Lower(arch)), endian);
  }

  /**
   * Byte order matters only for `ppc64`: a token that the alias table does not turn into
   * `ppc64` canonicalises the same way under every byte order.
   */
  lemma EndianOnlyAffectsPpc64(arch: string, e1: Option<string>, e2: Option<string>)
    ensures Alias(Trim(Lower(arch))) != "ppc64" ==>
              CanonicalArchitecture(arch, e1) == CanonicalArchitecture(arch, e2)
  {
  }

  /** `ppc64le` is never an alias target: it comes only from itself or from the workaround. */
  lemma Ppc64leOrigin(t: string, endian: Option<string>)
    ensures EndianFix(Alias(t), endian) == "ppc64le" <==>
              t == "ppc64le" || (Alias(t) == "ppc64" && endian == Some("little"))
  {
    if t == "ppc64le" {
      assert Alias(t) == "ppc64le";
    }
  }

  /**
   * The result is `ppc64le` exactly when the trimmed, lower-cased token already is, or when it
   * is an alias of `ppc64` and the byte order is "little".
   */
  lemma CanonicalArchitecturePpc64le(arch: string, endian: Option<string>)
    ensures CanonicalArchitecture(arch, endian) == "ppc64le" <==>
              Trim(Lower(arch)) == "ppc64le" ||
              (Alias(Trim(Lower(arch))) == "ppc64" && endian == Some("little"))
  {
    Ppc64leOrigin(Trim(Lower(arch)), endian);
  }

  /** A token already lower-cased and trimmed goes straight to the alias and byte-order steps. */
  lemma CanonicalArchitectureOfToken(t: string, endian: Option<string>)
    requires IsLowered(t) && IsTrimmed(t)
    ensures CanonicalArchitecture(t, endian) == EndianFix(Alias(t), endian)
  {
    LoweredIsFixed(t);
  }

  /** `amd64`, as reported by 64-bit JVMs on Linux, is `x86-64` whatever the byte order. */
  lemma CanonicalArchitectureAmd64(arch: string, endian: Option<string>)
    requires arch == "amd64"
    ensures CanonicalArchitecture(arch, endian) == "x86-64"
  {
    assert IsLowered(arch) && IsTrimmed(arch);
    CanonicalArchitectureOfToken(arch, endian);
  }

  /** `i686` is `x86` whatever the byte order. */
  lemma CanonicalArchitectureI686(arch: string, endian: Option<string>)
    requires arch == "i686"
    ensures CanonicalArchitecture(arch, endian) == "x86"
  {
    assert IsLowered(arch) && IsTrimmed(arch);
    CanonicalArchitectureOfToken(arch, endian);
  }

  /**
   * The operating-system part of the prefix for an unlisted OS: the lower-cased OS name cut
   * before its first space.
   */
  function OsNamePart(name: string): (r: string)
    ensures ' ' !in r
    ensures StartsWith(Lower(name), r)
    ensures |r| < |name| ==> Lower(name)[|r|] == ' '
    ensures ' ' !in Lower(name) ==> r == Lower(name)
  {
    var l := Lower(name);
    var space := IndexOf(l, ' ');
    if space != -1 then l[..space] else l
  }

  /**
   * The operating-system tag of the prefix on every system but Mac: fixed for the listed
   * systems, derived from the OS name (`os.name`) for the others. It never holds a space.
   */
  function OsTag(os: OSType, name: string): (tag: string)
    requires os != Mac
    ensures ' ' !in tag
  {
    match os
    case Windows => "win32"
    case WindowsCE => "w32ce"
    case Linux => "linux"
    case Solaris => "sunos"
    case FreeBSD => "freebsd"
    case OpenBSD => "openbsd"
    case Other => OsNamePart(name)
  }

  /**
   * getNativeLibraryResourcePrefix: the directory of the bundled library for this operating
   * system and architecture, `darwin` on Mac and `<tag>-<canonical arch>` elsewhere (the source's
   * switch, with the dash and architecture that all its other branches append written once).
   */
  function ResourcePrefix(os: OSType, arch: string, name: string, endian: Option<string>): string {
    if os == Mac then "darwin" else OsTag(os, name) + "-" + CanonicalArchitecture(arch, endian)
  }

  /** The tag of a prefix: what comes before the dash that introduces the architecture `a`. */
  function TagOf(r: string, a: string): string
    requires |r| > |a|
  {
    r[..|r| - |a| - 1]
  }

  /** `tag + "-" + a` splits back into `tag` and `"-" + a`. */
  lemma SplitsAtDash(r: string, tag: string, a: string)
    requires r == tag + "-" + a
    ensures |r| > |a| && r[|r| - |a| - 1..] == "-" + a && TagOf(r, a) == tag
  {
    assert r[|r| - |a| - 1..] == "-" + a;
    assert r[..|r| - |a| - 1] == tag;
  }

  /**
   * The prefix is `darwin` on Mac whatever the architecture. On every other system it splits
   * into its tag, which holds no space, a dash and the canonical architecture; for an unlisted
   * system the tag is the lower-cased OS name cut before its first space.
   */
  lemma ResourcePrefixShape(os: OSType, arch: string, name: string, endian: Option<string>)
    ensures os == Mac ==> ResourcePrefix(os, arch, name, endian) == "darwin"
    ensures os != Mac ==>
              var r := ResourcePrefix(os, arch, name, endian);
              var a := CanonicalArchitecture(arch, endian);
              |r| > |a| && r[|r| - |a| - 1..] == "-" + a &&
              TagOf(r, a) == OsTag(os, name) && ' ' !in TagOf(r, a) &&
              (os == Other ==> TagOf(r, a) == OsNamePart(name))
  {
    if os != Mac {
      var r := ResourcePrefix(os, arch, name, endian);
      var a := CanonicalArchitecture(arch, endian);
      SplitsAtDash(r, OsTag(os, name), a);
    }
  }

  /** Passing an architecture that is already canonical yields the same prefix. */
  lemma ResourcePrefixCanonicalArch(os: OSType, arch: string, name: string, endian: Option<string>)
    ensures ResourcePrefix(os, CanonicalArchitecture(arch, endian), name, endian)
            == ResourcePrefix(os, arch, name, endian)
  {
    CanonicalArchitectureIdempotent(arch, endian);
  }

  /** On 64-bit Linux with `os.arch` = `amd64` the prefix is `linux-x86-64`. */
  lemma ResourcePrefixLinuxAmd64(arch: string, name: string, endian: Option<string>)
    requires arch == "amd64"
    ensures ResourcePrefix(Linux, arch, name, endian) == "linux-x86-64"
  {
    CanonicalArchitectureAmd64(arch, endian);
  }
}
