/**
 * Shared-library file names (PackageLibraryLoader.mapSharedLibraryName and
 * PackageLibraryLoader.isVersionedName): which names are already in the operating system's
 * shared-library form and are searched for as given, and which go through the JVM's default
 * mapping (System.mapLibraryName, a parameter here).
 */
module LibraryNames {
  import opened Strings
  import opened Platform

  /** `Character.isDigit`, restricted to ASCII digits. */
  predicate IsDigit(c: char) {
    '0' <= c <= '9'
  }

  predicate IsDigitOrDot(c: char) {
    IsDigit(c) || c == '.'
  }

  /**
   * isVersionedName: the name starts with `lib`, the last `.so.` in it is followed by at least
   * one character, and every character after that `.so.` is a digit or a dot.
   */
  predicate IsVersionedName(name: string) {
    StartsWith(name, "lib") &&
    var so := LastIndexOf(name, ".so.");
    so != -1 && so + 4 < |name| &&
    forall i :: so + 4 <= i < |name| ==> IsDigitOrDot(name[i])
  }

  /** The source's scan for isVersionedName: a loop over the version part with an early exit. */
  method CheckVersionedName(name: string) returns (versioned: bool)
    ensures versioned == IsVersionedName(name)
  {
    if StartsWith(name, "lib") {
      var so := LastIndexOf(name, ".so.");
      if so != -1 && so + 4 < |name| {
        var i := so + 4;
        while i < |name|
          invariant so + 4 <= i <= |name|
          invariant forall j :: so + 4 <= j < i ==> IsDigitOrDot(name[j])
        {
          if !IsDigitOrDot(name[i]) {
            return false;
          }
          i := i + 1;
        }
        return true;
      }
    }
    return false;
  }

  /**
   * A `.so.` followed only by digits and dots is the last `.so.` of the name: a later one would
   * need an `s` where only digits and dots may stand.
   */
  lemma NoLaterSoMarker(name: string, k: int)
    requires OccursAt(name, ".so.", k)
    requires forall i :: k + 4 <= i < |name| ==> IsDigitOrDot(name[i])
    ensures forall j :: k < j ==> !OccursAt(name, ".so.", j)
  {
    assert name[k + 1] == 's' && name[k + 2] == 'o' by {
      assert name[k..k + 4] == ".so.";
      assert name[k..k + 4][1] == name[k + 1] && name[k..k + 4][2] == name[k + 2];
    }
    forall j | k < j ensures !OccursAt(name, ".so.", j) {
      if j + 4 <= |name| {
        assert name[j..j + 4][0] == name[j] && name[j..j + 4][1] == name[j + 1];
        if j == k + 1 || j == k + 2 {
          assert name[j] != '.';
        } else {
          assert IsDigitOrDot(name[j + 1]);
        }
      }
    }
  }

  /** Some `.so.` followed by a non-empty run of digits and dots, as `exists` states it. */
  ghost predicate HasVersionSuffix(name: string) {
    exists k :: OccursAt(name, ".so.", k) && k + 4 < |name| &&
                forall i :: k + 4 <= i < |name| ==> IsDigitOrDot(name[i])
  }

  /**
   * A versioned name is one that starts with `lib` and has SOME `.so.` followed by a non-empty
   * run of digits and dots up to its end: that occurrence is necessarily the last one.
   */
  lemma VersionedNameIff(name: string)
    ensures IsVersionedName(name) <==> StartsWith(name, "lib") && HasVersionSuffix(name)
  {
    var so := LastIndexOf(name, ".so.");
    if IsVersionedName(name) {
      assert OccursAt(name, ".so.", so);
    }
    if StartsWith(name, "lib") && HasVersionSuffix(name) {
      var k :| OccursAt(name, ".so.", k) && k + 4 < |name| &&
               forall i :: k + 4 <= i < |name| ==> IsDigitOrDot(name[i]);
      NoLaterSoMarker(name, k);
      assert so == k;
    }
  }

  /**
   * What a versioned name cannot be: one without the `lib` prefix, one ending in `.so.` or one
   * whose last character is neither a digit nor a dot.
   */
  lemma VersionedNameNecessary(name: string)
    requires IsVersionedName(name)
    ensures StartsWith(name, "lib")
    ensures !EndsWith(name, ".so.")
    ensures IsDigitOrDot(name[|name| - 1])
  {
    if EndsWith(name, ".so.") {
      LastIndexOfSuffix(name, ".so.");
    }
  }

  /** `lib<x>.so.<v>` is a versioned name whenever `v` is a non-empty run of digits and dots. */
  lemma VersionedNameIntro(x: string, v: string)
    requires v != [] && forall i :: 0 <= i < |v| ==> IsDigitOrDot(v[i])
    ensures IsVersionedName("lib" + x + ".so." + v)
  {
    var n := "lib" + x + ".so." + v;
    var k := 3 + |x|;
    VersionedNameIff(n);
    assert n[..3] == "lib";
    assert n[k..k + 4] == ".so.";
    forall i | k + 4 <= i < |n| ensures IsDigitOrDot(n[i]) {
      assert n[i] == v[i - k - 4];
    }
    assert OccursAt(n, ".so.", k) && k + 4 < |n|;
  }

  /** `libfoo.so.1.2.3` is a versioned name. */
  lemma VersionedNameAccepts(n: string)
    requires n == "libfoo.so.1.2.3"
    ensures IsVersionedName(n)
  {
    assert n == "lib" + "foo" + ".so." + "1.2.3";
    VersionedNameIntro("foo", "1.2.3");
  }

  /** A letter in the version part disqualifies a name: `libfoo.so.1.2a`. */
  lemma VersionedNameRejectsLetter(n: string)
    requires n == "libfoo.so.1.2a"
    ensures !IsVersionedName(n)
  {
    if IsVersionedName(n) {
      VersionedNameNecessary(n);
    }
  }

  /** So does a missing `lib` prefix: `foo.so.1`. */
  lemma VersionedNameRejectsNoLib(n: string)
    requires n == "foo.so.1"
    ensures !IsVersionedName(n)
  {
    assert n[0] != 'l';
  }

  /** So does an empty version part: `libfoo.so.`. */
  lemma VersionedNameRejectsEmptyVersion(n: string)
    requires n == "libfoo.so."
    ensures !IsVersionedName(n)
  {
    assert EndsWith(n, ".so.") by {
      assert n[6..] == ".so.";
    }
    if IsVersionedName(n) {
      VersionedNameNecessary(n);
    }
  }

  /**
   * A name the mapping keeps as it is on `os`: on Mac a `lib…dylib` or `lib…jnilib` name, on
   * Linux and FreeBSD a versioned or `.so` name, on Windows (and Windows CE) a `.drv` or `.dll`
   * name; on other systems none.
   */
  predicate IsNativeName(os: OSType, name: string) {
    match os
    case Mac => StartsWith(name, "lib") && (EndsWith(name, ".dylib") || EndsWith(name, ".jnilib"))
    case Linux => IsVersionedName(name) || EndsWith(name, ".so")
    case FreeBSD => IsVersionedName(name) || EndsWith(name, ".so")
    case Windows => EndsWith(name, ".drv") || EndsWith(name, ".dll")
    case WindowsCE => EndsWith(name, ".drv") || EndsWith(name, ".dll")
    case _ => false
  }

  /**
   * mapSharedLibraryName: a name already in the system's shared-library form is kept; any other
   * is `mapLibraryName(libName)`, the JVM's default mapping, whose `.jnilib` extension is turned
   * into `.dylib` on Mac.
   */
  function MapSharedLibraryName(os: OSType, libName: string, mapLibraryName: string -> string): string {
    if IsNativeName(os, libName) then
      libName
    else if os == Mac then
      var name := mapLibraryName(libName);
      if EndsWith(name, ".jnilib") then
        LastIndexOfSuffix(name, ".jnilib");
        name[..LastIndexOf(name, ".jnilib")] + ".dylib"
      else
        name
    else
      mapLibraryName(libName)
  }

  /**
   * On Mac a `lib…dylib` or `lib…jnilib` name is returned unchanged. Any other name is mapped,
   * and a mapped name ending in `.jnilib` keeps its stem and gets `.dylib` instead, so this
   * branch never yields a `.jnilib` name.
   */
  lemma MacMapping(libName: string, mapLibraryName: string -> string)
    ensures var r := MapSharedLibraryName(Mac, libName, mapLibraryName);
            var m := mapLibraryName(libName);
            (IsNativeName(Mac, libName) ==> r == libName) &&
            (!IsNativeName(Mac, libName) ==>
               !EndsWith(r, ".jnilib") &&
               (!EndsWith(m, ".jnilib") ==> r == m) &&
               (EndsWith(m, ".jnilib") ==>
                  EndsWith(r, ".dylib") && |r| == |m| - 1 && r[..|r| - 6] == m[..|m| - 7]))
  {
    var m := mapLibraryName(libName);
    var r := MapSharedLibraryName(Mac, libName, mapLibraryName);
    if !IsNativeName(Mac, libName) && EndsWith(m, ".jnilib") {
      LastIndexOfSuffix(m, ".jnilib");
      assert r == m[..|m| - 7] + ".dylib";
      assert r[|r| - 6..] == ".dylib";
      assert r[..|r| - 6] == m[..|m| - 7];
      assert r[|r| - 6] == '.' && r[|r| - 5] == 'd';
    }
  }

  /**
   * Everywhere but on Mac, a name in the system's shared-library form is returned unchanged and
   * every other name gets exactly the default mapping; on systems other than Mac, Linux,
   * FreeBSD and Windows that is every name.
   */
  lemma NonMacMapping(os: OSType, libName: string, mapLibraryName: string -> string)
    requires os != Mac
    ensures IsNativeName(os, libName) ==> MapSharedLibraryName(os, libName, mapLibraryName) == libName
    ensures !IsNativeName(os, libName) ==>
              MapSharedLibraryName(os, libName, mapLibraryName) == mapLibraryName(libName)
    ensures os !in {Linux, FreeBSD, Windows, WindowsCE} ==> !IsNativeName(os, libName)
  {
  }

  /**
   * Mapping a name twice gives the same as mapping it once, on every system with pass-through
   * rules, provided the default mapping yields that system's shared-library form (as
   * System.mapLibraryName does: `lib<name>.jnilib` or `lib<name>.dylib` on Mac, `lib<name>.so` on
   * Linux and FreeBSD, `<name>.dll` on Windows).
   */
  lemma MapSharedLibraryNameIdempotent(os: OSType, libName: string, mapLibraryName: string -> string)
    requires os in {Mac, Linux, FreeBSD, Windows, WindowsCE}
    requires IsNativeName(os, mapLibraryName(libName))
    ensures var r := MapSharedLibraryName(os, libName, mapLibraryName);
            IsNativeName(os, r) && MapSharedLibraryName(os, r, mapLibraryName) == r
  {
    if os == Mac {
      MacMappingNative(libName, mapLibraryName);
    } else {
      NonMacMapping(os, libName, mapLibraryName);
    }
  }

  /** The Mac half of `MapSharedLibraryNameIdempotent`. */
  lemma MacMappingNative(libName: string, mapLibraryName: string -> string)
    requires IsNativeName(Mac, mapLibraryName(libName))
    ensures IsNativeName(Mac, MapSharedLibraryName(Mac, libName, mapLibraryName))
  {
    var m := mapLibraryName(libName);
    var r := MapSharedLibraryName(Mac, libName, mapLibraryName);
    MacMapping(libName, mapLibraryName);
    if !IsNativeName(Mac, libName) && EndsWith(m, ".jnilib") {
      assert m[0] == 'l' && m[1] == 'i' && m[2] == 'b' by {
        assert m[..3] == "lib";
      }
      assert m[|m| - 7] == '.' by {
        assert m[|m| - 7..] == ".jnilib";
      }
      assert |m| >= 10;
      assert r[..3] == m[..3];
    }
  }
}
