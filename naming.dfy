/**
 * Names of the cache directories and of the fixed locations inside them
 * (AarDirectoryNameUtils). A raw directory for an archive is
 * `<base name of its key>_<hex of the key's hash>.aar`.
 */
module Naming {
  import opened Wrappers
  import opened Text
  import opened JavaInts
  import opened Blaze

  const DOT_AAR := ".aar"
  const FD_JARS := "jars"
  const FD_RES := "res"
  const MERGED_JAR_NAME := "classes_and_libs_merged.jar"
  /** Where the jar sits relative to a cache directory. */
  const JAR_PATH := "jars/classes_and_libs_merged.jar"

  datatype NamingError = UnhandledArtifactType(artifact: Artifact)

  /** The identity key: the output key of an output artifact, the file path of a source artifact. */
  function GetArtifactKey(artifact: Artifact): (r: Result<string, NamingError>)
    ensures (artifact.LocalOutput? || artifact.RemoteOutput?) ==> r == Success(artifact.key)
    ensures artifact.Source? ==> r == Success(artifact.path)
    ensures artifact.OtherLocal? ==> r == Failure(UnhandledArtifactType(artifact))
  {
    match artifact
    case LocalOutput(key, _, _) => Success(key)
    case RemoteOutput(key) => Success(key)
    case Source(path, _) => Success(path)
    case OtherLocal(_, _) => Failure(UnhandledArtifactType(artifact))
  }

  /** The last `/`-separated component of a path: the longest suffix without a `/`. */
  function FileName(path: string): (r: string)
    ensures EndsWith(path, r)
    ensures forall i :: 0 <= i < |r| ==> r[i] != '/'
    ensures r == path || path[|path| - |r| - 1] == '/'
  {
    path[LastIndexOf(path, '/') + 1..]
  }

  /** A file name cut at its last `.`, if it has one. */
  function NameWithoutExtension(name: string): (r: string)
    ensures StartsWith(name, r)
    ensures r == name || name[|r|] == '.'
    ensures forall j :: |r| < j < |name| ==> name[j] != '.'
    ensures r == name ==> forall j :: 0 <= j < |name| ==> name[j] != '.'
  {
    var i := LastIndexOf(name, '.');
    if i == -1 then name else name[..i]
  }

  /** The file name of the key without its extension. */
  function BaseName(key: string): string {
    NameWithoutExtension(FileName(key))
  }

  /** `<name>_<hex>`: the name, an underscore, then one to eight hex digits that read back as the hash. */
  function GenerateAarDirectoryName(name: string, hashCode: int): (r: string)
    requires IsInt32(hashCode)
    ensures StartsWith(r, name + "_")
    ensures |name| + 2 <= |r| <= |name| + 9
    ensures IsHexNumeral(r[|name| + 1..])
    ensures ParseHex(r[|name| + 1..]) == ToUnsigned(hashCode)
    ensures IsCanonicalHex(r[|name| + 1..])
  {
    var r := name + "_" + ToHexString(hashCode);
    assert r[..|name| + 1] == name + "_";
    assert r[|name| + 1..] == ToHexString(hashCode);
    r
  }

  /**
   * The contract of `GenerateAarDirectoryName` determines its result: any string of
   * that shape is the generated name.
   */
  lemma GenerateAarDirectoryNameDetermined(name: string, hashCode: int, r: string)
    requires IsInt32(hashCode)
    requires StartsWith(r, name + "_")
    requires IsCanonicalHex(r[|name| + 1..])
    requires ParseHex(r[|name| + 1..]) == ToUnsigned(hashCode)
    ensures r == GenerateAarDirectoryName(name, hashCode)
  {
    var g := GenerateAarDirectoryName(name, hashCode);
    HexNumeralUnique(r[|name| + 1..], g[|name| + 1..]);
    assert r == r[..|name| + 1] + r[|name| + 1..];
    assert g == g[..|name| + 1] + g[|name| + 1..];
  }

  /** The raw directory name of an archive; it fails exactly when the artifact has no key. */
  function GetAarDirName(aar: Artifact): (r: Result<string, NamingError>)
    ensures r.Success? <==> GetArtifactKey(aar).Success?
  {
    var key :- GetArtifactKey(aar);
    Success(GenerateAarDirectoryName(BaseName(key), HashCode(key)) + DOT_AAR)
  }

  /** A raw directory name begins with the base name of the key and an underscore and ends with `.aar`. */
  lemma AarDirNameShape(aar: Artifact)
    requires GetArtifactKey(aar).Success?
    ensures EndsWith(GetAarDirName(aar).value, DOT_AAR)
    ensures StartsWith(GetAarDirName(aar).value, BaseName(GetArtifactKey(aar).value) + "_")
  {
    var key := GetArtifactKey(aar).value;
    var stem := GenerateAarDirectoryName(BaseName(key), HashCode(key));
    AppendKeepsPrefix(stem, BaseName(key) + "_", DOT_AAR);
  }

  /** The jar of a cache directory is always `jars/classes_and_libs_merged.jar` under it. */
  function GetJarFile(aarDir: string): (r: string)
    ensures r == Join(aarDir, JAR_PATH)
  {
    JoinNested(aarDir, FD_JARS, MERGED_JAR_NAME);
    Join(Join(aarDir, FD_JARS), MERGED_JAR_NAME)
  }

  /** The resource directory of a cache directory: `res` under it. */
  function GetResDir(aarDir: string): (r: string)
    ensures StartsWith(r, aarDir) && r[|aarDir|..] == "/res"
  {
    Join(aarDir, FD_RES)
  }

  lemma NoUnderscoreInHex(s: string)
    requires IsHexNumeral(s)
    ensures forall i :: 0 <= i < |s| ==> s[i] != '_'
  {
  }

  /** In `a + "_" + b` with no underscore in `b`, the separator is the last underscore. */
  lemma UnderscorePositions(a: string, b: string)
    requires forall i :: 0 <= i < |b| ==> b[i] != '_'
    ensures (a + "_" + b)[|a|] == '_'
    ensures forall k :: |a| < k < |a| + 1 + |b| ==> (a + "_" + b)[k] != '_'
  {
    var s := a + "_" + b;
    forall k | |a| < k < |a| + 1 + |b|
      ensures s[k] != '_'
    {
      assert s[k] == b[k - |a| - 1];
    }
  }

  /**
   * `a + "_" + b` splits back uniquely when `b` has no underscore: the last
   * underscore is the separator.
   */
  lemma {:induction false} SplitAtLastUnderscore(a1: string, b1: string, a2: string, b2: string)
    requires forall i :: 0 <= i < |b1| ==> b1[i] != '_'
    requires forall i :: 0 <= i < |b2| ==> b2[i] != '_'
    ensures a1 + "_" + b1 == a2 + "_" + b2 <==> a1 == a2 && b1 == b2
  {
    var s1, s2 := a1 + "_" + b1, a2 + "_" + b2;
    if s1 == s2 {
      UnderscorePositions(a1, b1);
      UnderscorePositions(a2, b2);
      if |b1| != |b2| {
        assert false;
      }
      assert a1 == s1[..|a1|] == s2[..|a2|] == a2;
      assert b1 == s1[|a1| + 1..] == s2[|a2| + 1..] == b2;
    }
  }

  /** Distinct (name, hash) pairs always give distinct directory stems. */
  lemma GenerateAarDirectoryNameInjective(n1: string, h1: int, n2: string, h2: int)
    requires IsInt32(h1) && IsInt32(h2)
    ensures GenerateAarDirectoryName(n1, h1) == GenerateAarDirectoryName(n2, h2) <==> n1 == n2 && h1 == h2
  {
    var x1, x2 := ToHexString(h1), ToHexString(h2);
    NoUnderscoreInHex(x1);
    NoUnderscoreInHex(x2);
    SplitAtLastUnderscore(n1, x1, n2, x2);
    ToHexStringInjective(h1, h2);
  }

  lemma StripSuffix(x: string, y: string, suffix: string)
    ensures x + suffix == y + suffix <==> x == y
  {
    if x + suffix == y + suffix {
      assert x == (x + suffix)[..|x|];
      assert y == (y + suffix)[..|y|];
    }
  }

  /**
   * Two archives share a raw directory exactly when their keys have the same base
   * name and the same hash: the hash is taken over the whole key.
   */
  lemma AarDirNameCollision(a1: Artifact, a2: Artifact)
    requires GetArtifactKey(a1).Success? && GetArtifactKey(a2).Success?
    ensures var k1, k2 := GetArtifactKey(a1).value, GetArtifactKey(a2).value;
      GetAarDirName(a1) == GetAarDirName(a2) <==> BaseName(k1) == BaseName(k2) && HashCode(k1) == HashCode(k2)
  {
    var k1, k2 := GetArtifactKey(a1).value, GetArtifactKey(a2).value;
    var s1 := GenerateAarDirectoryName(BaseName(k1), HashCode(k1));
    var s2 := GenerateAarDirectoryName(BaseName(k2), HashCode(k2));
    StripSuffix(s1, s2, DOT_AAR);
    GenerateAarDirectoryNameInjective(BaseName(k1), HashCode(k1), BaseName(k2), HashCode(k2));
  }

  /** Equal keys give equal directory names, whatever the kind of artifact. */
  lemma AarDirNameDeterministic(a1: Artifact, a2: Artifact)
    requires GetArtifactKey(a1).Success? && GetArtifactKey(a1) == GetArtifactKey(a2)
    ensures GetAarDirName(a1) == GetAarDirName(a2)
  {
  }

  /** Two archives named `x` in different directories get different cache directories. */
  lemma SameFileNameDifferentDirectories()
    ensures BaseName("a/x") == BaseName("b/x") == "x"
    ensures GetAarDirName(RemoteOutput("a/x")) != GetAarDirName(RemoteOutput("b/x"))
  {
    SameBaseName();
    DifferentHashes();
    AarDirNameCollision(RemoteOutput("a/x"), RemoteOutput("b/x"));
  }

  lemma SameBaseName()
    ensures BaseName("a/x") == BaseName("b/x") == "x"
  {
    assert LastIndexOf("a/x", '/') == 1;
    assert LastIndexOf("b/x", '/') == 1;
    assert LastIndexOf("x", '.') == -1;
  }

  lemma DifferentHashes()
    ensures HashCode("a/x") != HashCode("b/x")
  {
    assert HashBits("a") == 97;
    assert HashBits("a/") == 3054;
    assert HashBits("a/x") == 94794;
    assert HashBits("b") == 98;
    assert HashBits("b/") == 3085;
    assert HashBits("b/x") == 95755;
  }
}
