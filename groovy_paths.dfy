/**
 * How GroovyService turns its arguments into the absolute file name of a
 * Groovy script.  The file name is also the key of the script cache, so two
 * entry points that spell the same script differently get separate entries.
 *
 * The application path (MainServlet.getApplicationPath(), which ends in a
 * slash) is a parameter here.
 */
module GroovyPaths {
  import opened Wrappers
  import opened Strings

  const Extension: string := ".groovy"

  /** StringUtils.drop(s, -1): `s` without its last character ("" stays ""). */
  function DropLast(s: string): (r: string)
    ensures |s| > 0 ==> r + [s[|s| - 1]] == s
    ensures |s| == 0 ==> r == ""
  {
    if |s| == 0 then "" else s[..|s| - 1]
  }

  /** Java's `s.replace(".", "/")`: a package-qualified name becomes a relative path. */
  function DotsToSlashes(s: string): (r: string)
    ensures |r| == |s|
    ensures '.' !in r
    ensures forall i :: 0 <= i < |s| && s[i] != '.' ==> r[i] == s[i]
    ensures forall i :: 0 <= i < |s| && s[i] == '.' ==> r[i] == '/'
  {
    if |s| == 0 then ""
    else [if s[0] == '.' then '/' else s[0]] + DotsToSlashes(s[1..])
  }

  /** The directory `getMethod` searches: the application root (without its
      trailing slash) when no path is given, the root joined with a relative
      path, or an absolute path as it is. */
  function MethodDirectory(applicationPath: string, filePath: Option<string>): string {
    var root := DropLast(applicationPath);
    match filePath
    case None => root
    case Some(p) =>
      if p == "" then root
      else if StartsWith(p, "/") then p
      else root + "/" + p
  }

  /** The file name built by `getMethod` (and so by both `run` entry points). */
  function MethodFileName(applicationPath: string, filePath: Option<string>, className: string): (r: string)
    ensures EndsWith(r, "/" + className + Extension)
    ensures filePath.Some? && StartsWith(filePath.value, "/") ==>
              r == filePath.value + "/" + className + Extension
    ensures filePath.Some? && filePath.value != "" && !StartsWith(filePath.value, "/") ==>
              r == DropLast(applicationPath) + "/" + filePath.value + "/" + className + Extension
    ensures filePath.None? || filePath == Some("") ==>
              r == DropLast(applicationPath) + "/" + className + Extension
  {
    MethodDirectory(applicationPath, filePath) + "/" + className + Extension
  }

  /** The file name built by `constructor`: the root, one more slash, the
      optional relative path with a slash after it, and the class name. */
  function ConstructorFileName(applicationPath: string, relativePath: Option<string>, className: string): (r: string)
    ensures StartsWith(r, applicationPath + "/")
    ensures EndsWith(r, "/" + className + Extension)
    ensures relativePath.None? || relativePath == Some("") ==>
              r == applicationPath + "/" + className + Extension
    ensures relativePath.Some? && relativePath.value != "" ==>
              r == applicationPath + "/" + relativePath.value + "/" + className + Extension
  {
    var dir := match relativePath
      case Some(p) => if p != "" then p + "/" else ""
      case None => "";
    applicationPath + "/" + dir + className + Extension
  }

  /** The file name built by `internalGroovy` for an optional package and a class. */
  function InternalFileName(applicationPath: string, package: Option<string>, className: string): (r: string)
    ensures StartsWith(r, applicationPath + "/")
    ensures EndsWith(r, Extension)
    ensures |r| == |applicationPath| + 1 + |QualifiedName(package, className)| + |Extension|
    ensures r[|applicationPath| + 1..|r| - |Extension|] == DotsToSlashes(QualifiedName(package, className))
    ensures forall i :: |applicationPath| + 1 <= i < |r| - |Extension| ==> r[i] != '.'
  {
    applicationPath + "/" + DotsToSlashes(QualifiedName(package, className)) + Extension
  }

  /** `package + "." + className`, or the class name alone without a package. */
  function QualifiedName(package: Option<string>, className: string): (r: string)
    ensures EndsWith(r, className)
    ensures package.None? ==> r == className
    ensures package.Some? ==> StartsWith(r, package.value + ".") && |r| == |package.value| + 1 + |className|
  {
    match package
    case None => className
    case Some(p) => p + "." + className
  }

  /** The file name built by `tryGroovy`: no separator is added after the root. */
  function TryFileName(applicationPath: string, className: string): (r: string)
    ensures StartsWith(r, applicationPath)
    ensures EndsWith(r, Extension)
    ensures |r| == |applicationPath| + |className| + |Extension|
    ensures r[|applicationPath|..|r| - |Extension|] == DotsToSlashes(className)
    ensures forall i :: |applicationPath| <= i < |r| - |Extension| ==> r[i] != '.'
  {
    applicationPath + DotsToSlashes(className) + Extension
  }

  /** Two class names in the same directory never share a cache key. */
  lemma MethodFileNameInjective(applicationPath: string, filePath: Option<string>, c1: string, c2: string)
    requires MethodFileName(applicationPath, filePath, c1) == MethodFileName(applicationPath, filePath, c2)
    ensures c1 == c2
  {
    var dir := MethodDirectory(applicationPath, filePath);
    var f1, f2 := MethodFileName(applicationPath, filePath, c1), MethodFileName(applicationPath, filePath, c2);
    assert |c1| == |c2|;
    assert c1 == f1[|dir| + 1..|f1| - |Extension|];
    assert c2 == f2[|dir| + 1..|f2| - |Extension|];
  }

  /** The same relative script reached through `getMethod` and through
      `constructor` gets two different cache keys: `constructor` does not drop
      the root's trailing slash, so its name is one character longer. */
  lemma ConstructorKeyDiffersFromMethodKey(applicationPath: string, relativePath: string, className: string)
    requires |applicationPath| > 0
    requires relativePath != "" && !StartsWith(relativePath, "/")
    ensures ConstructorFileName(applicationPath, Some(relativePath), className)
            != MethodFileName(applicationPath, Some(relativePath), className)
  {
    var m := MethodFileName(applicationPath, Some(relativePath), className);
    assert m == DropLast(applicationPath) + "/" + relativePath + "/" + className + Extension;
    assert |m| == |applicationPath| + |relativePath| + 1 + |className| + |Extension|;
  }

  /** `tryGroovy` and `internalGroovy` name the same class differently: the
      latter inserts a slash after the root. */
  lemma TryKeyDiffersFromInternalKey(applicationPath: string, className: string)
    ensures TryFileName(applicationPath, className) != InternalFileName(applicationPath, None, className)
  {
  }
}
