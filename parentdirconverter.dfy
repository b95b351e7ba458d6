/** The path converter the torrent database uses to store paths relative to
    a parent directory: files under the directory are stored relative to it,
    all others by their absolute path. */
module ParentDirConverter {
  import opened Text
  import opened JavaIo

  /** `convertToFile(path)`: an absolute path is taken as it is, a relative
      one is resolved under the parent directory. */
  function ConvertToFile(parentDir: File, path: string): File {
    var file := FileOf(path);
    if IsAbsolute(file) then file else ChildOf(parentDir, path)
  }

  /** `convertToPath(file)`: the absolute path with the parent directory
      and its separator stripped when it starts with them. */
  function ConvertToPath(parentDir: File, file: File, userDir: string): (r: string)
    ensures var filePath := AbsolutePath(file, userDir);
            var parentPath := AbsolutePath(parentDir, userDir) + "/";
            (StartsWith(filePath, parentPath) ==> parentPath + r == filePath)
            && (!StartsWith(filePath, parentPath) ==> r == filePath)
  {
    var filePath := AbsolutePath(file, userDir);
    var parentPath := AbsolutePath(parentDir, userDir) + "/";
    if StartsWith(filePath, parentPath) then
      assert filePath == parentPath + filePath[|parentPath|..];
      filePath[|parentPath|..]
    else filePath
  }

  /** An absolute path string comes back as the same file. */
  lemma ConvertAbsoluteUnchanged(parentDir: File, path: string)
    requires IsAbsolute(path) && Normalized(path)
    ensures ConvertToFile(parentDir, path) == path
  {
    NormalizeIdempotent(path);
  }

  /** A relative path is resolved under the parent directory. */
  lemma ConvertRelativeUnderParent(parentDir: File, path: string)
    requires Normalized(parentDir) && IsAbsolute(parentDir) && parentDir != "/"
    requires Normalized(path) && path != "" && !IsAbsolute(path)
    ensures ConvertToFile(parentDir, path) == parentDir + "/" + path
  {
    NormalizeIdempotent(path);
  }

  /** The part of a normalised path after a separator is normalised, non-empty
      and relative. */
  lemma SuffixAfterSeparator(a: string, n: nat)
    requires Normalized(a) && 0 < n <= |a| && a[n - 1] == '/' && |a| > 1
    ensures var rel := a[n..];
            Normalized(rel) && rel != "" && !IsAbsolute(rel)
  {
    var rel := a[n..];
    assert forall i :: 0 <= i < |rel| ==> rel[i] == a[n + i];
  }

  /** Converting a file to its stored path and back yields its absolute
      path, so a database written with converted paths reopens to the same
      files. */
  lemma {:induction false} RoundTrip(parentDir: File, f: File, userDir: File)
    requires Normalized(userDir) && IsAbsolute(userDir)
    requires Normalized(parentDir) && IsAbsolute(parentDir)
    requires Normalized(f)
    ensures ConvertToFile(parentDir, ConvertToPath(parentDir, f, userDir)) == AbsolutePath(f, userDir)
  {
    var a := AbsolutePath(f, userDir);
    AbsolutePathNormalized(f, userDir);
    var parentPath := parentDir + "/";
    assert AbsolutePath(parentDir, userDir) == parentDir;
    var r := ConvertToPath(parentDir, f, userDir);
    if StartsWith(a, parentPath) {
      assert a[..|parentPath|] == parentPath && |a| >= 2;
      assert !(a[0] == '/' && a[1] == '/');
      assert parentDir != "/";
      assert |a| > 1;
      SuffixAfterSeparator(a, |parentPath|);
      assert r == a[|parentPath|..];
      ConvertRelativeUnderParent(parentDir, r);
      assert parentDir + "/" + r == a;
    } else {
      assert r == a;
      ConvertAbsoluteUnchanged(parentDir, a);
    }
  }

  /** A stored path survives a reload unchanged: converting it to a file and
      back gives the same string. */
  lemma StoredPathStable(parentDir: File, f: File, userDir: File)
    requires Normalized(userDir) && IsAbsolute(userDir)
    requires Normalized(parentDir) && IsAbsolute(parentDir)
    requires Normalized(f)
    ensures var p := ConvertToPath(parentDir, f, userDir);
            ConvertToPath(parentDir, ConvertToFile(parentDir, p), userDir) == p
  {
    RoundTrip(parentDir, f, userDir);
    AbsolutePathNormalized(f, userDir);
  }

  /** Stored paths are never empty, and contain a character only when the
      absolute path does. */
  lemma StoredPathShape(parentDir: File, f: File, userDir: File, c: char)
    requires Normalized(userDir) && IsAbsolute(userDir)
    requires Normalized(parentDir) && IsAbsolute(parentDir)
    requires Normalized(f)
    ensures var p := ConvertToPath(parentDir, f, userDir);
            p != "" && (c !in AbsolutePath(f, userDir) ==> c !in p)
  {
    var a := AbsolutePath(f, userDir);
    AbsolutePathNormalized(f, userDir);
    var parentPath := parentDir + "/";
    var p := ConvertToPath(parentDir, f, userDir);
    if StartsWith(a, parentPath) {
      assert a[..|parentPath|] == parentPath && |a| >= 2;
      assert !(a[0] == '/' && a[1] == '/');
      assert parentDir != "/";
      SuffixAfterSeparator(a, |parentPath|);
      assert p == a[|parentPath|..];
    }
  }
}
