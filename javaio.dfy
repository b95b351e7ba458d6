/** The part of java.io.File the plugin depends on, for a Unix file system
    (separator '/'): a File is its path string. `new File(path)` normalises
    the string; `new File(parent, child)` does not re-normalise the joint. */
module JavaIo {

  const SeparatorChar: char := '/'

  /** No doubled separator, and no trailing separator except for the root. */
  predicate Normalized(p: string) {
    (forall i :: 0 <= i < |p| - 1 ==> !(p[i] == '/' && p[i + 1] == '/'))
    && (|p| > 1 ==> p[|p| - 1] != '/')
  }

  type File = string

  predicate IsAbsolute(p: string) {
    |p| > 0 && p[0] == '/'
  }

  /** Collapses every run of separators to one. */
  function Collapse(s: string): string {
    if |s| <= 1 then s
    else if s[0] == '/' && s[1] == '/' then Collapse(s[1..])
    else [s[0]] + Collapse(s[1..])
  }

  /** Collapsing leaves no doubled separator and keeps the first and the last
      character. */
  lemma {:induction false} CollapseSpec(s: string)
    ensures var r := Collapse(s);
            && |r| <= |s|
            && (|s| > 0 ==> |r| > 0 && r[0] == s[0] && r[|r| - 1] == s[|s| - 1])
            && forall i :: 0 <= i < |r| - 1 ==> !(r[i] == '/' && r[i + 1] == '/')
  {
    if |s| > 1 {
      CollapseSpec(s[1..]);
    }
  }

  /** UnixFileSystem.normalize, which every `new File(path)` applies. */
  function Normalize(s: string): File {
    var c := Collapse(s);
    if |c| > 1 && c[|c| - 1] == '/' then c[..|c| - 1] else c
  }

  /** A normalised path is normalised, and absolute exactly when the input
      was. */
  lemma NormalizeSpec(s: string)
    ensures Normalized(Normalize(s))
    ensures IsAbsolute(Normalize(s)) <==> IsAbsolute(s)
  {
    CollapseSpec(s);
    var c := Collapse(s);
    if |c| > 1 && c[|c| - 1] == '/' {
      assert c[|c| - 2] != '/';
    }
  }

  lemma {:induction false} CollapseNormalized(s: string)
    requires forall i :: 0 <= i < |s| - 1 ==> !(s[i] == '/' && s[i + 1] == '/')
    ensures Collapse(s) == s
  {
    if |s| > 1 {
      CollapseNormalized(s[1..]);
    }
  }

  /** Normalising an already normalised path changes nothing. */
  lemma NormalizeIdempotent(p: File)
    requires Normalized(p)
    ensures Normalize(p) == p
  {
    CollapseNormalized(p);
  }

  /** UnixFileSystem.resolve(parent, child). */
  function Resolve(parent: string, child: string): string {
    if child == "" then parent
    else if child[0] == '/' then (if parent == "/" then child else parent + child)
    else if parent == "/" then parent + child
    else parent + "/" + child
  }

  /** `new File(path)`. */
  function FileOf(path: string): File {
    Normalize(path)
  }

  /** `new File(parent, child)`: an empty parent path stands for the root. */
  function ChildOf(parent: File, child: string): string {
    if parent == "" then Resolve("/", Normalize(child)) else Resolve(parent, Normalize(child))
  }

  /** `file.getAbsolutePath()`: relative paths are resolved against `user.dir`. */
  function AbsolutePath(f: File, userDir: string): string {
    if IsAbsolute(f) then f else Resolve(userDir, f)
  }

  /** A relative, normalised, non-empty path appended to a normalised
      directory is normalised. */
  lemma ResolveRelativeNormalized(parent: File, child: File)
    requires Normalized(parent) && Normalized(child)
    requires child != "" && !IsAbsolute(child)
    ensures Normalized(Resolve(parent, child))
  {
    var r := Resolve(parent, child);
    if parent == "/" {
      assert r == "/" + child;
    } else {
      assert r == parent + "/" + child;
      assert forall i :: 0 <= i < |parent| ==> r[i] == parent[i];
      assert forall i :: 0 <= i < |child| ==> r[|parent| + 1 + i] == child[i];
      forall i | 0 <= i < |r| - 1
        ensures !(r[i] == '/' && r[i + 1] == '/')
      {
        if i < |parent| - 1 {
        } else if i == |parent| - 1 {
        } else if i == |parent| {
        } else {
          assert r[i] == child[i - |parent| - 1];
        }
      }
    }
  }

  /** With an absolute, normalised working directory every absolute path is
      absolute and normalised. */
  lemma AbsolutePathNormalized(f: File, userDir: File)
    requires Normalized(f) && Normalized(userDir) && IsAbsolute(userDir)
    ensures Normalized(AbsolutePath(f, userDir)) && IsAbsolute(AbsolutePath(f, userDir))
  {
    if !IsAbsolute(f) && f != "" {
      ResolveRelativeNormalized(userDir, f);
    }
  }
}
