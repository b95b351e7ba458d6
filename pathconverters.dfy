/** The PathConverter interface of the torrent database and its two
    implementations. The database only ever calls the interface, so a
    converter is the pair of its two operations. */
module PathConverters {
  import opened JavaIo
  import ParentDirConverter

  /** `convertToFile(path)` and `convertToPath(file)`. */
  datatype PathConverter = PathConverter(toFile: string -> File, toPath: File -> string)

  /** The database's own SimplePathConverter: `new File(path)` one way, the
      absolute path (against the working directory) the other. */
  function SimplePathConverter(userDir: File): PathConverter {
    PathConverter(FileOf, f => AbsolutePath(f, userDir))
  }

  /** A ParentDirConverter for `parentDir`. */
  function ParentDirPathConverter(parentDir: File, userDir: File): PathConverter {
    PathConverter(p => ParentDirConverter.ConvertToFile(parentDir, p),
                  f => ParentDirConverter.ConvertToPath(parentDir, f, userDir))
  }

  /** A stored path that reads back as itself from a database line: it is
      not empty, has no '|' (so the line separator cannot occur inside it),
      and converting it to a file and back gives it again. */
  predicate StablePath(c: PathConverter, p: string) {
    p != "" && '|' !in p && c.toPath(c.toFile(p)) == p
  }

  /** The simple converter stores a file by a path that names the same
      file. */
  lemma SimpleRoundTrip(userDir: File, f: File)
    requires Normalized(userDir) && IsAbsolute(userDir) && Normalized(f)
    ensures var c := SimplePathConverter(userDir);
            c.toFile(c.toPath(f)) == AbsolutePath(f, userDir)
  {
    AbsolutePathNormalized(f, userDir);
    NormalizeIdempotent(AbsolutePath(f, userDir));
  }

  /** Every path the simple converter stores for a normalised file whose
      absolute path has no '|' is stable. */
  lemma SimpleStoredPathIsStable(userDir: File, f: File)
    requires Normalized(userDir) && IsAbsolute(userDir) && Normalized(f)
    requires '|' !in AbsolutePath(f, userDir)
    ensures var c := SimplePathConverter(userDir);
            StablePath(c, c.toPath(f))
  {
    var a := AbsolutePath(f, userDir);
    AbsolutePathNormalized(f, userDir);
    NormalizeIdempotent(a);
    assert AbsolutePath(a, userDir) == a;
  }

  /** Every path the parent-directory converter stores for a normalised file
      whose absolute path has no '|' is stable. */
  lemma ParentDirStoredPathIsStable(parentDir: File, userDir: File, f: File)
    requires Normalized(userDir) && IsAbsolute(userDir)
    requires Normalized(parentDir) && IsAbsolute(parentDir)
    requires Normalized(f) && '|' !in AbsolutePath(f, userDir)
    ensures var c := ParentDirPathConverter(parentDir, userDir);
            StablePath(c, c.toPath(f))
  {
    ParentDirConverter.StoredPathStable(parentDir, f, userDir);
    ParentDirConverter.StoredPathShape(parentDir, f, userDir, '|');
  }
}
