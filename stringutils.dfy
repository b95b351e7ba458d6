/** StringUtils.parseServerUrlToDirectoriesPath: the directory path under
    which files downloaded from a server are cached. URL decoding,
    FileUtil.fixDirectoryNameAllowUnicode and the platform's
    File.separatorChar are taken as parameters. */
module StringUtils {
  import opened Wrappers
  import opened Text

  const ResultForEmptyUrl: string := "emptyUrl.dat"
  const ProtocolDef: string := ":/"

  /** Removes everything up to the first ":/", and one '/' after it, when
      ":/" occurs after the first character. */
  function StripProtocol(serverUrl: string): string {
    var colonIdx := IndexOf(serverUrl, ProtocolDef);
    if colonIdx > 0 then
      var rest := serverUrl[colonIdx + |ProtocolDef|..];
      if StartsWith(rest, "/") then rest[1..] else rest
    else serverUrl
  }

  /** What protocol stripping keeps is always a tail of the URL, and the URL
      stays whole exactly when ":/" does not occur past its first character;
      otherwise at least the scheme and ":/" are gone. */
  lemma StripProtocolSuffix(serverUrl: string)
    ensures var r := StripProtocol(serverUrl);
            && |r| <= |serverUrl| && r == serverUrl[|serverUrl| - |r|..]
            && (r == serverUrl <==> IndexOf(serverUrl, ProtocolDef) <= 0)
            && (IndexOf(serverUrl, ProtocolDef) > 0 ==> |r| <= |serverUrl| - IndexOf(serverUrl, ProtocolDef) - |ProtocolDef|)
  {
    var idx := IndexOf(serverUrl, ProtocolDef);
    if idx > 0 {
      var k := idx + |ProtocolDef|;
      var rest := serverUrl[k..];
      if StartsWith(rest, "/") {
        assert rest[1..] == serverUrl[k + 1..];
        assert |rest[1..]| < |serverUrl|;
      } else {
        assert |rest| < |serverUrl|;
      }
    }
  }

  /** What one path segment becomes: URLDecoder.decode, then
      fixDirectoryNameAllowUnicode. `decode` yields None where URLDecoder
      throws IllegalArgumentException (a malformed "%" escape), which the
      method does not catch. */
  function DirName(segment: string, decode: string -> Option<string>, fix: string -> string): Option<string> {
    match decode(segment)
    case None => None
    case Some(decoded) => Some(fix(decoded))
  }

  /** The names of all segments, or None when decoding one of them throws. */
  function DirNames(segments: seq<string>, decode: string -> Option<string>, fix: string -> string): (r: Option<seq<string>>)
    ensures r.None? <==> exists i :: 0 <= i < |segments| && decode(segments[i]).None?
    ensures r.Some? ==> |r.value| == |segments|
                        && forall i :: 0 <= i < |segments| ==> DirName(segments[i], decode, fix) == Some(r.value[i])
  {
    if segments == [] then Some([])
    else
      var head := DirName(segments[0], decode, fix);
      var tail := DirNames(segments[1..], decode, fix);
      if head.None? then None
      else if tail.None? then
        var i :| 0 <= i < |segments[1..]| && decode(segments[1..][i]).None?;
        assert decode(segments[i + 1]).None?;
        None
      else
        var r := [head.value] + tail.value;
        assert forall i :: 0 < i < |segments| ==> segments[i] == segments[1..][i - 1] && r[i] == tail.value[i - 1];
        Some(r)
  }

  /** The loop's outcome over the split segments: the placeholder when there
      are none, else the names joined by the separator. */
  function JoinedDirNames(segments: seq<string>, decode: string -> Option<string>, fix: string -> string, sep: char): Option<string> {
    if segments == [] then Some(ResultForEmptyUrl)
    else match DirNames(segments, decode, fix)
      case None => None
      case Some(names) => Some(Join(names, sep))
  }

  /** The result: the fixed segments joined by the separator, or the
      placeholder name when there is nothing to join; None when a segment's
      escape is malformed and the method throws. */
  function DirectoriesPath(serverUrl: string, decode: string -> Option<string>, fix: string -> string, sep: char): Option<string> {
    var url := StripProtocol(serverUrl);
    if url == "" then Some(ResultForEmptyUrl)
    else JoinedDirNames(JavaSplit(url, '/'), decode, fix, sep)
  }

  /** The method throws exactly when something is left after the protocol
      and one of its '/'-separated segments fails to decode. */
  lemma DirectoriesPathThrows(serverUrl: string, decode: string -> Option<string>, fix: string -> string, sep: char)
    ensures var url := StripProtocol(serverUrl);
            DirectoriesPath(serverUrl, decode, fix, sep).None?
            <==> url != "" && exists seg :: seg in JavaSplit(url, '/') && decode(seg).None?
  {
    var url := StripProtocol(serverUrl);
    if url != "" {
      var segments := JavaSplit(url, '/');
      if exists seg :: seg in segments && decode(seg).None? {
        var seg :| seg in segments && decode(seg).None?;
        var i :| 0 <= i < |segments| && segments[i] == seg;
        assert DirNames(segments, decode, fix).None?;
      } else {
        forall i | 0 <= i < |segments| ensures decode(segments[i]).Some? {
          assert segments[i] in segments;
        }
      }
    }
  }

  /** A URL whose path holds "a%zz", a malformed escape: the method throws. */
  lemma MalformedEscapeExample(decode: string -> Option<string>, fix: string -> string, sep: char)
    requires decode("a%zz") == None
    ensures DirectoriesPath("http://host/a%zz", decode, fix, sep) == None
  {
    var segs := ["host", "a%zz"];
    assert Join(segs, '/') == "host/a%zz";
    assert "http://host/a%zz" == "http" + (ProtocolDef + ("/" + Join(segs, '/')));
    assert PlainSegment(segs[0]) && PlainSegment(segs[1]);
    SchemeStripped("http", Join(segs, '/'));
    JavaSplitJoin(segs);
    assert decode(segs[1]).None?;
  }

  /** What the builder holds after the first segments: each fixed name
      followed by the separator. */
  function Appended(names: seq<string>, sep: char): (r: string)
    ensures |r| >= |names|
    decreases |names|
  {
    if names == [] then "" else Appended(names[..|names| - 1], sep) + names[|names| - 1] + [sep]
  }

  /** The builder without its last character is the join. */
  lemma {:induction false} AppendedJoin(names: seq<string>, sep: char)
    requires names != []
    ensures Appended(names, sep) == Join(names, sep) + [sep]
    decreases |names|
  {
    var init := names[..|names| - 1];
    var last := names[|names| - 1];
    assert names == init + [last];
    assert Appended(names, sep) == Appended(init, sep) + last + [sep];
    if |names| > 1 {
      AppendedJoin(init, sep);
      JoinSnoc(init, last, sep);
      assert Join(names, sep) == Join(init, sep) + [sep] + last;
    } else {
      assert init == [] && Appended(init, sep) == "";
      assert "" + last == last;
    }
  }

  lemma AppendedSnoc(names: seq<string>, name: string, sep: char)
    ensures Appended(names + [name], sep) == Appended(names, sep) + name + [sep]
  {
    assert (names + [name])[..|names|] == names;
  }

  /** One more decoded segment extends the names of the prefix. */
  lemma DirNamesStep(segments: seq<string>, i: nat, names: seq<string>, decode: string -> Option<string>, fix: string -> string)
    requires i < |segments| && DirNames(segments[..i], decode, fix) == Some(names) && decode(segments[i]).Some?
    ensures DirNames(segments[..i + 1], decode, fix) == Some(names + [fix(decode(segments[i]).value)])
  {
    var next := segments[..i + 1];
    assert forall j :: 0 <= j < i ==> next[j] == segments[..i][j];
    var r := DirNames(next, decode, fix);
    assert r.value == names + [fix(decode(segments[i]).value)] by {
      forall j | 0 <= j < i + 1 ensures r.value[j] == (names + [fix(decode(segments[i]).value)])[j] {
        if j < i {
          assert DirName(segments[..i][j], decode, fix) == Some(names[j]);
        }
      }
    }
  }

  lemma {:induction false} JoinSnoc(names: seq<string>, last: string, sep: char)
    requires names != []
    ensures Join(names + [last], sep) == Join(names, sep) + [sep] + last
    decreases |names|
  {
    if |names| > 1 {
      JoinSnoc(names[1..], last, sep);
      assert (names + [last])[1..] == names[1..] + [last];
    } else {
      assert names + [last] == [names[0], last];
    }
  }

  /** parseServerUrlToDirectoriesPath; None is the IllegalArgumentException
      of a malformed escape. */
  method ParseServerUrlToDirectoriesPath(serverUrl: string, decode: string -> Option<string>, fix: string -> string, sep: char)
    returns (r: Option<string>)
    ensures r == DirectoriesPath(serverUrl, decode, fix, sep)
  {
    var url := serverUrl;
    var colonIdx := IndexOf(url, ProtocolDef);
    if colonIdx > 0 {
      url := url[colonIdx + |ProtocolDef|..];
      if StartsWith(url, "/") {
        url := url[1..];
      }
    }
    assert url == StripProtocol(serverUrl);
    if url == "" {
      return Some(ResultForEmptyUrl);
    }
    var segments := JavaSplit(url, '/');
    r := JoinDirNames(segments, decode, fix, sep);
  }

  /** The loop over the segments: each fixed name and a separator are
      appended, and the last separator is deleted again; the first segment
      that fails to decode ends the method with the exception. */
  method JoinDirNames(segments: seq<string>, decode: string -> Option<string>, fix: string -> string, sep: char)
    returns (r: Option<string>)
    ensures r == JoinedDirNames(segments, decode, fix, sep)
  {
    ghost var names: seq<string> := [];
    var result := "";
    var i := 0;
    while i < |segments|
      invariant 0 <= i <= |segments|
      invariant DirNames(segments[..i], decode, fix) == Some(names)
      invariant result == Appended(names, sep)
    {
      var dirName := decode(segments[i]);
      if dirName.None? {
        assert DirNames(segments, decode, fix).None?;
        return None;
      }
      DirNamesStep(segments, i, names, decode, fix);
      AppendedSnoc(names, fix(dirName.value), sep);
      names := names + [fix(dirName.value)];
      result := result + fix(dirName.value) + [sep];
      i := i + 1;
    }
    assert segments[..|segments|] == segments;
    if |result| == 0 {
      return Some(ResultForEmptyUrl);
    }
    AppendedJoin(names, sep);
    r := Some(result[..|result| - 1]);
    assert result == r.value + [sep];
  }

  /** Nothing but the protocol: the placeholder name. */
  lemma EmptyRemainder(serverUrl: string, decode: string -> Option<string>, fix: string -> string, sep: char)
    requires StripProtocol(serverUrl) == ""
    ensures DirectoriesPath(serverUrl, decode, fix, sep) == Some(ResultForEmptyUrl)
  {
  }

  /** A remainder made only of '/' has no segments: the placeholder name. */
  lemma SeparatorsOnly(serverUrl: string, decode: string -> Option<string>, fix: string -> string, sep: char)
    requires StripProtocol(serverUrl) != ""
    requires forall i :: 0 <= i < |StripProtocol(serverUrl)| ==> StripProtocol(serverUrl)[i] == '/'
    ensures DirectoriesPath(serverUrl, decode, fix, sep) == Some(ResultForEmptyUrl)
  {
    JavaSplitOfSeparatorsOnly(StripProtocol(serverUrl), '/');
  }

  /** `s` without the separators at its end. */
  function TrimTrailingSeparators(s: string): (r: string)
    ensures |r| <= |s| && r == s[..|r|]
    ensures r == "" || r[|r| - 1] != '/'
    ensures forall i :: |r| <= i < |s| ==> s[i] == '/'
  {
    if s != "" && s[|s| - 1] == '/' then TrimTrailingSeparators(s[..|s| - 1]) else s
  }

  /** Joining the pieces left after dropping the empty trailing ones gives
      back the string without its trailing separators. */
  lemma {:induction false} JoinDropTrailing(s: string)
    ensures Join(DropTrailingEmpty(SplitOn(s, '/')), '/') == TrimTrailingSeparators(s)
    decreases |s|
  {
    var parts := SplitOn(s, '/');
    JoinSplit(s, '/');
    if s != "" && s[|s| - 1] == '/' {
      var init := s[..|s| - 1];
      SplitOnSnocSeparator(init);
      assert s == init + "/";
      JoinDropTrailing(init);
    } else {
      LastPieceOfSplit(s);
    }
  }

  /** Appending a separator adds one empty piece at the end. */
  lemma {:induction false} SplitOnSnocSeparator(s: string)
    ensures SplitOn(s + "/", '/') == SplitOn(s, '/') + [""]
    decreases |s|
  {
    if s == "" {
      assert SplitOn("/", '/') == [""] + SplitOn("", '/');
    } else {
      SplitOnSnocSeparator(s[1..]);
      assert (s + "/")[1..] == s[1..] + "/";
    }
  }

  /** A string not ending with the separator has a non-empty last piece, so
      dropping trailing empties drops nothing. */
  lemma {:induction false} LastPieceOfSplit(s: string)
    requires s == "" || s[|s| - 1] != '/'
    ensures s != "" ==> SplitOn(s, '/')[|SplitOn(s, '/')| - 1] != ""
    ensures s != "" ==> DropTrailingEmpty(SplitOn(s, '/')) == SplitOn(s, '/')
    decreases |s|
  {
    if |s| > 1 {
      LastPieceOfSplit(s[1..]);
      var rest := SplitOn(s[1..], '/');
      if s[0] != '/' && |rest| == 1 {
        assert SplitOn(s, '/') == [[s[0]] + rest[0]];
      }
    }
  }

  /** On a platform whose separator is '/', when decoding and fixing leave
      every segment as it is, the directory path is the URL without its
      protocol and without trailing separators (or the placeholder name if
      nothing is left). */
  lemma PlainSegments(serverUrl: string, decode: string -> Option<string>, fix: string -> string)
    requires forall seg :: seg in JavaSplit(StripProtocol(serverUrl), '/') ==> DirName(seg, decode, fix) == Some(seg)
    ensures var rest := TrimTrailingSeparators(StripProtocol(serverUrl));
            DirectoriesPath(serverUrl, decode, fix, '/') == Some(if rest == "" then ResultForEmptyUrl else rest)
  {
    var url := StripProtocol(serverUrl);
    if url != "" {
      var segments := JavaSplit(url, '/');
      forall i | 0 <= i < |segments| ensures decode(segments[i]).Some? {
        assert segments[i] in segments;
      }
      var names := DirNames(segments, decode, fix).value;
      assert names == segments by {
        forall i | 0 <= i < |segments| ensures names[i] == segments[i] {
          assert segments[i] in segments;
        }
      }
      if '/' in url {
        JoinDropTrailing(url);
        if segments == [] {
          assert Join(segments, '/') == "";
        } else {
          TrimNonEmpty(segments);
        }
      } else {
        assert TrimTrailingSeparators(url) == url;
      }
    }
  }

  lemma TrimNonEmpty(segments: seq<string>)
    requires segments != [] && segments[|segments| - 1] != ""
    ensures Join(segments, '/') != ""
  {
    if |segments| == 1 {
    } else {
      assert |Join(segments, '/')| >= |segments[0]| + 1;
    }
  }

  /** A scheme without ':' followed by "://" is removed with both '/'. */
  lemma SchemeStripped(scheme: string, rest: string)
    requires scheme != [] && ':' !in scheme
    requires rest == [] || rest[0] != '/'
    ensures StripProtocol(scheme + (ProtocolDef + ("/" + rest))) == rest
  {
    var u := scheme + (ProtocolDef + ("/" + rest));
    assert OccursAt(u, ProtocolDef, |scheme|) by {
      assert u[|scheme|..|scheme| + 2] == ProtocolDef;
    }
    forall k | k < |scheme| ensures !OccursAt(u, ProtocolDef, k) {
      if 0 <= k {
        assert u[k] == scheme[k];
      }
    }
    assert u[|scheme| + 2..] == "/" + rest;
    assert ("/" + rest)[1..] == rest;
  }

  /** A first piece without the separator, then the separator. */
  lemma {:induction false} SplitOnFirstPiece(a: string, t: string)
    requires '/' !in a
    ensures SplitOn(a + ("/" + t), '/') == [a] + SplitOn(t, '/')
    decreases |a|
  {
    var u := a + ("/" + t);
    if a == [] {
      assert u == "/" + t;
      assert u[0] == '/' && u[1..] == t;
    } else {
      SplitOnFirstPiece(a[1..], t);
      assert u[1..] == a[1..] + ("/" + t);
      assert u[0] == a[0] && a[0] in a;
      assert [a[0]] + a[1..] == a;
    }
  }

  lemma {:induction false} SplitOnWithout(a: string)
    requires '/' !in a
    ensures SplitOn(a, '/') == [a]
    decreases |a|
  {
    if a != [] {
      SplitOnWithout(a[1..]);
      assert [a[0]] + a[1..] == a;
    }
  }

  /** Segments that are non-empty and free of '/' are split back out of
      their join. */
  lemma {:induction false} SplitJoin(segs: seq<string>)
    requires segs != [] && forall i :: 0 <= i < |segs| ==> '/' !in segs[i]
    ensures SplitOn(Join(segs, '/'), '/') == segs
    decreases |segs|
  {
    if |segs| == 1 {
      SplitOnWithout(segs[0]);
    } else {
      var t := Join(segs[1..], '/');
      assert Join(segs, '/') == segs[0] + ("/" + t);
      SplitOnFirstPiece(segs[0], t);
      SplitJoin(segs[1..]);
      assert [segs[0]] + segs[1..] == segs;
    }
  }

  predicate PlainSegment(seg: string) {
    seg != [] && '/' !in seg
  }

  lemma JavaSplitJoin(segs: seq<string>)
    requires segs != [] && forall i :: 0 <= i < |segs| ==> PlainSegment(segs[i])
    ensures JavaSplit(Join(segs, '/'), '/') == segs
  {
    if |segs| > 1 {
      SplitJoin(segs);
      assert Join(segs, '/') == segs[0] + ['/'] + Join(segs[1..], '/');
      assert Join(segs, '/')[|segs[0]|] == '/';
    }
  }

  /** An address made of a scheme without ':', "://" and non-empty segments
      without '/' is handled segment by segment: exactly those segments are
      decoded, fixed and joined by the platform's separator. */
  lemma ServerSegments(scheme: string, segs: seq<string>, decode: string -> Option<string>, fix: string -> string, sep: char)
    requires scheme != [] && ':' !in scheme
    requires segs != [] && forall i :: 0 <= i < |segs| ==> PlainSegment(segs[i])
    ensures DirectoriesPath(scheme + (ProtocolDef + ("/" + Join(segs, '/'))), decode, fix, sep)
            == JoinedDirNames(segs, decode, fix, sep)
  {
    var url := Join(segs, '/');
    assert PlainSegment(segs[0]);
    if |segs| > 1 {
      assert url == segs[0] + ['/'] + Join(segs[1..], '/');
    }
    assert url[0] == segs[0][0] && segs[0][0] in segs[0];
    SchemeStripped(scheme, url);
    JavaSplitJoin(segs);
  }

  /** A URL with three plain segments after the scheme. */
  lemma ThreeSegments(scheme: string, a: string, b: string, c: string, decode: string -> Option<string>,
                      fix: string -> string, sep: char, na: string, nb: string, nc: string)
    requires scheme != [] && ':' !in scheme
    requires PlainSegment(a) && PlainSegment(b) && PlainSegment(c)
    requires DirName(a, decode, fix) == Some(na) && DirName(b, decode, fix) == Some(nb) && DirName(c, decode, fix) == Some(nc)
    ensures DirectoriesPath(scheme + (ProtocolDef + ("/" + (a + ['/'] + b + ['/'] + c))), decode, fix, sep)
            == Some(na + [sep] + nb + [sep] + nc)
  {
    var segs := [a, b, c];
    JoinThree(a, b, c, '/');
    ServerSegments(scheme, segs, decode, fix, sep);
    var names := DirNames(segs, decode, fix).value;
    assert names == [na, nb, nc];
    JoinThree(na, nb, nc, sep);
  }

  /** The test's "http://localhost:1234/bs/bs", where fixing turns ':' into
      '_'. */
  lemma LocalhostExample(u: string, decode: string -> Option<string>, fix: string -> string, sep: char)
    requires u == "http://localhost:1234/bs/bs"
    requires DirName("localhost:1234", decode, fix) == Some("localhost_1234") && DirName("bs", decode, fix) == Some("bs")
    ensures DirectoriesPath(u, decode, fix, sep)
            == Some("localhost_1234" + [sep] + "bs" + [sep] + "bs")
  {
    var host, bs := "localhost:1234", "bs";
    assert u == "http" + (ProtocolDef + ("/" + (host + ['/'] + bs + ['/'] + bs)));
    assert PlainSegment(host) && PlainSegment(bs);
    ThreeSegments("http", host, bs, bs, decode, fix, sep, "localhost_1234", "bs", "bs");
  }

  /** The test's "https://domain.com": a single segment. */
  lemma DomainOnlyExample(decode: string -> Option<string>, fix: string -> string, sep: char)
    requires DirName("domain.com", decode, fix) == Some("domain.com")
    ensures DirectoriesPath("https://domain.com", decode, fix, sep) == Some("domain.com")
  {
    var segs := ["domain.com"];
    assert "https://domain.com" == "https" + (ProtocolDef + ("/" + Join(segs, '/')));
    ServerSegments("https", segs, decode, fix, sep);
  }

  /** The test's "https://domain.com/m". */
  lemma DomainExample(decode: string -> Option<string>, fix: string -> string, sep: char)
    requires DirName("domain.com", decode, fix) == Some("domain.com") && DirName("m", decode, fix) == Some("m")
    ensures DirectoriesPath("https://domain.com/m", decode, fix, sep) == Some("domain.com" + [sep] + "m")
  {
    var segs := ["domain.com", "m"];
    assert Join(segs, '/') == "domain.com/m";
    assert "https://domain.com/m" == "https" + (ProtocolDef + ("/" + Join(segs, '/')));
    assert PlainSegment(segs[0]) && PlainSegment(segs[1]);
    ServerSegments("https", segs, decode, fix, sep);
    assert decode(segs[0]).Some? && decode(segs[1]).Some?;
    var names := DirNames(segs, decode, fix).value;
    assert DirName(segs[0], decode, fix) == Some(names[0]) && DirName(segs[1], decode, fix) == Some(names[1]);
    assert names == ["domain.com", "m"];
    assert Join(names, sep) == "domain.com" + [sep] + "m";
  }

  /** Without ':' there is no protocol to strip. */
  lemma NoColon(serverUrl: string)
    requires ':' !in serverUrl
    ensures StripProtocol(serverUrl) == serverUrl
  {
    OccursAtFirst(serverUrl, ProtocolDef, IndexOf(serverUrl, ProtocolDef));
  }

  /** The test's "/", "////" and "": the placeholder name. */
  lemma EmptyExamples(decode: string -> Option<string>, fix: string -> string, sep: char)
    ensures DirectoriesPath("/", decode, fix, sep) == Some(ResultForEmptyUrl)
    ensures DirectoriesPath("////", decode, fix, sep) == Some(ResultForEmptyUrl)
    ensures DirectoriesPath("", decode, fix, sep) == Some(ResultForEmptyUrl)
  {
    NoColon("/");
    NoColon("////");
    NoColon("");
    SeparatorsOnly("/", decode, fix, sep);
    SeparatorsOnly("////", decode, fix, sep);
  }
}
