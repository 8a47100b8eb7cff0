/**
 Partial detection and partial-name derivation of the plugin's
 `registerPartial` helper: a module path names a partial when its last
 segment starts with `_`, and the partial's name is the path with every
 `templates/` and `partials/` removed in one left-to-right pass and every
 remaining `/` turned into `.`.
 */
module Paths {

  const Templates: string := "templates/"
  const Partials: string := "partials/"

  /** The position of the last `/` in `s`, or -1 when there is none
      (JavaScript's `lastIndexOf('/')`). */
  function LastSlash(s: string): (r: int)
    ensures -1 <= r < |s|
    ensures r >= 0 ==> s[r] == '/'
    ensures forall j :: r < j < |s| ==> s[j] != '/'
  {
    if s == [] then -1
    else if s[|s| - 1] == '/' then |s| - 1
    else LastSlash(s[..|s| - 1])
  }

  /** The file name: the text after the last `/`, or the whole path. */
  function LastSegment(s: string): (seg: string)
    ensures '/' !in seg
    ensures |seg| <= |s| && s[|s| - |seg|..] == seg
    ensures |seg| == |s| || s[|s| - |seg| - 1] == '/'
  {
    var r := LastSlash(s);
    var seg := s[r + 1..];
    assert |s| - |seg| - 1 == r;
    seg
  }

  /** `fileName.charAt(0) === '_'`; the empty file name is not a partial,
      so a path ending in `/` never names one. */
  predicate IsPartial(filePath: string)
    ensures IsPartial(filePath) ==> '_' in filePath && filePath[|filePath| - 1] != '/'
  {
    var seg := LastSegment(filePath);
    |seg| > 0 && seg[0] == '_'
  }

  /** One left-to-right pass of `replace(/templates\/|partials\//g, '')`:
      a match is removed and scanning resumes after it, so text that a
      removal brings together is not scanned again. */
  function StripDirs(s: string): (r: string)
    ensures |r| <= |s|
    decreases |s|
  {
    if s == [] then []
    else if Templates <= s then StripDirs(s[|Templates|..])
    else if Partials <= s then StripDirs(s[|Partials|..])
    else [s[0]] + StripDirs(s[1..])
  }

  /** `replace(/\//g, '.')`. */
  function DotSlashes(s: string): (r: string)
    ensures |r| == |s|
    ensures '/' !in r
  {
    if s == [] then []
    else [if s[0] == '/' then '.' else s[0]] + DotSlashes(s[1..])
  }

  /** The name under which a partial is registered. */
  function PartialName(filePath: string): (name: string)
    ensures '/' !in name
  {
    DotSlashes(StripDirs(filePath))
  }

  /** A `templates/` or `partials/` starts at `j` in `s`. */
  predicate MarkerAt(s: string, j: int)
    requires 0 <= j <= |s|
  {
    Templates <= s[j..] || Partials <= s[j..]
  }

  /** Some `templates/` or `partials/` occurs in `s`. */
  predicate HasDirMarker(s: string)
  {
    exists j :: 0 <= j < |s| && MarkerAt(s, j)
  }

  /** Reference reading of the partial test: the `_` at `k` starts a
      segment (it is first or follows a `/`) and no `/` comes after it. */
  predicate SegmentStartsWithUnderscore(s: string, k: int)
  {
    0 <= k < |s| && s[k] == '_' && (k == 0 || s[k - 1] == '/') && '/' !in s[k..]
  }

  lemma IsPartialIff(s: string)
    ensures IsPartial(s) <==> exists k :: SegmentStartsWithUnderscore(s, k)
  {
    var r := LastSlash(s);
    if IsPartial(s) {
      assert s[r + 1..] == LastSegment(s);
      assert SegmentStartsWithUnderscore(s, r + 1);
    }
    if k :| SegmentStartsWithUnderscore(s, k) {
      assert r == k - 1;
      assert LastSegment(s) == s[k..];
    }
  }

  /** Markers after the first character are the markers of the rest. */
  lemma MarkerAtRest(s: string, j: int)
    requires 0 < j <= |s|
    ensures MarkerAt(s, j) == MarkerAt(s[1..], j - 1)
  {
    assert s[1..][j - 1..] == s[j..];
  }

  /** The pass changes the path exactly when the path holds a marker. */
  lemma {:induction false} StripDirsUnchangedIff(s: string)
    ensures StripDirs(s) == s <==> !HasDirMarker(s)
    decreases |s|
  {
    if s == [] {
    } else if Templates <= s || Partials <= s {
      assert s[0..] == s;
      assert MarkerAt(s, 0);
    } else {
      var t := s[1..];
      StripDirsUnchangedIff(t);
      assert s[0..] == s;
      assert !MarkerAt(s, 0);
      assert StripDirs(s) == [s[0]] + StripDirs(t);
      assert StripDirs(s) == s <==> StripDirs(t) == t;
      if HasDirMarker(s) {
        var j :| 0 <= j < |s| && MarkerAt(s, j);
        MarkerAtRest(s, j);
        assert HasDirMarker(t);
      }
      if HasDirMarker(t) {
        var j :| 0 <= j < |t| && MarkerAt(t, j);
        MarkerAtRest(s, j + 1);
        assert HasDirMarker(s);
      }
    }
  }

  /** A marker ends in `/`, so it starts a string that ends in slash-free
      text exactly when it starts the part before that text. */
  lemma MarkerBeforeTail(p: string, tail: string, marker: string)
    requires '/' !in tail
    requires |marker| > 0 && marker[|marker| - 1] == '/'
    ensures marker <= p + tail <==> marker <= p
  {
    if |marker| <= |p| {
      assert (p + tail)[..|marker|] == p[..|marker|];
    }
  }

  /** Slash-free text passes through untouched. */
  lemma {:induction false} StripDirsSlashFree(s: string)
    requires '/' !in s
    ensures StripDirs(s) == s
    decreases |s|
  {
    if s != [] {
      MarkerBeforeTail([], s, Templates);
      MarkerBeforeTail([], s, Partials);
      assert [] + s == s;
      StripDirsSlashFree(s[1..]);
    }
  }

  /** The pass never reaches into a slash-free tail: every match ends in
      a `/`, so it lies wholly in the part before. */
  lemma {:induction false} StripDirsKeepsTail(p: string, tail: string)
    requires '/' !in tail
    ensures StripDirs(p + tail) == StripDirs(p) + tail
    decreases |p|
  {
    MarkerBeforeTail(p, tail, Templates);
    MarkerBeforeTail(p, tail, Partials);
    if p == [] {
      assert p + tail == tail;
      StripDirsSlashFree(tail);
    } else if Templates <= p {
      assert (p + tail)[|Templates|..] == p[|Templates|..] + tail;
      StripDirsKeepsTail(p[|Templates|..], tail);
    } else if Partials <= p {
      assert (p + tail)[|Partials|..] == p[|Partials|..] + tail;
      StripDirsKeepsTail(p[|Partials|..], tail);
    } else {
      assert (p + tail)[1..] == p[1..] + tail;
      StripDirsKeepsTail(p[1..], tail);
    }
  }

  /** The directory part of a path: everything before its file name. */
  function Dir(filePath: string): (dir: string)
    ensures filePath == dir + LastSegment(filePath)
  {
    var seg := LastSegment(filePath);
    filePath[..|filePath| - |seg|]
  }

  /** The partial name is the directory part's name followed by the file
      name as it is spelt, leading `_` included. */
  lemma PartialNameKeepsFileName(filePath: string)
    ensures PartialName(filePath) == PartialName(Dir(filePath)) + LastSegment(filePath)
    ensures IsPartial(filePath) ==>
      PartialName(filePath)[|PartialName(Dir(filePath))|] == '_'
  {
    var seg := LastSegment(filePath);
    var dir := Dir(filePath);
    StripDirsKeepsTail(dir, seg);
    DotSlashesAppend(StripDirs(dir), seg);
    DotSlashesSlashFree(seg);
  }

  /** The file name is whatever follows the last `/`. */
  lemma LastSegmentAfterSlash(dir: string, seg: string)
    requires '/' !in seg
    ensures LastSlash(dir + "/" + seg) == |dir|
    ensures LastSegment(dir + "/" + seg) == seg
  {
    var s := dir + "/" + seg;
    var r := LastSlash(s);
    assert s[|dir|] == '/';
    assert s[|dir| + 1..] == seg;
  }

  /** Each `/` becomes `.` and every other character is kept where it
      was. */
  lemma {:induction false} DotSlashesAt(s: string, i: int)
    requires 0 <= i < |s|
    ensures DotSlashes(s)[i] == if s[i] == '/' then '.' else s[i]
    decreases |s|
  {
    if i > 0 {
      DotSlashesAt(s[1..], i - 1);
    }
  }

  /** `/` becomes `.` piece by piece. */
  lemma {:induction false} DotSlashesAppend(a: string, b: string)
    ensures DotSlashes(a + b) == DotSlashes(a) + DotSlashes(b)
    decreases |a|
  {
    if a == [] {
      assert a + b == b;
    } else {
      assert (a + b)[1..] == a[1..] + b;
      DotSlashesAppend(a[1..], b);
    }
  }

  /** Slash-free text keeps its spelling. */
  lemma {:induction false} DotSlashesSlashFree(s: string)
    requires '/' !in s
    ensures DotSlashes(s) == s
    decreases |s|
  {
    if s != [] {
      assert '/' !in s[1..];
      DotSlashesSlashFree(s[1..]);
    }
  }

  /** `foo/` holds no marker. */
  lemma StripDirsFoo()
    ensures StripDirs("foo/") == "foo/"
  {
    StripDirsUnchangedIff("foo/");
  }

  /** A file under `templates/foo/` is named `foo.` and its file name. */
  lemma PartialNameUnderTemplatesFoo(file: string)
    requires '/' !in file
    ensures PartialName(Templates + "foo/" + file) == "foo." + file
  {
    var a := Templates + "foo/" + file;
    assert Templates <= a && a[10..] == "foo/" + file;
    StripDirsKeepsTail("foo/", file);
    StripDirsFoo();
    DotSlashesAppend("foo/", file);
    DotSlashesSlashFree(file);
    assert DotSlashes("foo/") == "foo.";
  }

  /** A file directly under `partials/` is named by its file name. */
  lemma PartialNameUnderPartials(file: string)
    requires '/' !in file
    ensures PartialName(Partials + file) == file
  {
    var b := Partials + file;
    NotPrefixAt(Templates, b, 0);
    assert Partials <= b && b[9..] == file;
    StripDirsSlashFree(file);
    DotSlashesSlashFree(file);
  }

  /** A file directly under `templates/` is named by its file name. */
  lemma PartialNameUnderTemplates(file: string)
    requires '/' !in file
    ensures PartialName(Templates + file) == file
  {
    var t := Templates + file;
    assert Templates <= t && t[10..] == file;
    StripDirsSlashFree(file);
    DotSlashesSlashFree(file);
  }

  /** A file directly under either marker directory is a partial exactly
      when its file name starts with `_`. */
  lemma IsPartialUnderMarker(file: string)
    requires '/' !in file
    ensures IsPartial(Templates + file) <==> |file| > 0 && file[0] == '_'
    ensures IsPartial(Partials + file) <==> |file| > 0 && file[0] == '_'
  {
    LastSegmentAfterSlash("templates", file);
    assert "templates" + "/" + file == Templates + file;
    LastSegmentAfterSlash("partials", file);
    assert "partials" + "/" + file == Partials + file;
  }

  /** The worked case under `partials/`: the directory is dropped and
      the `_` kept. */
  lemma PartialNameOfBaz()
    ensures PartialName("partials/_baz") == "_baz"
  {
    PartialNameUnderPartials("_baz");
    assert Partials + "_baz" == "partials/_baz";
  }

  /** The worked case under `templates/`: the directory is dropped, the
      inner `/` becomes `.` and the `_` is kept. */
  lemma PartialNameOfBar()
    ensures PartialName("templates/foo/_bar") == "foo._bar"
  {
    PartialNameUnderTemplatesFoo("_bar");
    assert Templates + "foo/" + "_bar" == "templates/foo/_bar";
    assert "foo." + "_bar" == "foo._bar";
  }

  /** The markers are removed inside a segment as well, not only as whole
      leading segments: `mytemplates/_x` is named `my_x`. */
  lemma PartialNameInsideSegment(file: string)
    requires '/' !in file
    ensures PartialName(['m'] + (['y'] + (Templates + file))) == ['m'] + (['y'] + file)
  {
    var r1 := Templates + file;
    assert r1[|Templates|..] == file;
    var r0 := ['y'] + r1;
    NoMarkerAtOther('m', r0);
    StripDirsKeepsFirst('m', r0);
    NoMarkerAtOther('y', r1);
    StripDirsKeepsFirst('y', r1);
    StripDirsSlashFree(file);
    DotSlashesSlashFree(['m'] + (['y'] + file));
  }

  /** Which paths name partials. */
  lemma IsPartialExamples()
    ensures IsPartial("templates/foo/_bar") && !IsPartial("templates/foo/bar")
    ensures !IsPartial("a/_b/") && !IsPartial("")
  {
    LastSegmentAfterSlash("templates/foo", "_bar");
    assert "templates/foo" + "/" + "_bar" == "templates/foo/_bar";
    LastSegmentAfterSlash("templates/foo", "bar");
    assert "templates/foo" + "/" + "bar" == "templates/foo/bar";
    LastSegmentAfterSlash("a/_b", "");
    assert "a/_b" + "/" + "" == "a/_b/";
  }

  /** A marker is not a prefix of text that differs from it at `i`. */
  lemma NotPrefixAt(marker: string, s: string, i: nat)
    requires i < |marker| && i < |s| && marker[i] != s[i]
    ensures !(marker <= s)
  {
  }

  /** `ates/` holds no marker. */
  lemma StripDirsAtes()
    ensures StripDirs("ates/") == "ates/"
  {
    var t := "ates/";
    StripDirsUnchangedIff(t);
  }

  /** A character that starts no marker is kept and the pass moves on. */
  lemma StripDirsKeepsFirst(c: char, rest: string)
    requires !(Templates <= [c] + rest) && !(Partials <= [c] + rest)
    ensures StripDirs([c] + rest) == [c] + StripDirs(rest)
  {
    assert ([c] + rest)[1..] == rest;
  }

  /** A `t` starts no marker unless `templ` continues with `a`. */
  lemma NoMarkerAtT(x: string)
    requires |x| > 4 && x[4] != 'a'
    ensures !(Templates <= ['t'] + x) && !(Partials <= ['t'] + x)
  {
    var s := ['t'] + x;
    assert s[5] == x[4];
    NotPrefixAt(Templates, s, 5);
    NotPrefixAt(Partials, s, 0);
  }

  /** A `p` starts no marker unless an `a` follows it. */
  lemma NoMarkerAtP(x: string)
    requires |x| > 0 && x[0] != 'a'
    ensures !(Templates <= ['p'] + x) && !(Partials <= ['p'] + x)
  {
    var s := ['p'] + x;
    NotPrefixAt(Templates, s, 0);
    NotPrefixAt(Partials, s, 1);
  }

  /** Any other character starts no marker. */
  lemma NoMarkerAtOther(c: char, x: string)
    requires c != 't' && c != 'p'
    ensures !(Templates <= [c] + x) && !(Partials <= [c] + x)
  {
    NotPrefixAt(Templates, [c] + x, 0);
    NotPrefixAt(Partials, [c] + x, 0);
  }

  /** `tem` starts no marker when the text after it does not go on
      with `pla`. */
  lemma StripDirsTem(x: string)
    requires |x| > 2 && x[2] != 'a'
    ensures StripDirs(['t'] + (['e'] + (['m'] + x))) == ['t'] + (['e'] + (['m'] + StripDirs(x)))
  {
    var r1 := ['m'] + x;
    var r0 := ['e'] + r1;
    assert r0[4] == x[2];
    NoMarkerAtT(r0);
    StripDirsKeepsFirst('t', r0);
    NoMarkerAtOther('e', r1);
    StripDirsKeepsFirst('e', r1);
    NoMarkerAtOther('m', x);
    StripDirsKeepsFirst('m', x);
  }

  /** `pl` starts no marker, and the `templates/` after it is removed. */
  lemma StripDirsPl(t: string)
    ensures StripDirs(['p'] + (['l'] + (Templates + t))) == ['p'] + (['l'] + StripDirs(t))
  {
    var r4 := Templates + t;
    assert r4[|Templates|..] == t;
    var r3 := ['l'] + r4;
    NoMarkerAtP(r3);
    StripDirsKeepsFirst('p', r3);
    NoMarkerAtOther('l', r4);
    StripDirsKeepsFirst('l', r4);
  }

  /** `templ` spelt out character by character. */
  lemma TemplChars(x: string)
    ensures "templ" + x == ['t'] + (['e'] + (['m'] + (['p'] + (['l'] + x))))
  {
  }

  /** The first five characters of `templtemplates/...` start no marker,
      the next ten are one. */
  lemma StripDirsTempl(t: string)
    ensures StripDirs("templ" + (Templates + t)) == "templ" + StripDirs(t)
  {
    var x := ['p'] + (['l'] + (Templates + t));
    assert x[2] == 't';
    StripDirsTem(x);
    StripDirsPl(t);
    TemplChars(Templates + t);
    TemplChars(StripDirs(t));
  }

  /** The pass does not rescan: removing a marker can join text into a
      new marker, which stays in the name. */
  lemma StripDirsSinglePass()
    ensures StripDirs("templtemplates/ates/") == "templates/"
    ensures HasDirMarker(StripDirs("templtemplates/ates/"))
  {
    assert "templtemplates/ates/" == "templ" + (Templates + "ates/");
    StripDirsAtes();
    StripDirsTempl("ates/");
    assert "templ" + "ates/" == "templates/";
    assert MarkerAt("templates/", 0) by {
      assert "templates/"[0..] == "templates/";
    }
  }

  /** `mytemplates/_x` is named `my_x`. */
  lemma PartialNameOfMyX()
    ensures PartialName("mytemplates/_x") == "my_x"
  {
    PartialNameInsideSegment("_x");
    assert ['m'] + (['y'] + (Templates + "_x")) == "mytemplates/_x";
    assert ['m'] + (['y'] + "_x") == "my_x";
  }
}
