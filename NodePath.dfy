/**
 * The two functions of Node's `path` module (POSIX flavour) that the upload
 * handler calls: `extname`, which names a file's extension, and `join`,
 * which builds the storage path of a blob.
 */
module NodePath {
  import opened Wrappers
  import JsStrings

  /** `p` without its trailing '/' characters. */
  function StripTrailingSlashes(p: string): string
  {
    if |p| > 0 && p[|p| - 1] == '/' then StripTrailingSlashes(p[..|p| - 1]) else p
  }

  /** The text after the last '/' of `p`, or all of `p` when it has none. */
  function AfterLastSlash(p: string): string
  {
    if |p| == 0 || p[|p| - 1] == '/' then "" else AfterLastSlash(p[..|p| - 1]) + [p[|p| - 1]]
  }

  /** The last component of a path: trailing slashes ignored, everything up to the last '/' dropped. */
  function LastSegment(p: string): string
  {
    AfterLastSlash(StripTrailingSlashes(p))
  }

  /** The position of the last `c` in `s`. */
  function LastIndexOf(s: string, c: char): Option<nat>
  {
    if |s| == 0 then None
    else if s[|s| - 1] == c then Some(|s| - 1)
    else LastIndexOf(s[..|s| - 1], c)
  }

  /**
   * path.extname: in the last segment, the text from its last '.' to its
   * end; the empty string when the segment has no '.', when that '.' is the
   * segment's first character (".bashrc"), or when the segment is "..".
   */
  function ExtName(p: string): string
  {
    var seg := LastSegment(p);
    match LastIndexOf(seg, '.')
    case None => ""
    case Some(d) => if d < |seg| && d != 0 && seg != ".." then seg[d..] else ""
  }

  /**
   * path.join over segments that are already normal (no "..", no "." and no
   * repeated '/'): the non-empty segments separated by '/'.
   */
  function JoinPaths(segments: seq<string>): string
  {
    JsStrings.Join(NonEmpty(segments), "/")
  }

  function NonEmpty(segments: seq<string>): (r: seq<string>)
    ensures forall k :: 0 <= k < |r| ==> r[k] != ""
  {
    if |segments| == 0 then []
    else if segments[0] == "" then NonEmpty(segments[1..])
    else [segments[0]] + NonEmpty(segments[1..])
  }

  // ---------------------------------------------------------------------------
  // Lemmas

  /** Only '/' characters are stripped, and the result does not end in one. */
  lemma {:induction false} StripTrailingSlashesFacts(p: string)
    ensures |StripTrailingSlashes(p)| <= |p| && StripTrailingSlashes(p) == p[..|StripTrailingSlashes(p)|]
    ensures StripTrailingSlashes(p) == [] || StripTrailingSlashes(p)[|StripTrailingSlashes(p)| - 1] != '/'
    ensures forall i :: |StripTrailingSlashes(p)| <= i < |p| ==> p[i] == '/'
  {
    if |p| > 0 && p[|p| - 1] == '/' {
      StripTrailingSlashesFacts(p[..|p| - 1]);
    }
  }

  /** The text after the last '/' holds no '/'. */
  lemma {:induction false} AfterLastSlashHasNoSlash(p: string)
    ensures '/' !in AfterLastSlash(p)
  {
    if |p| > 0 && p[|p| - 1] != '/' {
      AfterLastSlashHasNoSlash(p[..|p| - 1]);
    }
  }

  /** The text after the last '/' is a suffix, preceded by '/' unless it is all of `p`. */
  lemma {:induction false} AfterLastSlashIsSuffix(p: string)
    ensures |AfterLastSlash(p)| <= |p| && AfterLastSlash(p) == p[|p| - |AfterLastSlash(p)|..]
    ensures |AfterLastSlash(p)| < |p| ==> p[|p| - |AfterLastSlash(p)| - 1] == '/'
  {
    if |p| > 0 && p[|p| - 1] != '/' {
      var q := p[..|p| - 1];
      AfterLastSlashIsSuffix(q);
      var k := |q| - |AfterLastSlash(q)|;
      SuffixOfSnoc(q, p[|p| - 1], k);
      assert p == q + [p[|p| - 1]];
    }
  }

  lemma SuffixOfSnoc(q: string, x: char, k: nat)
    requires k <= |q|
    ensures (q + [x])[k..] == q[k..] + [x]
    ensures k > 0 ==> (q + [x])[k - 1] == q[k - 1]
  {
  }

  /** LastIndexOf finds an occurrence of `c` with none after it, and finds nothing only when there is none. */
  lemma {:induction false} LastIndexOfFacts(s: string, c: char)
    ensures LastIndexOf(s, c).None? <==> c !in s
    ensures LastIndexOf(s, c).Some? ==>
              var d := LastIndexOf(s, c).value; d < |s| && s[d] == c && c !in s[d + 1..]
  {
    if |s| > 0 && s[|s| - 1] != c {
      LastIndexOfFacts(s[..|s| - 1], c);
      var r := LastIndexOf(s, c);
      assert r.Some? ==> s[r.value + 1..] == s[..|s| - 1][r.value + 1..] + [s[|s| - 1]];
      assert s == s[..|s| - 1] + [s[|s| - 1]];
    }
  }

  /** An extension is empty or a '.' followed by text without '.' or '/'. */
  lemma ExtNameFacts(p: string)
    ensures ExtName(p) == [] || (ExtName(p)[0] == '.' && '.' !in ExtName(p)[1..])
    ensures '/' !in ExtName(p)
  {
    var seg := LastSegment(p);
    AfterLastSlashHasNoSlash(StripTrailingSlashes(p));
    LastIndexOfFacts(seg, '.');
    match LastIndexOf(seg, '.')
    case None =>
    case Some(d) =>
      if d < |seg| && d != 0 && seg != ".." {
        ExtOfSegment(seg, d);
      }
  }

  lemma ExtOfSegment(seg: string, d: nat)
    requires d < |seg| && seg[d] == '.' && '.' !in seg[d + 1..] && '/' !in seg
    ensures seg[d..][0] == '.' && '.' !in seg[d..][1..] && '/' !in seg[d..]
  {
    var r := seg[d..];
    assert r[1..] == seg[d + 1..];
    forall i | 0 <= i < |r| ensures r[i] != '/' {
      assert r[i] == seg[d + i];
    }
  }

  lemma {:induction false} AfterLastSlashOfPlain(p: string)
    requires '/' !in p
    ensures AfterLastSlash(p) == p
  {
    if |p| > 0 {
      AfterLastSlashOfPlain(p[..|p| - 1]);
      assert p == p[..|p| - 1] + [p[|p| - 1]];
    }
  }

  /** The '.' that introduces an extension free of dots is the last one. */
  lemma LastIndexOfBeforeExtension(base: string, ext: string)
    requires '.' !in ext
    ensures LastIndexOf(base + "." + ext, '.') == Some(|base|)
  {
    var s := base + "." + ext;
    var r := LastIndexOf(s, '.');
    LastIndexOfFacts(s, '.');
    assert s[|base|] == '.';
    assert r.Some?;

  }

  /**
   * For a file name `base.ext` with no '/' and no '.' in `ext`, extname is
   * ".ext", unless `base` is empty (a dot file) or the name is "..".
   */
  lemma ExtNameOfFileName(base: string, ext: string)
    requires '/' !in base && '/' !in ext && '.' !in ext
    requires base != "" && !(base == "." && ext == "")
    ensures ExtName(base + "." + ext) == "." + ext
  {
    var p := base + "." + ext;
    assert p[|p| - 1] != '/' by {
      if ext == "" { assert p[|p| - 1] == '.'; } else { assert p[|p| - 1] == ext[|ext| - 1]; }
    }
    assert StripTrailingSlashes(p) == p;
    assert '/' !in p by {
      forall i | 0 <= i < |p| ensures p[i] != '/' {
        if i < |base| { assert p[i] == base[i]; }
        else if i > |base| { assert p[i] == ext[i - |base| - 1]; }
      }
    }
    AfterLastSlashOfPlain(p);
    LastIndexOfBeforeExtension(base, ext);
    assert p == ".." ==> base == "." && ext == "";
    assert p[|base|..] == "." + ext;
  }

  /** A name whose only '.' is its first character (a dot file) has no extension. */
  lemma ExtNameOfDotFile(name: string)
    requires '/' !in name && '.' !in name
    ensures ExtName("." + name) == ""
  {
    var p := "." + name;
    assert '/' !in p by {
      forall i | 0 <= i < |p| ensures p[i] != '/' {
        if i > 0 { assert p[i] == name[i - 1]; }
      }
    }
    assert p == [] + "." + name;
    LastIndexOfBeforeExtension([], name);
    if name == [] {
      assert StripTrailingSlashes(p) == p;
    } else {
      assert p[|p| - 1] == name[|name| - 1];
      assert StripTrailingSlashes(p) == p;
    }
    AfterLastSlashOfPlain(p);
  }

  /** A name without any '.' has no extension. */
  lemma ExtNameWithoutDot(p: string)
    requires '.' !in p
    ensures ExtName(p) == ""
  {
    var seg := LastSegment(p);
    var t := StripTrailingSlashes(p);
    StripTrailingSlashesFacts(p);
    AfterLastSlashIsSuffix(t);
    LastIndexOfFacts(seg, '.');
    assert seg == t[|t| - |seg|..];
    assert '.' !in seg by {
      forall i | 0 <= i < |seg| ensures seg[i] != '.' {
        assert seg[i] == t[|t| - |seg| + i] == p[|t| - |seg| + i];
      }
    }
  }

  /** Joining three segments whose first and last are non-empty: a middle "" is skipped. */
  lemma JoinPathsOfThree(a: string, b: string, c: string)
    requires a != "" && c != ""
    ensures JoinPaths([a, b, c]) == if b == "" then a + "/" + c else a + "/" + b + "/" + c
  {
    assert [c][1..] == [];
    assert NonEmpty([c]) == [c];
    assert [b, c][1..] == [c];
    assert [a, b, c][1..] == [b, c];
    if b == "" {
      assert NonEmpty([a, b, c]) == [a, c];
      assert [a, c][1..] == [c];
      assert JsStrings.Join([a, c], "/") == a + "/" + JsStrings.Join([c], "/");
    } else {
      assert NonEmpty([a, b, c]) == [a, b, c];
      assert JsStrings.Join([b, c], "/") == b + "/" + c;
    }
  }
}
