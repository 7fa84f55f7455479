/** How a request names its scratch files. The uploaded filename is split on
    dots; its first and last segments and the request timestamp give the input
    path `str(Path("/tmp") / f"{first}_{timestamp}.{last}")`, and the separated
    vocals go to the input path with `_vocals.wav` appended. */
module ScratchNaming {
  import opened PyStr
  import opened PosixPath

  const ScratchDir: string := "/tmp"
  const VocalsStem: string := "Vocals"
  const VocalsSuffix: string := "_vocals.wav"

  /** The file name built from the first segment, the timestamp and the last segment. */
  function UploadName(first: string, timestamp: string, last: string): (name: string)
    ensures |name| == |first| + |timestamp| + |last| + 2
    ensures name[|first|] == '_' && name[|first| + 1 + |timestamp|] == '.'
    ensures name[..|first|] == first && name[|name| - |last|..] == last
    ensures name[|first| + 1..|first| + 1 + |timestamp|] == timestamp
  {
    first + "_" + timestamp + "." + last
  }

  /** The input scratch path for a filename already split into at least two segments. */
  function ScratchPath(segments: seq<string>, timestamp: string): (path: string)
    requires |segments| >= 2
    ensures |path| > 0 && path[0] == '/'
  {
    var name := UploadName(segments[0], timestamp, Last(segments));
    UnderAbsoluteDir(ScratchDir, name);
    Under(ScratchDir, name)
  }

  /** The output path handed to the separator for the vocals stem. */
  function OutputPath(input: string): (output: string)
    ensures output != input
    ensures |output| == |input| + |VocalsSuffix|
    ensures output[..|input|] == input && output[|input|..] == VocalsSuffix
  {
    input + VocalsSuffix
  }

  /** The stem-to-name map passed to the separator. */
  function OutputNames(input: string): (names: map<string, string>)
    ensures names.Keys == {VocalsStem}
    ensures names[VocalsStem] == OutputPath(input) && names[VocalsStem] != input
  {
    map[VocalsStem := OutputPath(input)]
  }

  /** A slash-free upload name is one path component inside the scratch directory. */
  lemma UnderScratchDir(first: string, timestamp: string, last: string)
    requires '/' !in first && '/' !in timestamp && '/' !in last
    ensures Under(ScratchDir, UploadName(first, timestamp, last))
         == "/tmp/" + first + "_" + timestamp + "." + last
  {
    var name := UploadName(first, timestamp, last);
    assert '/' !in "_" && '/' !in ".";
    assert IsComponent(name) by {
      assert |name| >= 2;
    }
    UnderScratch(name);
    InScratchDir(first, timestamp, last);
  }

  /** A single proper component lands directly inside the scratch directory. */
  lemma UnderScratch(name: string)
    requires IsComponent(name)
    ensures Under(ScratchDir, name) == "/tmp/" + name
  {
    assert ScratchDir == "/" + "tmp";
    UnderPlainName("tmp", name);
    assert "/" + "tmp" + "/" == "/tmp/";
  }

  /** For a slash-free filename with at least one dot, the path is exactly
      `/tmp/<first>_<timestamp>.<last>`, whatever lies between the first and
      the last dot. */
  lemma ScratchPathExact(filename: string, timestamp: string)
    requires '.' in filename && '/' !in filename && '/' !in timestamp
    ensures var segments := Split(filename, '.');
      |segments| >= 2 &&
      ScratchPath(segments, timestamp)
        == "/tmp/" + segments[0] + "_" + timestamp + "." + Last(segments)
  {
    var segments := Split(filename, '.');
    SplitCount(filename, '.');
    SplitEnds(filename, '.');
    var first, last := segments[0], Last(segments);
    assert '/' !in first by {
      assert first == filename[..|first|];
    }
    assert '/' !in last by {
      assert last == filename[|filename| - |last|..];
    }
    UnderScratchDir(first, timestamp, last);
  }

  /** Middle segments are discarded: `a.m.b` is stored as `/tmp/a_<ts>.b`. */
  lemma DropsMiddleSegments(a: string, m: string, b: string, timestamp: string)
    requires '.' !in a && '.' !in b
    requires '/' !in a && '/' !in b && '/' !in timestamp
    ensures var segments := Split(a + "." + m + "." + b, '.');
      |segments| >= 2 && ScratchPath(segments, timestamp) == "/tmp/" + a + "_" + timestamp + "." + b
  {
    var filename := a + "." + m + "." + b;
    assert filename == a + ['.'] + (m + "." + b);
    assert filename == (a + "." + m) + ['.'] + b;
    SplitAtFirst(a, m + "." + b, '.');
    SplitAtLast(a + "." + m, b, '.');
    UnderScratchDir(a, timestamp, b);
  }

  /** A two-segment name `a.b` is stored as `/tmp/a_<ts>.b`; either side may be empty. */
  lemma TwoSegments(a: string, b: string, timestamp: string)
    requires '.' !in a && '.' !in b
    requires '/' !in a && '/' !in b && '/' !in timestamp
    ensures var segments := Split(a + "." + b, '.');
      |segments| == 2 && ScratchPath(segments, timestamp) == "/tmp/" + a + "_" + timestamp + "." + b
  {
    SplitAtFirst(a, b, '.');
    SplitWithoutSep(b, '.');
    UnderScratchDir(a, timestamp, b);
  }

  /** The middle segment of `a.b.c` is dropped. */
  lemma MiddleDroppedExample(filename: string, timestamp: string)
    requires filename == "a.b.c" && '/' !in timestamp
    ensures var segments := Split(filename, '.');
      |segments| >= 2 && ScratchPath(segments, timestamp) == "/tmp/a_" + timestamp + ".c"
  {
    var segments := Split(filename, '.');
    assert |segments| >= 2 && ScratchPath(segments, timestamp) == "/tmp/" + "a" + "_" + timestamp + "." + "c" by {
      assert filename == "a" + "." + "b" + "." + "c";
      DropsMiddleSegments("a", "b", "c", timestamp);
    }
    assert "/tmp/" + "a" + "_" + timestamp + "." + "c" == "/tmp/a_" + timestamp + ".c" by {
      assert "/tmp/" + "a" + "_" == "/tmp/a_";
      AppendAssoc("/tmp/a_" + timestamp, ".", "c");
    }
  }

  /** A name with nothing before its only dot, such as `.bashrc`, is accepted
      with an empty base. */
  lemma EmptyBase(ext: string, timestamp: string)
    requires '.' !in ext && '/' !in ext && '/' !in timestamp
    ensures var segments := Split("." + ext, '.');
      |segments| == 2 && ScratchPath(segments, timestamp) == "/tmp/_" + timestamp + "." + ext
  {
    var name := "." + ext;
    assert name == "" + "." + ext;
    TwoSegments("", ext, timestamp);
    assert "/tmp/" + "" + "_" == "/tmp/_";
  }

  /** A name with nothing after its only dot, such as `song.`, is accepted
      with an empty extension. */
  lemma EmptyExtension(base: string, timestamp: string)
    requires '.' !in base && '/' !in base && '/' !in timestamp
    ensures var segments := Split(base + ".", '.');
      |segments| == 2 && ScratchPath(segments, timestamp) == "/tmp/" + base + "_" + timestamp + "."
  {
    assert base + "." == base + "." + "";
    TwoSegments(base, "", timestamp);
  }

  /** pathlib discards the scratch directory when the first segment is an
      absolute path: `/<dir>/<base>.<ext>` is stored as `/<dir>/<base>_<ts>.<ext>`,
      under the directory the filename names instead of the scratch directory. */
  lemma AbsoluteNameEscapes(d: string, base: string, ext: string, timestamp: string)
    requires IsComponent(d) && '.' !in d
    requires '/' !in base && '.' !in base && '/' !in ext && '.' !in ext && '/' !in timestamp
    ensures var segments := Split("/" + d + "/" + base + "." + ext, '.');
      |segments| == 2 && ScratchPath(segments, timestamp) == "/" + d + "/" + base + "_" + timestamp + "." + ext
  {
    var first := "/" + d + "/" + base;
    var file := base + "_" + timestamp + "." + ext;
    assert '.' !in first;
    assert IsComponent(file);
    assert "/" + d + "/" + base + "." + ext == first + "." + ext;
    SplitsIntoTwo(first, ext);
    RegroupAfterDir("/" + d + "/", base, timestamp, ext);
    AbsoluteUnder(UploadName(first, timestamp, ext), d, file);
  }

  lemma RegroupAfterDir(dir: string, base: string, timestamp: string, ext: string)
    ensures UploadName(dir + base, timestamp, ext) == dir + (base + "_" + timestamp + "." + ext)
  {
    AppendAssoc(dir, base, "_");
    AppendAssoc(dir, base + "_", timestamp);
    AppendAssoc(dir, base + "_" + timestamp, ".");
    AppendAssoc(dir, base + "_" + timestamp + ".", ext);
  }

  lemma InScratchDir(a: string, t: string, b: string)
    ensures "/tmp/" + a + "_" + t + "." + b == "/tmp/" + UploadName(a, t, b)
  {
    AppendAssoc("/tmp/", a, "_");
    AppendAssoc("/tmp/", a + "_", t);
    AppendAssoc("/tmp/", a + "_" + t, ".");
    AppendAssoc("/tmp/", a + "_" + t + ".", b);
  }

  lemma AppendAssoc(a: string, b: string, c: string)
    ensures a + b + c == a + (b + c)
  {
  }

  lemma SplitsIntoTwo(a: string, b: string)
    requires '.' !in a && '.' !in b
    ensures Split(a + "." + b, '.') == [a, b]
  {
    SplitAtFirst(a, b, '.');
    SplitWithoutSep(b, '.');
  }

  lemma AbsoluteUnder(name: string, d: string, file: string)
    requires IsComponent(d) && IsComponent(file) && name == "/" + d + "/" + file
    ensures Under(ScratchDir, name) == name
  {
    TwoComponents(d, file);
  }

  /** Different parts give different names, provided the timestamps have one
      fixed width and the extension holds no dot. */
  lemma {:induction false} UploadNameInjective(a1: string, t1: string, b1: string,
                                               a2: string, t2: string, b2: string)
    requires |t1| == |t2| && '.' !in b1 && '.' !in b2
    requires UploadName(a1, t1, b1) == UploadName(a2, t2, b2)
    ensures a1 == a2 && t1 == t2 && b1 == b2
  {
    var n := UploadName(a1, t1, b1);
    assert n == (a1 + "_" + t1) + ['.'] + b1;
    assert n == (a2 + "_" + t2) + ['.'] + b2;
    SplitAtLast(a1 + "_" + t1, b1, '.');
    SplitAtLast(a2 + "_" + t2, b2, '.');
    var h1, h2 := a1 + "_" + t1, a2 + "_" + t2;
    assert h1 == n[..|n| - |b1| - 1];
    assert h2 == n[..|n| - |b2| - 1];
    assert |a1| == |a2|;
    assert a1 == h1[..|a1|] && a2 == h2[..|a2|];
    assert t1 == h1[|a1| + 1..] && t2 == h2[|a2| + 1..];
  }

  /** The input path is determined by, and determines, the first segment, the
      last segment and the timestamp (for slash-free names and timestamps of
      one width): two uploads collide exactly when all three agree. */
  lemma ScratchPathDeterminedBy(f1: string, t1: string, f2: string, t2: string)
    requires '.' in f1 && '/' !in f1 && '/' !in t1
    requires '.' in f2 && '/' !in f2 && '/' !in t2
    requires |t1| == |t2|
    ensures var s1, s2 := Split(f1, '.'), Split(f2, '.');
      |s1| >= 2 && |s2| >= 2 &&
      (ScratchPath(s1, t1) == ScratchPath(s2, t2) <==>
        s1[0] == s2[0] && Last(s1) == Last(s2) && t1 == t2)
  {
    var s1, s2 := Split(f1, '.'), Split(f2, '.');
    ScratchPathExact(f1, t1);
    ScratchPathExact(f2, t2);
    var p1, p2 := ScratchPath(s1, t1), ScratchPath(s2, t2);
    if p1 == p2 {
      var n1, n2 := UploadName(s1[0], t1, Last(s1)), UploadName(s2[0], t2, Last(s2));
      InScratchDir(s1[0], t1, Last(s1));
      InScratchDir(s2[0], t2, Last(s2));
      assert n1 == ("/tmp/" + n1)[5..];
      assert n2 == ("/tmp/" + n2)[5..];
      UploadNameInjective(s1[0], t1, Last(s1), s2[0], t2, Last(s2));
    }
  }
}
