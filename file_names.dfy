/** `getOutputFileName`: the name of the annotated copy of an input video is
    the input's base name, without its extension, followed by `_inf.mp4`.
    The base name is what `java.io.File(path).name` gives: the last segment
    of the path once trailing separators are dropped. */
module FileNames {
  import opened Wrappers

  const Suffix: string := "_inf.mp4"

  /** The path used when the input URI has none. */
  const FallbackPath: string := "output"

  /** The index of the last `c` in `s`, or -1 when there is none
      (Kotlin's `lastIndexOf`). */
  function LastIndexOf(s: string, c: char): (r: int)
    ensures -1 <= r < |s|
    ensures r == -1 ==> forall j :: 0 <= j < |s| ==> s[j] != c
    ensures 0 <= r ==> s[r] == c && forall j :: r < j < |s| ==> s[j] != c
  {
    if s == [] then -1
    else if s[|s| - 1] == c then |s| - 1
    else LastIndexOf(s[..|s| - 1], c)
  }

  /** The path as `java.io.File` normalises it on a Unix file system, as far
      as the last segment is concerned: trailing separators are dropped. */
  function TrimTrailingSlashes(path: string): (r: string)
    ensures r <= path
    ensures r == [] || r[|r| - 1] != '/'
    ensures forall j :: |r| <= j < |path| ==> path[j] == '/'
  {
    if path != [] && path[|path| - 1] == '/' then TrimTrailingSlashes(path[..|path| - 1])
    else path
  }

  /** `File(path).name`: everything after the last separator of the normalised path. */
  function FileName(path: string): (name: string)
    ensures '/' !in name
    ensures var p := TrimTrailingSlashes(path);
      |name| <= |p| && p[|p| - |name|..] == name && (|name| == |p| || p[|p| - |name| - 1] == '/')
  {
    var p := TrimTrailingSlashes(path);
    p[LastIndexOf(p, '/') + 1..]
  }

  /** `File.nameWithoutExtension`: the name up to, not including, its last `.`. */
  function NameWithoutExtension(name: string): (stem: string)
    ensures stem <= name
    ensures '.' !in name ==> stem == name
    ensures '.' in name ==> |stem| < |name| && name[|stem|] == '.' && '.' !in name[|stem| + 1..]
  {
    var dot := LastIndexOf(name, '.');
    if dot < 0 then name else name[..dot]
  }

  /** `getOutputFileName(inputUri)`, given `inputUri.path`. */
  function OutputFileName(uriPath: Option<string>): (r: string)
    ensures |r| >= |Suffix| && r[|r| - |Suffix|..] == Suffix
    ensures '/' !in r
  {
    var name := FileName(uriPath.GetOr(FallbackPath));
    var stem := NameWithoutExtension(name);
    assert '/' !in stem by {
      forall i | 0 <= i < |stem| ensures stem[i] != '/' {
        assert stem[i] == name[i];
      }
    }
    assert '/' !in Suffix;
    var r := stem + Suffix;
    assert r[|r| - |Suffix|..] == Suffix;
    assert forall i :: 0 <= i < |r| ==> r[i] == if i < |stem| then stem[i] else Suffix[i - |stem|];
    r
  }

  /** A URI without a path gives `output_inf.mp4`. */
  lemma MissingPathName()
    ensures OutputFileName(None) == "output_inf.mp4"
  {
    assert LastIndexOf(FallbackPath, '/') == -1;
    assert LastIndexOf(FallbackPath, '.') == -1;
  }

  /** The last occurrence of `c` in `a + [c] + b`, when `b` has none, is the one after `a`. */
  lemma {:induction false} LastIndexOfSplit(a: string, c: char, b: string)
    requires c !in b
    ensures LastIndexOf(a + [c] + b, c) == |a|
  {
    var s := a + [c] + b;
    var r := LastIndexOf(s, c);
    assert s[|a|] == c;
    if r > |a| {
      assert false;
    }
  }

  /** A character in none of `a`, `[c]` and `b` is not in their concatenation. */
  lemma NotInSplit(a: string, c: char, b: string, x: char)
    requires x !in a && x != c && x !in b
    ensures x !in a + [c] + b
  {
    var s := a + [c] + b;
    assert forall j :: 0 <= j < |s| ==> s[j] == (if j < |a| then a[j] else if j == |a| then c else b[j - |a| - 1]);
  }

  /** A path `dir/stem.ext` gives `stem_inf.mp4`: the extension after the
      last dot goes, while the directory and any earlier dots in the stem stay
      as they are. */
  lemma {:induction false} OutputFileNameDropsExtension(dir: string, stem: string, ext: string)
    requires '/' !in stem && '/' !in ext && '.' !in ext
    ensures OutputFileName(Some(dir + "/" + stem + "." + ext)) == stem + Suffix
  {
    var name := stem + ['.'] + ext;
    var path := dir + ['/'] + name;
    assert dir + "/" + stem + "." + ext == path;
    assert path[|path| - 1] == name[|name| - 1];
    assert name[|name| - 1] != '/' by {
      if ext == [] {
        assert name[|name| - 1] == '.';
      } else {
        assert name[|name| - 1] == ext[|ext| - 1];
      }
    }
    assert TrimTrailingSlashes(path) == path;
    NotInSplit(stem, '.', ext, '/');
    LastIndexOfSplit(dir, '/', name);
    assert FileName(path) == name;
    LastIndexOfSplit(stem, '.', ext);
    assert NameWithoutExtension(name) == stem;
  }

  /** A path `dir/name` whose last segment has no dot gives `name_inf.mp4`. */
  lemma {:induction false} OutputFileNameWithoutExtension(dir: string, name: string)
    requires name != [] && '/' !in name && '.' !in name
    ensures OutputFileName(Some(dir + "/" + name)) == name + Suffix
  {
    var path := dir + ['/'] + name;
    assert dir + "/" + name == path;
    assert path[|path| - 1] == name[|name| - 1];
    assert TrimTrailingSlashes(path) == path;
    LastIndexOfSplit(dir, '/', name);
    assert FileName(path) == name;
  }
}
