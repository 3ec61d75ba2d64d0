/** Path arithmetic the downloader relies on: `os.path.join` on POSIX and the
    sidecar name `filepath.rsplit(".", 1)[0] + ".json"`. */
module Paths {
  import opened Common

  /** `posixpath.join(a, b)`: an absolute `b` replaces `a`; otherwise one `/`
      separates them unless `a` is empty or already ends in `/`. */
  function Join(a: string, b: string): string
  {
    if StartsWith(b, "/") then b
    else if a == [] || EndsWith(a, "/") then a + b
    else a + "/" + b
  }

  /** `os.path.join(root, s1, ..., sn)`, folding Join from the left. */
  function JoinAll(root: string, segments: seq<string>): string
    decreases |segments|
  {
    if segments == [] then root
    else Join(JoinAll(root, segments[..|segments| - 1]), segments[|segments| - 1])
  }

  /** The folder with the separator Join puts after it. */
  function FolderPrefix(folder: string): string
  {
    if folder == [] || EndsWith(folder, "/") then folder else folder + "/"
  }

  /** A relative name joined to a folder lands inside that folder: the result
      is the folder, a separator when one is missing, then the name. */
  lemma JoinInside(folder: string, name: string)
    requires !StartsWith(name, "/")
    ensures Join(folder, name) == FolderPrefix(folder) + name
    ensures StartsWith(Join(folder, name), folder)
    ensures EndsWith(Join(folder, name), name)
  {
    var r := Join(folder, name);
    if folder == [] || EndsWith(folder, "/") {
      assert r == folder + name;
      assert r[..|folder|] == folder;
      assert r[|r| - |name|..] == name;
    } else {
      assert r == folder + "/" + name;
      assert r[..|folder|] == folder;
      assert r[|r| - |name|..] == name;
    }
  }

  /** Index of the last occurrence of `c` in `s`, or -1 when there is none
      (what `str.rsplit(c, 1)` splits at). */
  function LastIndexOf(s: string, c: char): (k: int)
    ensures -1 <= k < |s|
    ensures k >= 0 ==> s[k] == c
    ensures forall j :: k < j < |s| ==> s[j] != c
    decreases |s|
  {
    if s == [] then -1
    else if s[|s| - 1] == c then |s| - 1
    else LastIndexOf(s[..|s| - 1], c)
  }

  /** `filepath.rsplit(".", 1)[0] + ".json"`: the path up to its last `.`
      (the whole path when it has none), followed by `.json`. */
  function SidecarPath(filepath: string): (r: string)
    ensures EndsWith(r, ".json")
    ensures |r| <= |filepath| + 5
  {
    var k := LastIndexOf(filepath, '.');
    (if k < 0 then filepath else filepath[..k]) + ".json"
  }

  /** The rule of `rsplit(".", 1)[0] + ".json"`: a path whose last `.` is
      followed by `ext` (no `.` in it) has that extension replaced by
      `.json`, whatever dots come before. */
  lemma SidecarReplacesExtension(base: string, ext: string)
    requires '.' !in ext
    ensures SidecarPath(base + "." + ext) == base + ".json"
  {
    var p := base + "." + ext;
    var k := LastIndexOf(p, '.');
    assert p[|base|] == '.';
    forall j | |base| < j < |p| ensures p[j] != '.' {
      assert p[j] == ext[j - |base| - 1];
    }
    assert k == |base|;
    assert p[..k] == base;
  }

  /** A path with no `.` at all gets `.json` appended. */
  lemma SidecarWithoutDot(filepath: string)
    requires '.' !in filepath
    ensures SidecarPath(filepath) == filepath + ".json"
  {
  }

  /** The sidecar of `base.wav` is `base.json`, whatever dots `base` holds;
      in particular it is never the audio path itself. */
  lemma SidecarOfWav(base: string)
    ensures SidecarPath(base + ".wav") == base + ".json"
    ensures SidecarPath(base + ".wav") != base + ".wav"
  {
    assert base + ".wav" == base + "." + "wav";
    SidecarReplacesExtension(base, "wav");
    assert (base + ".json")[|base| + 1] == 'j';
    assert (base + ".wav")[|base| + 1] == 'w';
  }
}
