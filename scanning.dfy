/**
 * The file scanner shared by both scripts: a traversal of `os.walk` is
 * given as the sequence of `(root, files)` entries it yields, and a file is a
 * candidate when the lower-cased `pathlib` suffix of its name is one of the
 * configured extensions (`find_media_files` and the inner scan loop).
 */
module Scanning {
  import opened FileSystem

  /** One `(root, _, files)` triple yielded by `os.walk`. */
  datatype Listing = Listing(root: Path, files: seq<Name>)

  /** The index of the last `c` in `s`, or -1 (`str.rfind`). */
  function LastIndexOf(s: string, c: char): (i: int)
    ensures -1 <= i < |s|
    ensures i >= 0 ==> s[i] == c
    ensures forall j :: i < j < |s| ==> s[j] != c
  {
    if |s| == 0 then -1
    else if s[|s| - 1] == c then |s| - 1
    else LastIndexOf(s[..|s| - 1], c)
  }

  /**
   * `Path(name).suffix`: from the last dot on, provided that dot is neither
   * the first nor the last character of the name; otherwise empty.
   */
  function Suffix(name: Name): (ext: string)
    ensures ext != "" <==>
              exists j :: 0 < j < |name| - 1 && name[j] == '.' && forall k :: j < k < |name| ==> name[k] != '.'
    ensures ext != "" ==> 2 <= |ext| < |name| && ext[0] == '.' && name[|name| - |ext|..] == ext
    ensures forall k :: 0 < k < |ext| ==> ext[k] != '.'
  {
    var i := LastIndexOf(name, '.');
    if 0 < i < |name| - 1 then name[i..] else ""
  }

  function LowerChar(c: char): char {
    if 'A' <= c <= 'Z' then (c as int + 32) as char else c
  }

  /** `str.lower()` on ASCII letters; every other character is kept. */
  function Lower(s: string): (r: string)
    ensures |r| == |s|
    ensures forall i :: 0 <= i < |s| ==> r[i] == LowerChar(s[i])
  {
    seq(|s|, i requires 0 <= i < |s| => LowerChar(s[i]))
  }

  /** `Path(file).suffix.lower() in EXTENSIONS` */
  predicate IsMedia(extensions: set<string>, name: Name) {
    Lower(Suffix(name)) in extensions
  }

  /** Lower-casing neither creates nor removes a dot. */
  lemma LowerKeepsDots(s: string)
    ensures forall i :: 0 <= i < |s| ==> (Lower(s)[i] == '.' <==> s[i] == '.')
  {
  }

  /** Lower-casing commutes with taking the suffix: the last dot stays where it was. */
  lemma LowerSuffix(name: Name)
    ensures Lower(Suffix(name)) == Suffix(Lower(name))
  {
    var l := Lower(name);
    LowerKeepsDots(name);
    var i, k := LastIndexOf(name, '.'), LastIndexOf(l, '.');
    assert i == k;
    if 0 < i < |name| - 1 {
      assert Lower(name[i..]) == l[i..];
    }
  }

  /**
   * The extension test ignores case: two names that lower-case alike are
   * both media files or neither ("IMG.JPG" and "img.jpg").
   */
  lemma MediaIgnoresCase(extensions: set<string>, n1: Name, n2: Name)
    requires Lower(n1) == Lower(n2)
    ensures IsMedia(extensions, n1) <==> IsMedia(extensions, n2)
  {
    LowerSuffix(n1);
    LowerSuffix(n2);
  }

  /** The media files of one listing, as `os.path.join(root, file)`, in listing order. */
  function MediaIn(extensions: set<string>, ops: PathOps, root: Path, files: seq<Name>): seq<Path> {
    if files == [] then []
    else
      var name := files[|files| - 1];
      MediaIn(extensions, ops, root, files[..|files| - 1])
        + (if IsMedia(extensions, name) then [ops.join(root, name)] else [])
  }

  /** `find_media_files(directory)`, given the traversal `walk` of that directory. */
  function FindMediaFiles(extensions: set<string>, ops: PathOps, walk: seq<Listing>): seq<Path> {
    if walk == [] then []
    else
      var l := walk[|walk| - 1];
      FindMediaFiles(extensions, ops, walk[..|walk| - 1]) + MediaIn(extensions, ops, l.root, l.files)
  }

  lemma {:induction false} MediaInSound(extensions: set<string>, ops: PathOps, root: Path, files: seq<Name>, p: Path)
    requires p in MediaIn(extensions, ops, root, files)
    ensures exists j :: 0 <= j < |files| && IsMedia(extensions, files[j]) && p == ops.join(root, files[j])
  {
    var init := files[..|files| - 1];
    if p in MediaIn(extensions, ops, root, init) {
      MediaInSound(extensions, ops, root, init, p);
      var j :| 0 <= j < |init| && IsMedia(extensions, init[j]) && p == ops.join(root, init[j]);
      assert files[j] == init[j];
    } else {
      assert IsMedia(extensions, files[|files| - 1]) && p == ops.join(root, files[|files| - 1]);
    }
  }

  lemma {:induction false} MediaInComplete(extensions: set<string>, ops: PathOps, root: Path, files: seq<Name>, j: nat)
    requires j < |files| && IsMedia(extensions, files[j])
    ensures ops.join(root, files[j]) in MediaIn(extensions, ops, root, files)
  {
    var init := files[..|files| - 1];
    if j < |init| {
      assert init[j] == files[j];
      MediaInComplete(extensions, ops, root, init, j);
    }
  }

  /** `find_media_files` yields only joined paths of files whose lower-cased suffix is an allowed extension. */
  lemma {:induction false} FindMediaFilesSound(extensions: set<string>, ops: PathOps, walk: seq<Listing>, p: Path)
    requires p in FindMediaFiles(extensions, ops, walk)
    ensures exists k, j :: 0 <= k < |walk| && 0 <= j < |walk[k].files| && IsMedia(extensions, walk[k].files[j])
                           && p == ops.join(walk[k].root, walk[k].files[j])
  {
    var init := walk[..|walk| - 1];
    var l := walk[|walk| - 1];
    if p in FindMediaFiles(extensions, ops, init) {
      FindMediaFilesSound(extensions, ops, init, p);
      var k, j :| 0 <= k < |init| && 0 <= j < |init[k].files| && IsMedia(extensions, init[k].files[j])
                  && p == ops.join(init[k].root, init[k].files[j]);
      assert walk[k] == init[k];
    } else {
      MediaInSound(extensions, ops, l.root, l.files, p);
    }
  }

  /** Every such file of the traversal is yielded. */
  lemma {:induction false} FindMediaFilesComplete(extensions: set<string>, ops: PathOps, walk: seq<Listing>, k: nat, j: nat)
    requires k < |walk| && j < |walk[k].files| && IsMedia(extensions, walk[k].files[j])
    ensures ops.join(walk[k].root, walk[k].files[j]) in FindMediaFiles(extensions, ops, walk)
  {
    var init := walk[..|walk| - 1];
    if k < |init| {
      assert init[k] == walk[k];
      FindMediaFilesComplete(extensions, ops, init, k, j);
    } else {
      MediaInComplete(extensions, ops, walk[k].root, walk[k].files, j);
    }
  }
}
