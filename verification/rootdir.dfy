/** Project-root discovery (import-analyzer.py:36-45): the directories above the scan
    directory are tried for a `pyproject.toml`, and the root is the shallowest one that
    has it, or the scan directory itself. */
module RootDir {
  import opened Strings
  import opened Paths
  import opened Resolver

  /** The manifest file that marks a project root. */
  const Manifest := "pyproject.toml"

  /** The directory tried for `count` leading components of the scan directory:
      `os.path.join("/", *parts[:count])`. */
  function Candidate(parts: seq<string>, count: int): string
    requires 0 <= count <= |parts|
  {
    JoinAll(["/"] + parts[..count])
  }

  /** The loop tries `count` (from `len(parts)` down to 2) and finds a manifest there. */
  predicate HasManifest(fs: FileSystem, parts: seq<string>, count: int)
  {
    2 <= count <= |parts| && Join(Candidate(parts, count), Manifest) in fs.files
  }

  /** A directory with a trailing slash added when it has none. */
  function WithSlash(d: string): (r: string)
    ensures EndsWith(r, "/")
    ensures EndsWith(d, "/") ==> r == d
    ensures !EndsWith(d, "/") ==> r == d + "/"
  {
    if EndsWith(d, "/") then d else d + "/"
  }

  /** The root directory: the candidate with the fewest components that holds a
      manifest, or the scan directory when none does; either way ending in '/'. Every
      hit overwrites the previous one, so the outermost manifest wins. */
  method DiscoverRoot(scanDir: string, fs: FileSystem) returns (root: string)
    ensures EndsWith(root, "/")
    ensures (forall c :: !HasManifest(fs, SplitOn(scanDir, '/'), c)) ==> root == WithSlash(scanDir)
    ensures forall c :: (HasManifest(fs, SplitOn(scanDir, '/'), c) &&
      forall c' :: c' < c ==> !HasManifest(fs, SplitOn(scanDir, '/'), c')) ==>
        root == WithSlash(Candidate(SplitOn(scanDir, '/'), c))
  {
    var parts := SplitOn(scanDir, '/');
    var found := scanDir;
    var count := |parts|;
    while count > 1
      invariant 1 <= count <= |parts|
      invariant (forall c :: count < c ==> !HasManifest(fs, parts, c)) ==> found == scanDir
      invariant forall c :: (count < c && HasManifest(fs, parts, c) &&
        forall c' :: count < c' < c ==> !HasManifest(fs, parts, c')) ==> found == Candidate(parts, c)
      decreases count
    {
      var testDir := Candidate(parts, count);
      assert HasManifest(fs, parts, count) <==> Join(testDir, Manifest) in fs.files;
      if Join(testDir, Manifest) in fs.files {
        found := testDir;
      } else {
        forall c | count - 1 < c && HasManifest(fs, parts, c) &&
          (forall c' :: count - 1 < c' < c ==> !HasManifest(fs, parts, c'))
          ensures found == Candidate(parts, c)
        {
          assert c != count;
        }
      }
      count := count - 1;
    }
    root := WithSlash(found);
  }

  /** Joining a sequence of pieces is joining its two halves with one more separator. */
  lemma {:induction false} JoinWithSplit(ps: seq<string>, c: int, sep: char)
    requires 1 <= c < |ps|
    ensures JoinWith(ps, sep) == JoinWith(ps[..c], sep) + [sep] + JoinWith(ps[c..], sep)
    decreases c
  {
    if c > 1 {
      JoinWithSplit(ps[1..], c - 1, sep);
      assert ps[1..][..c - 1] == ps[..c][1..];
      assert ps[1..][c - 1..] == ps[c..];
    }
  }

  /** The components of an absolute directory without `//` or a trailing slash: an
      empty first piece, then plain names. */
  predicate AbsoluteParts(parts: seq<string>)
  {
    |parts| >= 2 && parts[0] == "" && PlainSegments(parts[1..])
  }

  /** A plain name joined onto the root directory is a clean absolute directory. */
  lemma RootedName(p: string)
    requires p != "" && '/' !in p
    ensures Join("/", p) == "/" + p && CleanDir("/" + p)
  {
    var first := "/" + p;
    forall k | 0 <= k < |first| - 1 ensures first[k] != '/' || first[k + 1] != '/' {
      assert first[k + 1] == p[k];
    }
    assert first[|first| - 1] == p[|p| - 1];
  }

  /** Folding the names after the first onto the rooted first name spells the whole
      absolute path. */
  lemma RootedSpelling(ps: seq<string>)
    requires |ps| >= 2 && ps[0] == "" && PlainSegments(ps[1..])
    ensures JoinFold("/" + ps[1], ps[2..]) == JoinWith(ps, '/')
  {
    assert ps[1..][0] == ps[1] && ps[1..][1..] == ps[2..];
    assert JoinWith(ps, '/') == "/" + JoinWith(ps[1..], '/');
    if |ps| > 2 {
      assert JoinWith(ps[1..], '/') == ps[1] + "/" + JoinWith(ps[2..], '/');
      PlainSlice(ps[1..], 1, |ps| - 1);
      RootedName(ps[1]);
      JoinFoldPlain("/" + ps[1], ps[2..]);
    }
  }

  /** A candidate is the first name under the root with the remaining names folded on. */
  lemma CandidateFold(parts: seq<string>, count: int)
    requires AbsoluteParts(parts) && 2 <= count <= |parts|
    ensures Candidate(parts, count) == JoinFold("/" + parts[1], parts[2..count])
  {
    var ps := parts[..count];
    var rest := ps[1..];
    assert parts[1] == parts[1..][0];
    RootedName(parts[1]);
    JoinAllPair("/", ps[0], rest);
    assert ["/"] + ps == ["/", ps[0]] + rest;
    assert Join("/", ps[0]) == "/";
    assert rest[0] == parts[1] && rest[1..] == parts[2..count];
  }

  /** Each candidate is the path spelled by the first `count` components. */
  lemma CandidateSpelling(parts: seq<string>, count: int)
    requires AbsoluteParts(parts) && 2 <= count <= |parts|
    ensures Candidate(parts, count) == JoinWith(parts[..count], '/')
  {
    CandidateFold(parts, count);
    var ps := parts[..count];
    assert ps[2..] == parts[2..count];
    PlainSlice(parts[1..], 0, count - 1);
    assert ps[1..] == parts[1..][0..count - 1];
    RootedSpelling(ps);
  }

  /** Every candidate is an ancestor of the scan directory (or the directory itself,
      for all its components): the scan directory starts with it, followed by a slash
      unless it is the whole path. */
  lemma CandidateIsAncestor(scanDir: string, count: int)
    requires AbsoluteParts(SplitOn(scanDir, '/')) && 2 <= count <= |SplitOn(scanDir, '/')|
    ensures var cand := Candidate(SplitOn(scanDir, '/'), count);
      StartsWith(scanDir, cand) && (count == |SplitOn(scanDir, '/')| <==> scanDir == cand) &&
      (count < |SplitOn(scanDir, '/')| ==> scanDir[|cand|] == '/')
  {
    var parts := SplitOn(scanDir, '/');
    var cand := Candidate(parts, count);
    CandidateSpelling(parts, count);
    if count < |parts| {
      JoinWithSplit(parts, count, '/');
      assert scanDir == cand + "/" + JoinWith(parts[count..], '/');
      assert scanDir[..|cand|] == cand;
    } else {
      assert parts[..count] == parts;
    }
  }
}
