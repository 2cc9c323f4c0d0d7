/** POSIX path joining and splitting as Python's `os.path` performs them on strings. */
module Paths {
  import opened Strings

  /** `os.path.join(a, b)`: an absolute `b` replaces `a`; otherwise one '/' separates them. */
  function Join(a: string, b: string): string
  {
    if |b| > 0 && b[0] == '/' then b
    else if a == "" || a[|a| - 1] == '/' then a + b
    else a + "/" + b
  }

  /** `os.path.join(acc, *ps)`: join the pieces left to right. */
  function JoinFold(acc: string, ps: seq<string>): string
    decreases |ps|
  {
    if ps == [] then acc else JoinFold(Join(acc, ps[0]), ps[1..])
  }

  /** `os.path.join(*parts)`; Python refuses an empty argument list. */
  function JoinAll(parts: seq<string>): string
    requires |parts| >= 1
  {
    JoinFold(parts[0], parts[1..])
  }

  /** Index of the last `c` in `s`, or -1 (Python's `s.rfind(c)`). */
  function LastIndexOf(s: string, c: char): (r: int)
    ensures -1 <= r < |s|
    ensures r >= 0 ==> s[r] == c
    ensures forall k :: r < k < |s| ==> s[k] != c
  {
    if s == [] then -1
    else if s[|s| - 1] == c then |s| - 1
    else LastIndexOf(s[..|s| - 1], c)
  }

  /** `s.rstrip(c)`. */
  function RStrip(s: string, c: char): string
  {
    if s != [] && s[|s| - 1] == c then RStrip(s[..|s| - 1], c) else s
  }

  predicate AllSlashes(s: string)
  {
    forall k :: 0 <= k < |s| ==> s[k] == '/'
  }

  /** `os.path.split(p)`: everything up to the last '/' (trailing slashes stripped
      unless it is all slashes) and the rest. */
  function Split(p: string): (string, string)
  {
    var i := LastIndexOf(p, '/') + 1;
    var head := p[..i];
    var tail := p[i..];
    if head != "" && !AllSlashes(head) then (RStrip(head, '/'), tail) else (head, tail)
  }

  /** A path with no empty component between two slashes. */
  predicate NoDoubleSlash(d: string)
  {
    forall k :: 0 <= k < |d| - 1 ==> d[k] != '/' || d[k + 1] != '/'
  }

  /** A directory path as the walk produces it relative to the root:
      no `//` and no trailing slash. */
  predicate CleanDir(d: string)
  {
    NoDoubleSlash(d) && (d == "" || d[|d| - 1] != '/')
  }

  /** Path segments that `os.path.join` simply glues with '/': non-empty and slash-free. */
  predicate PlainSegments(ps: seq<string>)
  {
    forall i :: 0 <= i < |ps| ==> ps[i] != "" && '/' !in ps[i]
  }

  /** A slice of plain segments is plain. */
  lemma PlainSlice(ps: seq<string>, i: int, j: int)
    requires PlainSegments(ps) && 0 <= i <= j <= |ps|
    ensures PlainSegments(ps[i..j])
  {
    forall k | 0 <= k < j - i ensures ps[i..j][k] != "" && '/' !in ps[i..j][k] {
      assert ps[i..j][k] == ps[i + k];
    }
  }

  /** The part after the last slash contains no slash. */
  lemma TailHasNoSlash(d: string, j: int)
    requires -1 <= j < |d|
    requires forall k :: j < k < |d| ==> d[k] != '/'
    ensures '/' !in d[j + 1..]
  {
    var tail := d[j + 1..];
    forall k | 0 <= k < |tail| ensures tail[k] != '/' {
      assert tail[k] == d[j + 1 + k];
    }
  }

  /** Stripping the single slash that ends `x + "/"` when `x` does not end with one. */
  lemma RStripOne(x: string)
    requires x != "" && x[|x| - 1] != '/'
    ensures RStrip(x + "/", '/') == x
  {
    assert (x + "/")[..|x|] == x;
  }

  /** Joining a list that starts with two pieces folds the rest onto their join. */
  lemma JoinAllPair(h: string, t: string, ps: seq<string>)
    ensures JoinAll([h, t] + ps) == JoinFold(Join(h, t), ps)
  {
    var all := [h, t] + ps;
    assert all[1..] == [t] + ps;
    assert ([t] + ps)[1..] == ps;
  }

  /** A path without slashes splits into an empty head and itself. */
  lemma SplitBare(d: string)
    requires LastIndexOf(d, '/') == -1
    ensures Split(d) == ("", d)
  {
    assert d[..0] == "" && d[0..] == d;
  }

  /** A path whose only slash leads splits into `/` and the name after it. */
  lemma SplitRooted(d: string)
    requires LastIndexOf(d, '/') == 0
    ensures Split(d) == ("/", d[1..])
  {
    assert d[..1] == "/" && AllSlashes(d[..1]);
  }

  /** A path with an inner last slash, not doubled, splits around that slash. */
  lemma SplitInner(d: string, j: int)
    requires NoDoubleSlash(d) && 0 < j && LastIndexOf(d, '/') == j
    ensures Split(d) == (d[..j], d[j + 1..])
  {
    var head := d[..j + 1];
    var x := d[..j];
    assert d[j - 1] != '/' by {
      assert d[j] == '/';
    }
    assert !AllSlashes(head) by { assert head[j - 1] == d[j - 1]; }
    assert head == x + "/";
    RStripOne(x);
  }

  /** Joining a slash-free name onto a directory: glued directly after an empty head or
      a trailing slash, with one slash otherwise. */
  lemma JoinName(head: string, name: string)
    requires '/' !in name
    ensures Join(head, name) == if head == "" || head[|head| - 1] == '/' then head + name else head + "/" + name
  {
    if |name| > 0 {
      assert name[0] in name;
    }
  }

  /** Joining the two halves of `os.path.split(d)` gives `d` back when `d` has no `//`. */
  lemma JoinSplit(d: string)
    requires NoDoubleSlash(d)
    ensures Join(Split(d).0, Split(d).1) == d
  {
    var j := LastIndexOf(d, '/');
    var tail := d[j + 1..];
    TailHasNoSlash(d, j);
    if j == -1 {
      SplitBare(d);
      JoinName("", tail);
      assert tail == d;
    } else if j == 0 {
      SplitRooted(d);
      JoinName("/", tail);
      assert d == "/" + tail;
    } else {
      SplitInner(d, j);
      var x := d[..j];
      assert x[j - 1] == d[j - 1] != '/' by {
        assert d[j] == '/';
      }
      JoinName(x, tail);
      assert d == x + "/" + tail;
    }
  }

  /** A plain segment joined onto a clean directory gives a clean directory. */
  lemma JoinClean(acc: string, p: string)
    requires CleanDir(acc) && p != "" && '/' !in p
    ensures Join(acc, p) == (if acc == "" then p else acc + "/" + p)
    ensures CleanDir(Join(acc, p))
  {
    JoinName(acc, p);
    var next := if acc == "" then p else acc + "/" + p;
    assert next[|next| - 1] == p[|p| - 1];
    forall k | 0 <= k < |next| - 1 ensures next[k] != '/' || next[k + 1] != '/' {
      if acc != "" {
        if k < |acc| - 1 {
          assert next[k] == acc[k] && next[k + 1] == acc[k + 1];
        } else if k == |acc| - 1 {
          assert next[k] == acc[k];
        } else if k == |acc| {
          assert next[k + 1] == p[0];
        } else {
          assert next[k] == p[k - |acc| - 1];
        }
      } else {
        assert next[k] == p[k];
      }
    }
  }

  /** Folding plain segments onto a clean directory glues everything with single slashes. */
  lemma {:induction false} JoinFoldPlain(acc: string, ps: seq<string>)
    requires CleanDir(acc)
    requires |ps| >= 1 && PlainSegments(ps)
    ensures JoinFold(acc, ps) == (if acc == "" then JoinWith(ps, '/') else acc + "/" + JoinWith(ps, '/'))
    decreases |ps|
  {
    var next := Join(acc, ps[0]);
    JoinClean(acc, ps[0]);
    if |ps| > 1 {
      PlainSlice(ps, 1, |ps|);
      JoinFoldPlain(next, ps[1..]);
      assert JoinWith(ps, '/') == ps[0] + "/" + JoinWith(ps[1..], '/');
    }
  }

  /** Appending to an absolute piece: the join is the piece itself either way. */
  lemma JoinAppendAbsolute(a: string, p: string, sfx: string)
    requires |p| > 0 && p[0] == '/'
    ensures Join(a, p + sfx) == Join(a, p) + sfx
  {
    assert (p + sfx)[0] == '/';
  }

  /** Appending to a relative piece: the suffix ends up at the end of the join. */
  lemma JoinAppendRelative(a: string, p: string, sfx: string)
    requires |p| > 0 && p[0] != '/'
    ensures Join(a, p + sfx) == Join(a, p) + sfx
  {
    assert (p + sfx)[0] == p[0];
    if a == "" || a[|a| - 1] == '/' {
      assert Join(a, p + sfx) == a + (p + sfx);
      assert Join(a, p) == a + p;
    } else {
      assert Join(a, p + sfx) == a + "/" + (p + sfx);
      assert Join(a, p) == a + "/" + p;
    }
  }

  /** Appending to an empty piece: joining the suffix alone. */
  lemma JoinAppendEmpty(a: string, sfx: string)
    requires |sfx| > 0 && sfx[0] != '/'
    ensures Join(a, "" + sfx) == Join(a, "") + sfx
  {
    assert "" + sfx == sfx;
    if a == "" || a[|a| - 1] == '/' {
      assert Join(a, "") == a;
      assert Join(a, sfx) == a + sfx;
    } else {
      assert Join(a, "") == a + "/";
      assert Join(a, sfx) == a + "/" + sfx;
    }
  }

  /** `os.path.join(a, p + sfx) == os.path.join(a, p) + sfx` for a suffix that does not
      start with a slash: appending an extension commutes with joining. */
  lemma JoinAppend(a: string, p: string, sfx: string)
    requires |sfx| > 0 && sfx[0] != '/'
    ensures Join(a, p + sfx) == Join(a, p) + sfx
  {
    if p == "" {
      JoinAppendEmpty(a, sfx);
    } else if p[0] == '/' {
      JoinAppendAbsolute(a, p, sfx);
    } else {
      JoinAppendRelative(a, p, sfx);
    }
  }

  // ---------------------------------------------------------------------------
  // What `os.path.join` and `os.path.split` produce, stated apart from their definitions.

  /** `os.path.join(a, b)` ends in `b`; an absolute `b` replaces `a`; otherwise `a` is kept
      in front and one '/' is put between exactly when `a` is non-empty and does not
      already end in '/'. */
  lemma JoinShape(a: string, b: string)
    ensures EndsWith(Join(a, b), b)
    ensures |b| > 0 && b[0] == '/' ==> Join(a, b) == b
    ensures !(|b| > 0 && b[0] == '/') ==> StartsWith(Join(a, b), a)
    ensures !(|b| > 0 && b[0] == '/') ==>
      |Join(a, b)| == |a| + |b| + (if a != "" && a[|a| - 1] != '/' then 1 else 0)
    ensures !(|b| > 0 && b[0] == '/') && a != "" && a[|a| - 1] != '/' ==> Join(a, b)[|a|] == '/'
  {
  }

  /** `os.path.join(*parts)` of one part is that part, and of several ends in the last. */
  lemma {:induction false} JoinAllShape(parts: seq<string>)
    requires |parts| >= 1
    ensures |parts| == 1 ==> JoinAll(parts) == parts[0]
    ensures EndsWith(JoinAll(parts), parts[|parts| - 1])
  {
    JoinFoldLast(parts[0], parts[1..]);
  }

  lemma {:induction false} JoinFoldLast(acc: string, ps: seq<string>)
    ensures ps == [] ==> JoinFold(acc, ps) == acc
    ensures ps != [] ==> EndsWith(JoinFold(acc, ps), ps[|ps| - 1])
    decreases |ps|
  {
    if ps != [] {
      JoinShape(acc, ps[0]);
      JoinFoldLast(Join(acc, ps[0]), ps[1..]);
    }
  }

  /** `s.rstrip(c)` is a prefix of `s` not ending in `c`, and only `c`s were removed. */
  lemma {:induction false} RStripShape(s: string, c: char)
    ensures StartsWith(s, RStrip(s, c))
    ensures RStrip(s, c) == "" || RStrip(s, c)[|RStrip(s, c)| - 1] != c
    ensures forall k :: |RStrip(s, c)| <= k < |s| ==> s[k] == c
    decreases |s|
  {
    if s != [] && s[|s| - 1] == c {
      RStripShape(s[..|s| - 1], c);
    }
  }

  /** `os.path.split(p)`: the tail is the slash-free end of `p`, the head a prefix of `p`,
      and only slashes lie between them; the head is empty exactly when `p` has no
      slash. */
  lemma SplitShape(p: string)
    ensures '/' !in Split(p).1 && EndsWith(p, Split(p).1)
    ensures StartsWith(p, Split(p).0)
    ensures '/' !in p ==> Split(p) == ("", p)
    ensures '/' in p ==> Split(p).0 != ""
    ensures |Split(p).0| <= |p| - |Split(p).1|
    ensures forall k :: |Split(p).0| <= k < |p| - |Split(p).1| ==> p[k] == '/'
    ensures |Split(p).1| == |p| || p[|p| - |Split(p).1| - 1] == '/'
    ensures var h := p[..|p| - |Split(p).1|];
      (AllSlashes(h) && Split(p).0 == h) || (Split(p).0 != "" && Split(p).0[|Split(p).0| - 1] != '/')
  {
    var i := LastIndexOf(p, '/') + 1;
    var head := p[..i];
    assert Split(p).1 == p[i..];
    SplitHead(head);
    if '/' in p {
      var j :| 0 <= j < |p| && p[j] == '/';
      assert i > j;
    }
  }

  /** The head half of `Split`: a prefix ending in '/' (or empty) loses its trailing
      slashes unless it is all slashes. */
  lemma SplitHead(head: string)
    ensures var sh := if head != "" && !AllSlashes(head) then RStrip(head, '/') else head;
      && StartsWith(head, sh)
      && (forall k :: |sh| <= k < |head| ==> head[k] == '/')
      && ((AllSlashes(head) && sh == head) || (sh != "" && sh[|sh| - 1] != '/'))
  {
    if head != "" && !AllSlashes(head) {
      RStripShape(head, '/');
    }
  }

  /** What `SplitShape` states pins the split: a pair with those properties is the
      split. */
  lemma SplitDetermined(p: string, h: string, t: string)
    requires '/' !in t && EndsWith(p, t) && StartsWith(p, h)
    requires |h| <= |p| - |t|
    requires forall k :: |h| <= k < |p| - |t| ==> p[k] == '/'
    requires |t| == |p| || p[|p| - |t| - 1] == '/'
    requires var h0 := p[..|p| - |t|]; (AllSlashes(h0) && h == h0) || (h != "" && h[|h| - 1] != '/')
    ensures Split(p) == (h, t)
  {
    SplitShape(p);
    var (sh, st) := Split(p);
    var i := LastIndexOf(p, '/') + 1;
    assert st == p[i..];
    if |t| < |p| {
      assert p[|p| - |t| - 1] == '/';
      assert LastIndexOf(p, '/') >= |p| - |t| - 1;
      forall k | |p| - |t| <= k < |p|
        ensures p[k] != '/'
      {
        assert p[k] == t[k - (|p| - |t|)];
      }
    } else {
      forall k | 0 <= k < |p|
        ensures p[k] != '/'
      {
        assert p[k] == t[k];
      }
    }
    assert i == |p| - |t|;
    assert t == p[i..];
    assert h == p[..|h|] && sh == p[..|sh|];
  }
}
