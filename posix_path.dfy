/**
 * The part of Node's `path.posix.resolve` that `resolveNext` relies on:
 * resolving a string against the root `/`. The string is split at every
 * `/`; empty and `.` segments are dropped; `..` drops the segment before
 * it and is ignored at the root; the kept segments are joined after a
 * leading `/`.
 */
module PosixPath {

  /** A segment that survives normalisation. */
  predicate IsSegment(seg: string) {
    seg != "" && seg != "." && seg != ".." && '/' !in seg
  }

  predicate AllSegments(segs: seq<string>) {
    forall i :: 0 <= i < |segs| ==> IsSegment(segs[i])
  }

  /** The pieces of `s` between its slashes; `a//b/` gives `a`, ``, `b`, ``. */
  function Split(s: string): (r: seq<string>)
    ensures |r| >= 1
    ensures forall i :: 0 <= i < |r| ==> '/' !in r[i]
    ensures s == [] ==> r == [[]]
  {
    if s == [] then [[]]
    else
      var rest := Split(s[1..]);
      if s[0] == '/' then [[]] + rest
      else [[s[0]] + rest[0]] + rest[1..]
  }

  /** The segments put back together, separated by single slashes. */
  function Join(segs: seq<string>): string
  {
    if |segs| == 0 then ""
    else if |segs| == 1 then segs[0]
    else segs[0] + "/" + Join(segs[1..])
  }

  /**
   * Node's `normalizeString` with `allowAboveRoot` false: walk the segments
   * left to right over a stack of kept segments.
   */
  function Collapse(stack: seq<string>, segs: seq<string>): (r: seq<string>)
    requires AllSegments(stack)
    requires forall i :: 0 <= i < |segs| ==> '/' !in segs[i]
    ensures AllSegments(r)
    ensures |r| <= |stack| + |segs|
    decreases |segs|
  {
    if segs == [] then stack
    else
      var seg := segs[0];
      if seg == "" || seg == "." then Collapse(stack, segs[1..])
      else if seg == ".." then Collapse(if stack == [] then [] else stack[..|stack| - 1], segs[1..])
      else Collapse(stack + [seg], segs[1..])
  }

  /** A normalised absolute path: `/` alone, or `/` followed by segments that survive normalisation. */
  predicate IsNormalized(p: string) {
    |p| >= 1 && p[0] == '/' && (p == "/" || AllSegments(Split(p[1..])))
  }

  /** `path.posix.resolve('/', v)`. */
  function ResolveFromRoot(v: string): (r: string)
    ensures IsNormalized(r)
  {
    var kept := Collapse([], Split(v));
    JoinNormalized(kept);
    "/" + Join(kept)
  }

  // ---------------------------------------------------------------- lemmas

  /** Splitting a slash-free prefix glued onto `t` extends the first piece of `t`. */
  lemma {:induction false} SplitPrefix(a: string, t: string)
    requires '/' !in a
    ensures Split(a + t) == [a + Split(t)[0]] + Split(t)[1..]
  {
    if a == [] {
      assert a + t == t;
      assert a + Split(t)[0] == Split(t)[0];
      assert Split(t) == [Split(t)[0]] + Split(t)[1..];
    } else {
      assert (a + t)[1..] == a[1..] + t;
      SplitPrefix(a[1..], t);
      assert [a[0]] + (a[1..] + Split(t)[0]) == a + Split(t)[0];
    }
  }

  /** Splitting undoes joining, for slash-free pieces. */
  lemma {:induction false} SplitJoin(segs: seq<string>)
    requires |segs| >= 1
    requires forall i :: 0 <= i < |segs| ==> '/' !in segs[i]
    ensures Split(Join(segs)) == segs
  {
    if |segs| == 1 {
      SplitPrefix(segs[0], "");
      assert segs[0] + "" == segs[0];
    } else {
      var t := Join(segs[1..]);
      SplitJoin(segs[1..]);
      assert segs[0] + "/" + t == segs[0] + ("/" + t);
      SplitPrefix(segs[0], "/" + t);
      assert ("/" + t)[1..] == t;
      assert Split("/" + t) == [[]] + Split(t);
      assert segs[0] + [] == segs[0];
      assert segs == [segs[0]] + segs[1..];
    }
  }

  /** Joining a non-empty list of segments gives a string whose pieces are those segments. */
  lemma JoinNormalized(kept: seq<string>)
    requires AllSegments(kept)
    ensures kept != [] ==> AllSegments(Split(Join(kept)))
    ensures kept == [] ==> Join(kept) == ""
  {
    if kept != [] {
      SplitJoin(kept);
    }
  }

  /** A stack of kept segments absorbs segments that already survive normalisation. */
  lemma {:induction false} CollapseSegments(stack: seq<string>, segs: seq<string>)
    requires AllSegments(stack) && AllSegments(segs)
    ensures Collapse(stack, segs) == stack + segs
    decreases |segs|
  {
    if segs != [] {
      assert AllSegments(stack + [segs[0]]);
      CollapseSegments(stack + [segs[0]], segs[1..]);
      assert stack + [segs[0]] + segs[1..] == stack + segs;
    }
  }

  /** `..` drops the segment before it, whatever follows. */
  lemma CollapseParent(stack: seq<string>, seg: string, rest: seq<string>)
    requires AllSegments(stack) && IsSegment(seg)
    requires forall i :: 0 <= i < |rest| ==> '/' !in rest[i]
    ensures Collapse(stack, [seg, ".."] + rest) == Collapse(stack, rest)
  {
    var segs := [seg, ".."] + rest;
    assert segs[1..] == [".."] + rest;
    assert ([".."] + rest)[1..] == rest;
    assert (stack + [seg])[..|stack + [seg]| - 1] == stack;
  }

  /** `..` at the root is ignored. */
  lemma CollapseParentAtRoot(rest: seq<string>)
    requires forall i :: 0 <= i < |rest| ==> '/' !in rest[i]
    ensures Collapse([], [".."] + rest) == Collapse([], rest)
  {
    assert ([".."] + rest)[1..] == rest;
  }

  /** `.` and empty segments are dropped, whatever follows. */
  lemma CollapseSkips(stack: seq<string>, rest: seq<string>)
    requires AllSegments(stack)
    requires forall i :: 0 <= i < |rest| ==> '/' !in rest[i]
    ensures Collapse(stack, ["."] + rest) == Collapse(stack, rest)
    ensures Collapse(stack, [""] + rest) == Collapse(stack, rest)
  {
    assert (["."] + rest)[1..] == rest;
    assert ([""] + rest)[1..] == rest;
  }

  /** A real segment is pushed onto the stack. */
  lemma CollapsePush(stack: seq<string>, seg: string, rest: seq<string>)
    requires AllSegments(stack) && IsSegment(seg)
    requires forall i :: 0 <= i < |rest| ==> '/' !in rest[i]
    ensures Collapse(stack, [seg] + rest) == Collapse(stack + [seg], rest)
  {
    assert ([seg] + rest)[1..] == rest;
  }

  /** A leading slash makes no difference: `bah` and `/bah` resolve alike. */
  lemma LeadingSlash(v: string)
    ensures ResolveFromRoot("/" + v) == ResolveFromRoot(v)
  {
    assert ("/" + v)[1..] == v;
    assert Split("/" + v) == [[]] + Split(v);
    assert (Split("/" + v))[1..] == Split(v);
  }

  /** A normalised path is its own resolution. */
  lemma ResolveNormalized(p: string)
    requires IsNormalized(p)
    ensures ResolveFromRoot(p) == p
  {
    var tail := p[1..];
    assert p == "/" + tail;
    LeadingSlash(tail);
    if p == "/" {
      assert tail == "";
    } else {
      var segs := Split(tail);
      CollapseSegments([], segs);
      assert [] + segs == segs;
      JoinSplit(tail);
    }
  }

  /** Joining the pieces of a string gives the string back. */
  lemma {:induction false} JoinSplit(s: string)
    ensures Join(Split(s)) == s
  {
    if s != [] {
      var rest := Split(s[1..]);
      JoinSplit(s[1..]);
      if s[0] == '/' {
        assert Split(s) == [[]] + rest;
        assert ([[]] + rest)[1..] == rest;
        assert s == [] + "/" + Join(rest);
      } else {
        var r := [[s[0]] + rest[0]] + rest[1..];
        assert Split(s) == r;
        if |rest| == 1 {
          assert s == [s[0]] + rest[0];
        } else {
          assert r[1..] == rest[1..];
          assert Join(rest) == rest[0] + "/" + Join(rest[1..]);
          assert s == [s[0]] + Join(rest);
        }
      }
    }
  }

  /** Resolution is idempotent. */
  lemma ResolveIdempotent(v: string)
    ensures ResolveFromRoot(ResolveFromRoot(v)) == ResolveFromRoot(v)
  {
    ResolveNormalized(ResolveFromRoot(v));
  }

  /** A normalised path never begins with two slashes and never ends with one (unless it is the root). */
  lemma NormalizedShape(p: string)
    requires IsNormalized(p)
    ensures |p| == 1 || (p[1] != '/' && p[|p| - 1] != '/')
  {
    if p != "/" {
      var tail := p[1..];
      var segs := Split(tail);
      assert IsSegment(segs[0]);
      LastPiece(tail);
      assert IsSegment(segs[|segs| - 1]);
    }
  }

  /** A string ending in `/` has an empty last piece. */
  lemma {:induction false} LastPiece(s: string)
    ensures s != [] && s[|s| - 1] == '/' ==> Split(s)[|Split(s)| - 1] == []
  {
    if |s| > 1 {
      LastPiece(s[1..]);
      assert s[1..][|s| - 2] == s[|s| - 1];
    }
  }

  /** A slash-free piece followed by a slash is split off whole. */
  lemma SplitCons(a: string, t: string)
    requires '/' !in a
    ensures Split(a + "/" + t) == [a] + Split(t)
  {
    assert a + "/" + t == a + ("/" + t);
    SplitPrefix(a, "/" + t);
    assert ("/" + t)[1..] == t;
    assert a + [] == a;
  }

  // ------------------------------------------------- worked examples

  lemma ResolveBah()
    ensures ResolveFromRoot("bah") == "/bah"
    ensures ResolveFromRoot("/bah") == "/bah"
  {
    SplitPrefix("bah", "");
    assert "bah" + "" == "bah";
    LeadingSlash("bah");
  }

  /** `..` at the root stays at the root. */
  lemma ResolveAboveRoot()
    ensures ResolveFromRoot("../b") == "/b"
  {
    SplitPrefix("b", "");
    assert "b" + "" == "b";
    SplitCons("..", "b");
    assert ".." + "/" + "b" == "../b";
    assert Collapse([], ["..", "b"]) == ["b"];
  }

  /** `..` drops the segment before it. */
  lemma ResolveParent()
    ensures ResolveFromRoot("a/..") == "/"
  {
    SplitPrefix("..", "");
    assert ".." + "" == "..";
    SplitCons("a", "..");
    assert "a" + "/" + ".." == "a/..";
    assert Collapse([], ["a", ".."]) == [];
  }
}
