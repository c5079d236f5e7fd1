/**
 Dot-segment resolution of URL paths: a rewriting loop that runs to a fixpoint,
 proved to compute the walk through the path's segments.
 */
module Backpath {

  // ---------------------------------------------------------------------
  // Paths and segments

  predicate Rooted(p: string) {
    p == "" || p[0] == '/'
  }

  predicate SlashFree(s: string) {
    forall k :: 0 <= k < |s| ==> s[k] != '/'
  }

  /** The first slash at or after `i`, or the end. */
  function NextSlash(p: string, i: nat): (j: nat)
    requires i <= |p|
    ensures i <= j <= |p| && SlashFree(p[i..j]) && (j < |p| ==> p[j] == '/')
    decreases |p| - i
  {
    if i == |p| || p[i] == '/' then i
    else
      assert p[i..NextSlash(p, i + 1)] == [p[i]] + p[i + 1..NextSlash(p, i + 1)];
      NextSlash(p, i + 1)
  }

  /** The texts after each slash. */
  function Segments(p: string): (segs: seq<string>)
    requires Rooted(p)
    ensures p != "" ==> segs != []
    decreases |p|
  {
    if p == "" then []
    else
      var j := NextSlash(p, 1);
      [p[1..j]] + Segments(p[j..])
  }

  function Render(segs: seq<string>): (p: string)
    ensures Rooted(p) && |p| >= |segs|
  {
    if segs == [] then "" else "/" + segs[0] + Render(segs[1..])
  }

  lemma {:induction false} RenderSegments(p: string)
    requires Rooted(p)
    ensures Render(Segments(p)) == p
    decreases |p|
  {
    if p == "" {
    } else {
      hide NextSlash, Render, SlashFree;
      var j := NextSlash(p, 1);
      RenderSegments(p[j..]);
      RenderCons(p[1..j], Segments(p[j..]));
      SplitAt(p, j);
    }
  }

  lemma SplitAt(p: string, j: nat)
    requires p != "" && p[0] == '/' && 1 <= j <= |p|
    ensures "/" + p[1..j] + p[j..] == p
  {
  }

  lemma RenderCons(seg: string, rest: seq<string>)
    ensures Render([seg] + rest) == "/" + seg + Render(rest)
  {
    assert ([seg] + rest)[1..] == rest;
  }

  lemma NextSlashIs(p: string, i: nat, j: nat)
    requires i <= j <= |p| && SlashFree(p[i..j]) && (j < |p| ==> p[j] == '/')
    ensures NextSlash(p, i) == j
    decreases j - i
  {
    if i < j {
      assert p[i] == p[i..j][0] != '/';
      assert p[i + 1..j] == p[i..j][1..];
      NextSlashIs(p, i + 1, j);
    }
  }

  lemma SegmentsCons(seg: string, rest: string)
    requires SlashFree(seg) && Rooted(rest)
    ensures Segments("/" + seg + rest) == [seg] + Segments(rest)
  {
    var p := "/" + seg + rest;
    var j := 1 + |seg|;
    assert p[1..j] == seg && p[j..] == rest;
    NextSlashIs(p, 1, j);
  }

  ghost predicate AllSlashFree(segs: seq<string>) {
    forall k :: 0 <= k < |segs| ==> SlashFree(segs[k])
  }

  lemma {:induction false} SegmentsRender(segs: seq<string>)
    requires AllSlashFree(segs)
    ensures Segments(Render(segs)) == segs
  {
    if segs == [] {
    } else {
      SegmentsRender(segs[1..]);
      SegmentsCons(segs[0], Render(segs[1..]));
    }
  }

  lemma {:induction false} SegmentsSlashFree(p: string)
    requires Rooted(p)
    ensures AllSlashFree(Segments(p))
    decreases |p|
  {
    if p == "" {
    } else {
      SegmentsSlashFree(p[NextSlash(p, 1)..]);
    }
  }

  // ---------------------------------------------------------------------
  // The reference: walking the segments

  predicate Named(seg: string) {
    seg != "" && seg != "." && seg != ".."
  }

  /** ".." leaves the innermost directory, or stays at the root; "" and "." stay. */
  function Walk(stack: seq<string>, segs: seq<string>): seq<string>
    decreases |segs|
  {
    if segs == [] then stack
    else if segs[0] == ".." then Walk(if stack == [] then [] else stack[..|stack| - 1], segs[1..])
    else if Named(segs[0]) then Walk(stack + [segs[0]], segs[1..])
    else Walk(stack, segs[1..])
  }

  /** A final "" or "." stays visible in the result. */
  function Trail(segs: seq<string>): seq<string> {
    if segs != [] && (segs[|segs| - 1] == "" || segs[|segs| - 1] == ".") then [segs[|segs| - 1]] else []
  }

  function WithRoot(path: string): (p: string)
    ensures Rooted(p) && p != ""
  {
    if path == "" || path[0] != '/' then "/" + path else path
  }

  function ResolvedSegments(segs: seq<string>): seq<string> {
    var named := Walk([], segs) + Trail(segs);
    if named == [] then [""] else named
  }

  function Resolved(path: string): string {
    Render(ResolvedSegments(Segments(WithRoot(path))))
  }

  // ---------------------------------------------------------------------
  // One rewriting pass, on segments

  function Collapsed(segs: seq<string>): seq<string>
    decreases |segs|
  {
    if segs == [] then []
    else if |segs| > 1 && Named(segs[0]) && segs[1] == ".." then Collapsed(segs[2..])
    else if |segs| > 1 && (segs[0] == "." || segs[0] == "") then Collapsed(segs[1..])
    else [segs[0]] + Collapsed(segs[1..])
  }

  /** A pass does not change where the walk ends, from any starting place. */
  lemma {:induction false} CollapseKeepsWalk(stack: seq<string>, segs: seq<string>)
    ensures Walk(stack, Collapsed(segs)) == Walk(stack, segs)
    decreases |segs|
  {
    if segs == [] {
    } else if |segs| > 1 && Named(segs[0]) && segs[1] == ".." {
      assert (stack + [segs[0]])[..|stack|] == stack;
      assert segs[1..][1..] == segs[2..];
      CollapseKeepsWalk(stack, segs[2..]);
    } else if |segs| > 1 && (segs[0] == "." || segs[0] == "") {
      CollapseKeepsWalk(stack, segs[1..]);
    } else {
      assert Collapsed(segs)[1..] == Collapsed(segs[1..]);
      CollapseKeepsWalk(if segs[0] == ".." then (if stack == [] then [] else stack[..|stack| - 1])
                        else if Named(segs[0]) then stack + [segs[0]] else stack, segs[1..]);
    }
  }

  lemma {:induction false} CollapseKeepsTrail(segs: seq<string>)
    ensures Trail(Collapsed(segs)) == Trail(segs)
    ensures segs != [] && Trail(segs) != [] ==> Collapsed(segs) != []
    decreases |segs|
  {
    if segs == [] {
    } else if |segs| > 1 && Named(segs[0]) && segs[1] == ".." {
      CollapseKeepsTrail(segs[2..]);
      assert Trail(segs[2..]) == Trail(segs);
    } else if |segs| > 1 && (segs[0] == "." || segs[0] == "") {
      CollapseKeepsTrail(segs[1..]);
    } else {
      CollapseKeepsTrail(segs[1..]);
    }
  }

  /** A pass that changes anything shortens the text. */
  lemma {:induction false} CollapseShortens(segs: seq<string>)
    ensures Collapsed(segs) == segs || |Render(Collapsed(segs))| < |Render(segs)|
    decreases |segs|
  {
    if segs == [] {
    } else if |segs| > 1 && Named(segs[0]) && segs[1] == ".." {
      CollapseShortens(segs[2..]);
      assert segs[1..][1..] == segs[2..];
    } else {
      CollapseShortens(segs[1..]);
      assert segs == [segs[0]] + segs[1..];
    }
  }

  lemma {:induction false} CollapseSlashFree(segs: seq<string>)
    requires AllSlashFree(segs)
    ensures AllSlashFree(Collapsed(segs))
    decreases |segs|
  {
    if segs == [] {
    } else if |segs| > 1 && Named(segs[0]) && segs[1] == ".." {
      CollapseSlashFree(segs[2..]);
    } else {
      CollapseSlashFree(segs[1..]);
    }
  }

  /** What a fixpoint looks like once it no longer climbs: named segments and a trail. */
  lemma {:induction false} FixpointDescends(stack: seq<string>, segs: seq<string>)
    requires Collapsed(segs) == segs && (segs == [] || segs[0] != "..")
    ensures Walk(stack, segs) + Trail(segs) == stack + segs
    decreases |segs|
  {
    if segs == [] {
    } else {
      if |segs| > 1 && (segs[0] == "" || segs[0] == ".") {
        CollapseLength(segs[1..]);
        assert false;
      }
      if |segs| > 1 && Named(segs[0]) && segs[1] == ".." {
        CollapseLength(segs[2..]);
        assert false;
      }
      assert Collapsed(segs)[1..] == Collapsed(segs[1..]);
      if Named(segs[0]) {
        FixpointDescends(stack + [segs[0]], segs[1..]);
        assert (stack + [segs[0]]) + segs[1..] == stack + segs;
      }
    }
  }

  lemma {:induction false} CollapseLength(segs: seq<string>)
    ensures |Collapsed(segs)| <= |segs|
    decreases |segs|
  {
    if segs == [] {
    } else if |segs| > 1 && Named(segs[0]) && segs[1] == ".." {
      CollapseLength(segs[2..]);
    } else {
      CollapseLength(segs[1..]);
    }
  }

  /** Dropping a leading ".." keeps a fixpoint and its meaning at the root. */
  lemma FixpointClimbs(segs: seq<string>)
    requires Collapsed(segs) == segs && segs != [] && segs[0] == ".."
    ensures Collapsed(segs[1..]) == segs[1..]
    ensures |segs| > 1 ==> ResolvedSegments(segs) == ResolvedSegments(segs[1..])
  {
    assert Collapsed(segs)[1..] == Collapsed(segs[1..]);
  }

  // ---------------------------------------------------------------------
  // One rewriting pass, on text

  /** What a pass still has to write when it stands at `i`. */
  function Remaining(p: string, i: nat): string
    requires i <= |p|
  {
    var j := NextSlash(p, i);
    p[i..j] + Render(Collapsed(Segments(p[j..])))
  }

  lemma SegmentsAt(p: string, i: nat)
    requires i < |p| && p[i] == '/'
    ensures var k := NextSlash(p, i + 1);
      Segments(p[i..]) == [p[i + 1..k]] + Segments(p[k..])
  {
    hide Segments, NextSlash;
    var k := NextSlash(p, i + 1);
    SegmentsCons(p[i + 1..k], p[k..]);
    assert p[i..] == "/" + p[i + 1..k] + p[k..];
  }

  /** Whether "/.." stands at `j` as a whole segment. */
  predicate ParentAt(p: string, j: nat) {
    && j + 2 < |p| && p[j] == '/' && p[j + 1] == '.' && p[j + 2] == '.'
    && (j + 3 == |p| || p[j + 3] == '/')
  }

  lemma ParentSegment(p: string, j: nat)
    requires j < |p| && p[j] == '/'
    ensures ParentAt(p, j) <==> Segments(p[j..])[0] == ".."
    ensures ParentAt(p, j) ==> Segments(p[j + 3..]) == Segments(p[j..])[1..]
  {
    hide Segments, NextSlash, ParentAt;
    SegmentsAt(p, j);
    ParentText(p, j);
  }

  lemma ParentText(p: string, j: nat)
    requires j < |p| && p[j] == '/'
    ensures ParentAt(p, j) <==> p[j + 1..NextSlash(p, j + 1)] == ".."
    ensures ParentAt(p, j) ==> NextSlash(p, j + 1) == j + 3
  {
    var e := NextSlash(p, j + 1);
    hide NextSlash;
    if ParentAt(p, j) {
      NextSlashIs(p, j + 1, j + 3);
    }
  }

  /** A named segment follows the slash at `i`, and ".." follows the segment. */
  predicate ParentMatches(p: string, i: nat)
    requires i < |p|
  {
    var j := NextSlash(p, i + 1);
    Named(p[i + 1..j]) && ParentAt(p, j)
  }

  method MatchParent(p: string, i: nat) returns (end: nat, ok: bool)
    requires i < |p| && p[i] == '/'
    ensures ok <==> ParentMatches(p, i)
    ensures ok ==> end == NextSlash(p, i + 1) + 3
  {
    var j := i + 1;
    while j < |p| && p[j] != '/'
      invariant i < j <= |p| && SlashFree(p[i + 1..j])
    {
      assert p[i + 1..j + 1] == p[i + 1..j] + [p[j]];
      j := j + 1;
    }
    NextSlashIs(p, i + 1, j);
    var seg := p[i + 1..j];
    if seg == "" || seg == "." || seg == ".." {
      return 0, false;
    }
    if j + 2 >= |p| || p[j] != '/' || p[j + 1] != '.' || p[j + 2] != '.' {
      return 0, false;
    }
    end := j + 3;
    if end == |p| || p[end] == '/' {
      return end, true;
    }
    return 0, false;
  }

  lemma SkipsDot(p: string, i: nat)
    requires i + 2 < |p| && p[i] == '/' && p[i + 1] == '.' && p[i + 2] == '/'
    ensures Remaining(p, i + 2) == Remaining(p, i)
  {
    NextSlashIs(p, i + 1, i + 2);
    SegmentsAt(p, i);
    assert p[i + 1..i + 2] == ".";
    assert Segments(p[i..])[1..] == Segments(p[i + 2..]);
  }

  lemma SkipsEmpty(p: string, i: nat)
    requires i + 1 < |p| && p[i] == '/' && p[i + 1] == '/'
    ensures Remaining(p, i + 1) == Remaining(p, i)
  {
    SegmentsAt(p, i);
    assert p[i + 1..i + 1] == "";
    assert Segments(p[i..])[1..] == Segments(p[i + 1..]);
  }

  lemma SkipsParent(p: string, i: nat)
    requires i < |p| && p[i] == '/' && ParentMatches(p, i)
    ensures i < NextSlash(p, i + 1) + 3 <= |p|
    ensures Remaining(p, NextSlash(p, i + 1) + 3) == Remaining(p, i)
  {
    hide Segments, Render;
    var j := NextSlash(p, i + 1);
    SegmentsAt(p, i);
    ParentSegment(p, j);
    assert Segments(p[i..])[2..] == Segments(p[j..])[1..];
  }

  lemma RemainingAtEnd(p: string)
    ensures Remaining(p, |p|) == ""
  {
  }

  lemma CopiesChar(p: string, i: nat)
    requires i < |p| && p[i] != '/'
    ensures Remaining(p, i) == [p[i]] + Remaining(p, i + 1)
  {
    var j := NextSlash(p, i);
    assert p[i..j] == [p[i]] + p[i + 1..j];
  }

  /** A text that does not start at a slash keeps what precedes its first one. */
  method CollapseBackpath(p: string) returns (out: string)
    ensures out == Remaining(p, 0)
  {
    hide Remaining, ParentMatches, NextSlash;
    out := "";
    var i := 0;
    while i < |p|
      invariant i <= |p|
      invariant out + Remaining(p, i) == Remaining(p, 0)
    {
      if p[i] == '/' {
        var end, ok := MatchParent(p, i);
        if ok {
          SkipsParent(p, i);
          i := end;
          continue;
        }
        if i + 2 < |p| && p[i + 1] == '.' && p[i + 2] == '/' {
          SkipsDot(p, i);
          i := i + 2;
          continue;
        }
        if i + 1 < |p| && p[i + 1] == '/' {
          SkipsEmpty(p, i);
          i := i + 1;
          continue;
        }
        KeepsSegment(p, i);
      } else {
        CopiesChar(p, i);
      }
      out := out + [p[i]];
      i := i + 1;
    }
    RemainingAtEnd(p);
  }

  /** Where no rule applies, the pass copies the slash and the segment after it. */
  lemma KeepsSegment(p: string, i: nat)
    requires i < |p| && p[i] == '/'
    requires !ParentMatches(p, i)
    requires !(i + 2 < |p| && p[i + 1] == '.' && p[i + 2] == '/')
    requires !(i + 1 < |p| && p[i + 1] == '/')
    ensures Remaining(p, i) == [p[i]] + Remaining(p, i + 1)
  {
    hide Collapsed, Render, Segments, Named, ParentMatches;
    SegmentsAt(p, i);
    var k := NextSlash(p, i + 1);
    NoRuleApplies(p, i);
    CollapsedKeeps(p[i + 1..k], Segments(p[k..]));
  }

  lemma NoRuleApplies(p: string, i: nat)
    requires i < |p| && p[i] == '/'
    requires !ParentMatches(p, i)
    requires !(i + 2 < |p| && p[i + 1] == '.' && p[i + 2] == '/')
    requires !(i + 1 < |p| && p[i + 1] == '/')
    ensures var k := NextSlash(p, i + 1);
      var seg, rest := p[i + 1..k], Segments(p[k..]);
      rest != [] ==> !(Named(seg) && rest[0] == "..") && seg != "" && seg != "."
  {
    hide NextSlash;
    var k := NextSlash(p, i + 1);
    if k < |p| {
      ParentSegment(p, k);
      assert p[k] == '/';
    } else {
      assert p[k..] == "";
    }
  }

  lemma CollapsedKeeps(seg: string, rest: seq<string>)
    requires rest != [] ==> !(Named(seg) && rest[0] == "..") && seg != "" && seg != "."
    ensures Render(Collapsed([seg] + rest)) == "/" + seg + Render(Collapsed(rest))
  {
    assert ([seg] + rest)[1..] == rest;
    assert ([seg] + Collapsed(rest))[1..] == Collapsed(rest);
  }

  // ---------------------------------------------------------------------
  // The whole resolution

  /** The text starts with "/../". */
  predicate Climbs(p: string) {
    4 <= |p| && p[0] == '/' && p[1] == '.' && p[2] == '.' && p[3] == '/'
  }

  method ResolveBackpath(path: string) returns (r: string)
    ensures r == Resolved(path)
  {
    hide ResolvedSegments, Collapsed, Segments;
    var p := path;
    if p == "" || p[0] != '/' {
      p := "/" + p;
    }
    ghost var first := Segments(p);
    SegmentsSlashFree(p);
    while true
      invariant Rooted(p)
      invariant ResolvedSegments(Segments(p)) == ResolvedSegments(first)
      decreases |p|
    {
      var next := CollapseBackpath(p);
      assert p[0..] == p;
      assert next == Render(Collapsed(Segments(p)));
      PassResult(p);
      if next == p { break; }
      p := next;
    }
    while Climbs(p)
      invariant Rooted(p) && Collapsed(Segments(p)) == Segments(p)
      invariant ResolvedSegments(Segments(p)) == ResolvedSegments(first)
      decreases |p|
    {
      StripsParent(p);
      p := p[3..];
    }
    LastForm(p);
    if p == "/.." {
      p := "/";
    }
    if p == "" {
      return "/";
    }
    return p;
  }

  lemma StripsParent(p: string)
    requires Climbs(p) && Collapsed(Segments(p)) == Segments(p)
    ensures Collapsed(Segments(p[3..])) == Segments(p[3..])
    ensures ResolvedSegments(Segments(p[3..])) == ResolvedSegments(Segments(p))
  {
    assert p[0..] == p;
    ParentSegment(p, 0);
    FixpointClimbs(Segments(p));
  }

  lemma PassResult(p: string)
    requires Rooted(p)
    ensures var next := Render(Collapsed(Segments(p)));
      && Segments(next) == Collapsed(Segments(p))
      && (next == p ==> Collapsed(Segments(p)) == Segments(p))
      && (next != p ==> |next| < |p|)
      && ResolvedSegments(Segments(next)) == ResolvedSegments(Segments(p))
  {
    var segs := Segments(p);
    SegmentsSlashFree(p);
    CollapseSlashFree(segs);
    SegmentsRender(Collapsed(segs));
    RenderSegments(p);
    CollapseShortens(segs);
    CollapseKeepsWalk([], segs);
    CollapseKeepsTrail(segs);
  }

  lemma LastForm(p: string)
    requires Rooted(p) && Collapsed(Segments(p)) == Segments(p)
    requires !Climbs(p)
    ensures Render(ResolvedSegments(Segments(p))) == if p == "/.." || p == "" then "/" else p
  {
    hide Collapsed, NextSlash, Segments, ResolvedSegments;
    if p == "" {
      RootForm();
    } else {
      assert p[0..] == p;
      ParentSegment(p, 0);
      if ParentAt(p, 0) {
        assert |p| == 3;
        ClimbingForm(p);
      } else {
        DescendingForm(p);
      }
    }
  }

  lemma RootForm()
    ensures Render(ResolvedSegments(Segments(""))) == "/"
  {
  }

  lemma ClimbingForm(p: string)
    requires |p| == 3 && ParentAt(p, 0)
    ensures p == "/.." && Render(ResolvedSegments(Segments(p))) == "/"
  {
    assert p[0..] == p;
    ParentSegment(p, 0);
    assert Segments(p) == [".."] + Segments("");
    assert Walk([], [".."]) == [] && Trail([".."]) == [];
  }

  lemma DescendingForm(p: string)
    requires Rooted(p) && p != "" && Collapsed(Segments(p)) == Segments(p) && Segments(p)[0] != ".."
    ensures Render(ResolvedSegments(Segments(p))) == p
  {
    var segs := Segments(p);
    RenderSegments(p);
    FixpointDescends([], segs);
    assert [] + segs == segs;
  }

  // ---------------------------------------------------------------------
  // What the result promises

  lemma {:induction false} WalkNamed(stack: seq<string>, segs: seq<string>)
    requires forall k :: 0 <= k < |stack| ==> Named(stack[k])
    ensures forall k :: 0 <= k < |Walk(stack, segs)| ==> Named(Walk(stack, segs)[k])
    decreases |segs|
  {
    if segs == [] {
    } else {
      WalkNamed(if segs[0] == ".." then (if stack == [] then [] else stack[..|stack| - 1])
                else if Named(segs[0]) then stack + [segs[0]] else stack, segs[1..]);
    }
  }

  lemma {:induction false} WalkSlashFree(stack: seq<string>, segs: seq<string>)
    requires AllSlashFree(stack) && AllSlashFree(segs)
    ensures AllSlashFree(Walk(stack, segs))
    decreases |segs|
  {
    if segs == [] {
    } else {
      WalkSlashFree(if segs[0] == ".." then (if stack == [] then [] else stack[..|stack| - 1])
                    else if Named(segs[0]) then stack + [segs[0]] else stack, segs[1..]);
    }
  }

  lemma {:induction false} WalkDescends(stack: seq<string>, segs: seq<string>)
    requires forall k :: 0 <= k < |segs| ==> segs[k] != ".." && (Named(segs[k]) || k == |segs| - 1)
    ensures Walk(stack, segs) + Trail(segs) == stack + segs
    decreases |segs|
  {
    if segs == [] || !Named(segs[0]) {
    } else {
      WalkDescends(stack + [segs[0]], segs[1..]);
      assert (stack + [segs[0]]) + segs[1..] == stack + segs;
    }
  }

  /** All segments are named, but for a last one that may be "" or ".". */
  ghost predicate Plain(segs: seq<string>) {
    && segs != []
    && AllSlashFree(segs)
    && forall k :: 0 <= k < |segs| ==> segs[k] != ".." && (Named(segs[k]) || k == |segs| - 1)
  }

  lemma ResolvedPlain(path: string)
    ensures Plain(Segments(Resolved(path)))
    ensures Segments(Resolved(path)) == ResolvedSegments(Segments(WithRoot(path)))
  {
    var segs := Segments(WithRoot(path));
    SegmentsSlashFree(WithRoot(path));
    WalkNamed([], segs);
    WalkSlashFree([], segs);
    SegmentsRender(ResolvedSegments(segs));
  }

  /** The result names the directory the walk ends in. */
  lemma ResolvedMeaning(path: string)
    ensures Walk([], Segments(Resolved(path))) == Walk([], Segments(WithRoot(path)))
  {
    var segs := Segments(WithRoot(path));
    var named := Walk([], segs);
    ResolvedPlain(path);
    WalkNamed([], segs);
    WalkDescends([], named);
    var last := ResolvedSegments(segs)[|named|..];
    assert ResolvedSegments(segs) == named + last;
    WalkConcat([], named, last);
    assert [] + named == named == Walk([], named) + Trail(named);
    assert last == [] || (|last| == 1 && !Named(last[0]) && last[0] != "..");
    assert Walk(named, last) == named;
  }

  lemma {:induction false} WalkConcat(stack: seq<string>, a: seq<string>, b: seq<string>)
    ensures Walk(stack, a + b) == Walk(Walk(stack, a), b)
    decreases |a|
  {
    if a == [] {
      assert a + b == b;
    } else {
      assert (a + b)[1..] == a[1..] + b;
      WalkConcat(if a[0] == ".." then (if stack == [] then [] else stack[..|stack| - 1])
                 else if Named(a[0]) then stack + [a[0]] else stack, a[1..], b);
    }
  }

  lemma ResolvedFixpoint(path: string)
    ensures Resolved(Resolved(path)) == Resolved(path)
  {
    ResolvedPlain(path);
    var segs := Segments(Resolved(path));
    RenderSegments(Resolved(path));
    WalkDescends([], segs);
    assert [] + segs == segs;
  }

  /** In the text: a leading slash, no "//", no "/./", and no ".." between slashes. */
  ghost predicate Clean(p: string) {
    && p != "" && p[0] == '/'
    && (forall i :: 0 <= i < |p| - 1 && p[i] == '/' ==> p[i + 1] != '/')
    && (forall i :: 0 <= i < |p| - 2 && p[i] == '/' && p[i + 1] == '.' ==> p[i + 2] != '/')
    && (forall i :: 0 <= i < |p| - 2 && p[i] == '/' && p[i + 1] == '.' && p[i + 2] == '.' ==>
          i + 3 < |p| && p[i + 3] != '/')
  }

  lemma {:induction false} PlainIsClean(segs: seq<string>)
    requires Plain(segs)
    ensures Clean(Render(segs))
  {
    if |segs| <= 1 {
    } else {
      PlainIsClean(segs[1..]);
    }
    CleanAfter(segs[0], Render(segs[1..]));
  }

  lemma CleanAfter(seg: string, rest: string)
    requires SlashFree(seg) && seg != ".." && (rest == "" || (Named(seg) && Clean(rest)))
    ensures Clean("/" + seg + rest)
  {
    var p, m := "/" + seg + rest, |seg| + 1;
    forall i | 0 <= i < |p|
      ensures 0 < i < m ==> p[i] == seg[i - 1] != '/'
      ensures m <= i ==> p[i] == rest[i - m]
    {
    }
  }

  lemma ResolvedClean(path: string)
    ensures Clean(Resolved(path))
  {
    ResolvedPlain(path);
    RenderSegments(Resolved(path));
    PlainIsClean(Segments(Resolved(path)));
  }

  /** The end of a path stays visible: the result ends with "/." exactly if the path does, and
      with "/" exactly if the path does or nothing else is left of it. */
  lemma ResolvedTrail(path: string)
    ensures var segs, out := Segments(WithRoot(path)), Segments(Resolved(path));
      && segs != [] && out != []
      && (out[|out| - 1] == "." <==> segs[|segs| - 1] == ".")
      && (out[|out| - 1] == "" <==> segs[|segs| - 1] == "" || (segs[|segs| - 1] != "." && Walk([], segs) == []))
      && (forall k :: 0 <= k < |out| - 1 ==> Named(out[k]))
  {
    var segs := Segments(WithRoot(path));
    ResolvedPlain(path);
    WalkNamed([], segs);
    hide Walk, Segments, Resolved, WithRoot;
  }
}
