/** When does appending the entries of a walk one by one rebuild the tree that was walked? */
module Rebuild {
  import opened Paths
  import opened Trees
  import opened Filesystem

  /** An entry's path is its name below its parent. */
  predicate Placed(t: Tree) {
    PlainName(t.meta.name) && t.meta.path == Join(ParentOf(t), t.meta.name)
  }

  predicate SameParent(ts: seq<Tree>, parent: string) {
    forall i | 0 <= i < |ts| :: ParentOf(ts[i]) == parent
  }

  /** The paths of a forest agree with its shape. Its top entries may have different parents,
      as the matches of a pattern do. */
  predicate WellPathed(ts: seq<Tree>) {
    ts == []
    || (&& Placed(ts[0])
        && (ts[0].DirT? ==> SameParent(ts[0].kids, ts[0].meta.path) && WellPathed(ts[0].kids))
        && WellPathed(ts[1..]))
  }

  /** Some entry's parent is captured by d. */
  predicate Claims(d: Tree, es: seq<Tree>) {
    exists j | 0 <= j < |es| :: Captures(d, ParentOf(es[j]))
  }

  /** No directory captures the parent of an entry walked after it that lies outside of it. */
  predicate Separate(ts: seq<Tree>) {
    ts == []
    || (&& !Claims(ts[0], Preorder(ts[1..]))
        && (ts[0].DirT? ==> Separate(ts[0].kids))
        && Separate(ts[1..]))
  }

  predicate PrefixesNone(a: Tree, ts: seq<Tree>) {
    forall j | 0 <= j < |ts| && ts[j].DirT? && ts[j].kids != [] :: !(a.meta.name <= ts[j].meta.name)
  }

  /** The same on names, for one walked directory: no directory's name is a string prefix of
      that of a later, non-empty sibling directory. */
  predicate NamesSeparate(ts: seq<Tree>) {
    ts == []
    || (&& (ts[0].DirT? ==> PrefixesNone(ts[0], ts[1..]))
        && (ts[0].DirT? ==> NamesSeparate(ts[0].kids))
        && NamesSeparate(ts[1..]))
  }

  // ---- Sizes ----

  predicate Shells(es: seq<Tree>) {
    forall i | 0 <= i < |es| :: es[i] == Shell(es[i])
  }

  lemma {:induction false} PreorderShells(ts: seq<Tree>)
    ensures Shells(Preorder(ts))
  {
    if ts != [] {
      PreorderShells(ts[1..]);
      if ts[0].DirT? {
        PreorderShells(ts[0].kids);
      }
    }
  }

  lemma AppendSize(ts: seq<Tree>, e: Tree, parent: string)
    ensures |Preorder(AppendAt(ts, e, parent))| == |Preorder(ts)| + |Preorder([e])|
    ensures |Preorder([e])| >= 1
  {
    var before, after := AppendSplices(ts, e, parent);
  }

  lemma {:induction false} AppendAllSize(ts: seq<Tree>, es: seq<Tree>)
    requires Shells(es)
    ensures |Preorder(AppendAll(ts, es))| == |Preorder(ts)| + |es|
    decreases |es|
  {
    if es != [] {
      AppendSize(ts, es[0], ParentOf(es[0]));
      assert Preorder([es[0]]) == [es[0]];
      AppendAllSize(Append(ts, es[0]), es[1..]);
    }
  }

  lemma AppendCaptured(d: Tree, more: seq<Tree>, e: Tree, parent: string) returns (d': Tree)
    requires Captures(d, parent)
    ensures AppendAt([d] + more, e, parent) == [d'] + more
    ensures |Preorder([d'])| > |Preorder([d])|
  {
    AppendSize([d], e, parent);
    assert [d][1..] == [] && ([d] + more)[1..] == more;
    d' := AppendAt([d], e, parent)[0];
    assert AppendAt([d], e, parent) == [d'];
  }

  /** Appending never takes anything out of the first sibling. */
  lemma {:induction false} AppendAllGrows(d: Tree, more: seq<Tree>, es: seq<Tree>)
    ensures var all := AppendAll([d] + more, es);
            all != [] && |Preorder([all[0]])| >= |Preorder([d])|
    decreases |es|
  {
    if es != [] {
      var e, parent := es[0], ParentOf(es[0]);
      if Captures(d, parent) {
        var d' := AppendCaptured(d, more, e, parent);
        AppendAllGrows(d', more, es[1..]);
      } else {
        AppendPasses([d], more, e, parent);
        AppendAllGrows(d, AppendAt(more, e, parent), es[1..]);
      }
    }
  }

  /** An entry claimed by an earlier sibling makes that sibling too large for good. */
  lemma {:induction false} ClaimedGrows(d: Tree, more: seq<Tree>, es: seq<Tree>)
    requires Claims(d, es)
    ensures var all := AppendAll([d] + more, es);
            all != [] && |Preorder([all[0]])| > |Preorder([d])|
    decreases |es|
  {
    var e, parent := es[0], ParentOf(es[0]);
    if Captures(d, parent) {
      var d' := AppendCaptured(d, more, e, parent);
      AppendAllGrows(d', more, es[1..]);
    } else {
      AppendPasses([d], more, e, parent);
      ClaimedLater(d, es);
      ClaimedGrows(d, AppendAt(more, e, parent), es[1..]);
    }
  }

  lemma ClaimedLater(d: Tree, es: seq<Tree>)
    requires Claims(d, es) && !Captures(d, ParentOf(es[0]))
    ensures Claims(d, es[1..])
  {
    hide Captures, ParentOf;
    var j :| 0 <= j < |es| && Captures(d, ParentOf(es[j]));
    assert es[1..][j - 1] == es[j];
  }

  lemma {:induction false} UnclaimedPasses(d: Tree, more: seq<Tree>, es: seq<Tree>)
    requires !Claims(d, es)
    ensures AppendAll([d] + more, es) == [d] + AppendAll(more, es)
    decreases |es|
  {
    if es != [] {
      assert !Captures(d, ParentOf(es[0]));
      AppendPasses([d], more, es[0], ParentOf(es[0]));
      assert forall j | 0 <= j < |es| - 1 :: es[1..][j] == es[j + 1];
      UnclaimedPasses(d, Append(more, es[0]), es[1..]);
    }
  }

  // ---- Paths of a walk ----

  lemma PlacedFacts(t: Tree)
    requires Placed(t)
    ensures IsClean(t.meta.path) && IsClean(ParentOf(t))
    ensures Abs(t.meta.path) == Extend(Abs(ParentOf(t)), t.meta.name)
    ensures t.meta.path == Before(Abs(ParentOf(t))) + t.meta.name
  {
    CleanIdempotent(Dir(t.meta.path));
    JoinName(ParentOf(t), t.meta.name);
    StrExtend(Abs(ParentOf(t)), t.meta.name);
  }

  /** Below a directory, string prefixes follow the tree. */
  lemma PlacedBelow(t: Tree, p: string)
    requires Placed(t) && Inside(p, ParentOf(t)) && Abs(p).comps != [] && IsClean(p)
    ensures p + "/" <= t.meta.path
  {
    var q := Abs(ParentOf(t));
    PlacedFacts(t);
    AbsNormal(p);
    AbsNormal(ParentOf(t));
    InsideMeansUnder(p, ParentOf(t));
    assert q.comps != [];
    assert Before(q) == Str(q) + "/";
  }

  predicate IsBelow(p: string, e: Tree) {
    Inside(p, ParentOf(e)) && |p| < |e.meta.path| && IsClean(e.meta.path)
  }

  predicate AllBelow(p: string, es: seq<Tree>) {
    forall i | 0 <= i < |es| :: IsBelow(p, es[i])
  }

  lemma AllBelowConcat(p: string, es: seq<Tree>, more: seq<Tree>)
    requires AllBelow(p, es) && AllBelow(p, more)
    ensures AllBelow(p, es + more)
  {
    forall i | 0 <= i < |es + more|
      ensures IsBelow(p, (es + more)[i])
    {
      if i < |es| {
        assert IsBelow(p, es[i]);
      } else {
        assert IsBelow(p, more[i - |es|]);
      }
    }
  }

  predicate TopsInside(p: string, ts: seq<Tree>) {
    forall i | 0 <= i < |ts| :: Inside(p, ParentOf(ts[i]))
  }

  lemma ShellBelow(p: string, t: Tree)
    requires Placed(t) && Inside(p, ParentOf(t)) && Abs(p).comps != [] && IsClean(p)
    ensures AllBelow(p, [Shell(t)]) && Inside(p, t.meta.path)
  {
    PlacedFacts(t);
    PlacedBelow(t, p);
  }

  lemma KidsInside(p: string, t: Tree)
    requires t.DirT? && SameParent(t.kids, t.meta.path) && Inside(p, t.meta.path)
    ensures TopsInside(p, t.kids)
  {}

  lemma {:induction false} WalkBelow(ts: seq<Tree>, p: string)
    requires WellPathed(ts) && IsClean(p) && Abs(p).comps != [] && TopsInside(p, ts)
    ensures AllBelow(p, Preorder(ts))
  {
    if ts != [] {
      var t := ts[0];
      var inside := if t.DirT? then Preorder(t.kids) else [];
      assert Inside(p, ParentOf(t));
      ShellBelow(p, t);
      if t.DirT? {
        KidsInside(p, t);
        WalkBelow(t.kids, p);
      }
      TopsInsideRest(p, ts);
      WalkBelow(ts[1..], p);
      AllBelowConcat(p, [Shell(t)], inside);
      AllBelowConcat(p, [Shell(t)] + inside, Preorder(ts[1..]));
      assert Preorder(ts) == [Shell(t)] + inside + Preorder(ts[1..]);
    }
  }

  lemma TopsInsideRest(p: string, ts: seq<Tree>)
    requires ts != [] && TopsInside(p, ts)
    ensures TopsInside(p, ts[1..])
  {}

  lemma BelowIsCaptured(m: Meta, e: Tree)
    requires IsClean(m.path) && IsBelow(m.path, e)
    ensures Captures(DirT(m, []), ParentOf(e)) && !Captures(e, m.path)
  {}

  // ---- Rebuilding ----

  predicate NoneCaptures(ts: seq<Tree>, parent: string) {
    forall i | 0 <= i < |ts| :: !Captures(ts[i], parent)
  }

  lemma {:induction false} AppendKeepsNoneCaptures(ts: seq<Tree>, e: Tree, at: string, parent: string)
    requires NoneCaptures(ts, parent) && !Captures(e, parent)
    ensures NoneCaptures(AppendAt(ts, e, at), parent)
    decreases |ts|
  {
    if ts != [] && !Captures(ts[0], at) {
      AppendKeepsNoneCaptures(ts[1..], e, at, parent);
    }
  }

  /** Entries from below a lone directory are appended as if its children were the root. */
  lemma {:induction false} Descend(m: Meta, kids: seq<Tree>, es: seq<Tree>)
    requires NoneCaptures(kids, m.path) && NoneCaptures(es, m.path)
    requires forall j | 0 <= j < |es| :: Captures(DirT(m, []), ParentOf(es[j]))
    ensures AppendAll([DirT(m, kids)], es) == [DirT(m, AppendAll(kids, es))]
    decreases |es|
  {
    if es != [] {
      var e := es[0];
      if ParentOf(e) == m.path {
        AppendPasses(kids, [], e, m.path);
        assert kids + [] == kids;
      }
      var next := Append(kids, e);
      AppendKeepsNoneCaptures(kids, e, ParentOf(e), m.path);
      assert Captures(DirT(m, []), ParentOf(e));
      assert Append([DirT(m, kids)], e) == [DirT(m, next)];
      Descend(m, next, es[1..]);
    }
  }

  /** Once its own walk is through, the first tree of a forest holds what its children's walk
      rebuilds, and is as large as it was. */
  lemma FirstRebuilt(t: Tree) returns (t': Tree)
    requires WellPathed([t])
    ensures t' == if t.DirT? then DirT(t.meta, AppendAll([], Preorder(t.kids))) else t
    ensures AppendAll([], Preorder([t])) == [t']
    ensures |Preorder([t'])| == |Preorder([t])|
  {
    var es := if t.DirT? then Preorder(t.kids) else [];
    PreorderShells([t]);
    AppendAllSize([], Preorder([t]));
    assert Preorder([t]) == [Shell(t)] + es;
    AppendAllConcat([], [Shell(t)], es);
    assert AppendAll([], [Shell(t)]) == [Shell(t)];
    if t.DirT? {
      PlacedFacts(t);
      KidsInside(t.meta.path, t);
      WalkBelow(t.kids, t.meta.path);
      forall j | 0 <= j < |es|
        ensures Captures(DirT(t.meta, []), ParentOf(es[j])) && !Captures(es[j], t.meta.path)
      {
        BelowIsCaptured(t.meta, es[j]);
      }
      Descend(t.meta, [], es);
      t' := DirT(t.meta, AppendAll([], es));
    } else {
      t' := t;
    }
  }

  /** The same shape: as many siblings on every level. */
  predicate Alike(a: seq<Tree>, b: seq<Tree>)
    decreases |Preorder(a)|
  {
    |a| == |b|
    && (a != [] ==> Alike(Kids(a[0]), Kids(b[0])) && Alike(a[1..], b[1..]))
  }

  function Kids(t: Tree): seq<Tree> {
    if t.DirT? then t.kids else []
  }

  lemma {:induction false} AlikeSize(a: seq<Tree>, b: seq<Tree>)
    requires Alike(a, b)
    ensures |Preorder(a)| == |Preorder(b)|
    decreases |Preorder(a)|
  {
    if a != [] {
      AlikeSize(Kids(a[0]), Kids(b[0]));
      AlikeSize(a[1..], b[1..]);
    }
  }

  lemma AlikeFirst(a: seq<Tree>, b: seq<Tree>)
    requires a != [] && b != [] && Alike(a, b)
    ensures Alike([a[0]], [b[0]]) && |Preorder([a[0]])| == |Preorder([b[0]])|
  {
    assert [a[0]][1..] == [] && [b[0]][1..] == [];
    AlikeSize([a[0]], [b[0]]);
  }

  /** The walk of a well-pathed forest rebuilds it if the forest is separate; if it is not, the
      result does not even have the forest's shape. */
  lemma {:induction false} RebuildOrDeform(ts: seq<Tree>)
    requires WellPathed(ts)
    ensures Separate(ts) ==> AppendAll([], Preorder(ts)) == ts
    ensures !Separate(ts) ==> !Alike(AppendAll([], Preorder(ts)), ts)
  {
    hide AppendAt, ParentOf, Captures, Placed;
    if ts != [] {
      var t, rest := ts[0], ts[1..];
      assert ts == [t] + rest;
      PreorderConcat([t], rest);
      AppendAllConcat([], Preorder([t]), Preorder(rest));
      var t' := FirstRebuilt(t);
      RebuildOrDeform(Kids(t));
      RebuildOrDeform(rest);
      assert [t'] + [] == [t'];
      SameClaims(t, t', Preorder(rest));
      var all := AppendAll([], Preorder(ts));
      if Claims(t', Preorder(rest)) {
        ClaimedGrows(t', [], Preorder(rest));
        if Alike(all, ts) {
          AlikeFirst(all, ts);
        }
      } else {
        UnclaimedPasses(t', [], Preorder(rest));
        assert all == [t'] + AppendAll([], Preorder(rest));
        assert all[1..] == AppendAll([], Preorder(rest));
      }
    }
  }

  lemma {:induction false} AlikeReflexive(ts: seq<Tree>)
    ensures Alike(ts, ts)
    decreases |Preorder(ts)|
  {
    if ts != [] {
      AlikeReflexive(Kids(ts[0]));
      AlikeReflexive(ts[1..]);
    }
  }

  /** The walk of any well-pathed forest rebuilds it if and only if the forest is separate. */
  lemma RebuildCondition(ts: seq<Tree>)
    requires WellPathed(ts)
    ensures AppendAll([], Preorder(ts)) == ts <==> Separate(ts)
  {
    RebuildOrDeform(ts);
    AlikeReflexive(ts);
  }

  lemma SameClaims(a: Tree, b: Tree, es: seq<Tree>)
    requires Shell(a) == Shell(b)
    ensures Claims(a, es) <==> Claims(b, es)
  {
    assert forall parent :: Captures(a, parent) <==> Captures(b, parent);
  }

  // ---- The condition on names ----

  /** A sibling captures what is at or below a later one exactly when its name is a prefix of
      the later one's. */
  lemma SiblingCaptures(a: Tree, b: Tree, parent: string)
    requires Placed(a) && Placed(b) && a.DirT? && ParentOf(a) == ParentOf(b)
    requires Inside(b.meta.path, parent)
    ensures Captures(a, parent) <==> a.meta.name <= b.meta.name
  {
    PlacedFacts(a);
    PlacedFacts(b);
    CaptureStrings(Before(Abs(ParentOf(a))), a.meta.name, b.meta.name, parent);
  }

  lemma CaptureStrings(pre: string, x: string, y: string, parent: string)
    requires '/' !in x && Inside(pre + y, parent)
    ensures pre + x <= parent <==> x <= y
  {
    var z := parent[|pre + y|..];
    assert parent == (pre + y) + z == pre + (y + z);
    PrefixCancels(pre, x, y + z);
    PlainPrefix(x, y, z);
  }

  /** What stands beside a sibling it never captures. */
  lemma SiblingSpares(a: Tree)
    requires Placed(a)
    ensures !Captures(a, ParentOf(a))
  {
    PlacedFacts(a);
    var q := Abs(ParentOf(a));
    if q.comps == [] && !q.rooted {
      assert a.meta.path == a.meta.name;
    } else {
      assert |Before(q)| >= |Str(q)|;
    }
  }

  lemma PrefixCancels(pre: string, x: string, y: string)
    ensures pre + x <= pre + y <==> x <= y
  {
    if pre + x <= pre + y {
      forall i | 0 <= i < |x|
        ensures x[i] == y[i]
      {
        assert (pre + x)[|pre| + i] == (pre + y)[|pre| + i];
      }
    }
  }

  /** A name cannot be a prefix across a separator. */
  lemma PlainPrefix(x: string, y: string, z: string)
    requires '/' !in x && (z == "" || z[0] == '/')
    ensures x <= y + z <==> x <= y
  {
    assert z != "" ==> (y + z)[|y|] == '/';
    assert forall i | 0 <= i < |x| :: x[i] != '/';
  }

  /** What a prefix test on strings says about paths, however the directory's own is written: the
      parent goes the same way as the directory up to its last name, and there has a name that
      begins with it. So a directory takes what is below it, and what is below such neighbours. */
  lemma CapturesExactly(d: Tree, parent: string)
    requires d.DirT? && IsClean(parent) && Abs(d.meta.path).comps != []
    ensures var p, q := Abs(d.meta.path), Abs(parent);
            var n := |p.comps| - 1;
            Captures(d, parent)
            <==> p.rooted == q.rooted && |q.comps| > n && q.comps[..n] == p.comps[..n] && p.comps[n] <= q.comps[n]
  {
    hide Split, PushAll, Unsplit, Str;
    var p, q := Abs(d.meta.path), Abs(parent);
    var n := |p.comps| - 1;
    var pp, c := Parent(p), p.comps[n];
    AbsNormal(d.meta.path);
    AbsNormal(parent);
    NormalPrefix(p, n);
    assert '/' !in c && c != "" by {
      assert PlainName(c) || c == "..";
    }
    assert p == Extend(pp, c);
    StrExtend(pp, c);
    assert Captures(d, parent) <==> Before(pp) + c <= Str(q);
    if Before(pp) + c <= Str(q) {
      StartsBelow(pp, c, q);
    }
    if Under(pp, q) && |q.comps| > n {
      StrBelow(pp, q);
      HeadPrefix(c, q.comps[n..]);
      PrefixCancels(Before(pp), c, Unsplit(q.comps[n..]));
    }
  }

  /** At the root and at the start of relative paths: `/` takes what is rooted, `.` whatever begins
      with a dot. */
  lemma EmptyCaptures(d: Tree, parent: string)
    requires d.DirT? && IsClean(parent) && Abs(d.meta.path).comps == []
    ensures Captures(d, parent) <==> if Rooted(d.meta.path) then Rooted(parent) else parent != "" && parent[0] == '.'
  {
    RootedStr(Abs(parent)) by {
      AbsNormal(parent);
    }
    var top := Clean(d.meta.path);
    assert top == (if Rooted(d.meta.path) then "/" else ".");
    assert Captures(d, parent) <==> top <= parent;
  }

  lemma HeadPrefix(c: string, cs: seq<string>)
    requires '/' !in c && cs != []
    ensures c <= Unsplit(cs) <==> c <= cs[0]
  {
    var rest := if |cs| == 1 then "" else "/" + Unsplit(cs[1..]);
    assert Unsplit(cs) == cs[0] + rest;
    PlainPrefix(c, cs[0], rest);
  }

  lemma StrBelow(p: Path, q: Path)
    requires Under(p, q) && |q.comps| > |p.comps|
    ensures Str(q) == Before(p) + Unsplit(q.comps[|p.comps|..])
  {
    var rest := q.comps[|p.comps|..];
    assert q.comps == p.comps + rest;
    if p.comps != [] {
      UnsplitConcat(p.comps, rest);
    }
  }

  lemma StartsBelow(p: Path, c: string, q: Path)
    requires Normal(p) && Normal(q) && '/' !in c && c != "" && Before(p) + c <= Str(q)
    requires c != "."
    ensures Under(p, q) && p != q
  {
    RootedStr(q);
    if p.comps != [] {
      PrefixMeansBelow(p, q);
      assert Str(p) + "/" <= Str(q) by {
        assert Before(p) == Str(p) + "/" by {
          assert p.rooted ==> "/" + (Unsplit(p.comps) + "/") == "/" + Unsplit(p.comps) + "/";
        }
      }
    } else {
      assert Before(p) + c == Str(q)[..|Before(p) + c|];
      assert Str(q)[0] == (Before(p) + c)[0];
      assert |Str(q)| >= |Before(p) + c|;
    }
  }

  lemma {:induction false} SiblingsSeparate(a: Tree, ts: seq<Tree>)
    requires Placed(a) && a.DirT? && WellPathed(ts) && SameParent(ts, ParentOf(a))
    ensures !Claims(a, Preorder(ts)) <==> PrefixesNone(a, ts)
    decreases |ts|
  {
    hide ParentOf, Captures;
    if ts != [] {
      SiblingsSeparate(a, ts[1..]);
      SiblingClaims(a, ts[0]);
      assert ts == [ts[0]] + ts[1..];
      PreorderConcat([ts[0]], ts[1..]);
      ClaimsConcat(a, Preorder([ts[0]]), Preorder(ts[1..]));
      PrefixesNoneCons(a, ts[0], ts[1..]);
    }
  }

  lemma SiblingClaims(a: Tree, b: Tree)
    requires Placed(a) && a.DirT? && WellPathed([b]) && ParentOf(b) == ParentOf(a)
    ensures Claims(a, Preorder([b])) <==> b.DirT? && b.kids != [] && a.meta.name <= b.meta.name
  {
    SiblingSpares(a);
    assert !Claims(a, [Shell(b)]);
    var inside := if b.DirT? then Preorder(b.kids) else [];
    assert Preorder([b]) == [Shell(b)] + inside;
    ClaimsConcat(a, [Shell(b)], inside);
    if b.DirT? {
      InsideSibling(a, b);
    }
  }

  lemma PrefixesNoneCons(a: Tree, b: Tree, ts: seq<Tree>)
    ensures PrefixesNone(a, [b] + ts) <==>
            PrefixesNone(a, ts) && (b.DirT? && b.kids != [] ==> !(a.meta.name <= b.meta.name))
  {
    var all := [b] + ts;
    assert all[0] == b && forall j | 0 <= j < |ts| :: all[j + 1] == ts[j];
  }

  lemma ClaimsConcat(a: Tree, es: seq<Tree>, more: seq<Tree>)
    ensures Claims(a, es + more) <==> Claims(a, es) || Claims(a, more)
  {
    var all := es + more;
    assert forall j | 0 <= j < |es| :: all[j] == es[j];
    assert forall j | 0 <= j < |more| :: all[|es| + j] == more[j];
    assert forall j | |es| <= j < |all| :: all[j] == more[j - |es|];
  }

  lemma InsideSibling(a: Tree, b: Tree)
    requires Placed(a) && Placed(b) && a.DirT? && ParentOf(a) == ParentOf(b)
    requires b.DirT? && SameParent(b.kids, b.meta.path) && WellPathed(b.kids)
    ensures Claims(a, Preorder(b.kids)) <==> b.kids != [] && a.meta.name <= b.meta.name
  {
    var es := Preorder(b.kids);
    PlacedFacts(b);
    KidsInside(b.meta.path, b);
    WalkBelow(b.kids, b.meta.path);
    forall j | 0 <= j < |es|
      ensures Captures(a, ParentOf(es[j])) <==> a.meta.name <= b.meta.name
    {
      assert IsBelow(b.meta.path, es[j]);
      SiblingCaptures(a, b, ParentOf(es[j]));
    }
    assert b.kids != [] ==> |es| > 0 && 0 <= 0 < |es|;
    assert es != [] ==> (Captures(a, ParentOf(es[0])) <==> a.meta.name <= b.meta.name);
  }

  lemma {:induction false} SeparateByNames(ts: seq<Tree>, parent: string)
    requires WellPathed(ts) && SameParent(ts, parent)
    ensures Separate(ts) <==> NamesSeparate(ts)
  {
    hide ParentOf, Captures, PrefixesNone;
    if ts != [] {
      SeparateByNames(ts[1..], parent);
      assert ts == [ts[0]] + ts[1..];
      if ts[0].DirT? {
        SeparateByNames(ts[0].kids, ts[0].meta.path);
        SiblingsSeparate(ts[0], ts[1..]);
      } else {
        FilesClaimNothing(ts[0], Preorder(ts[1..]));
      }
    }
  }

  lemma FilesClaimNothing(t: Tree, es: seq<Tree>)
    requires t.FileT?
    ensures !Claims(t, es)
  {}

  /** One walked directory is rebuilt from its walk if and only if no directory in it has a name
      that is a prefix of that of a later, non-empty sibling directory. */
  lemma RebuildByNames(ts: seq<Tree>, parent: string)
    requires WellPathed(ts) && SameParent(ts, parent)
    ensures AppendAll([], Preorder(ts)) == ts <==> NamesSeparate(ts)
  {
    RebuildCondition(ts);
    SeparateByNames(ts, parent);
  }
}
