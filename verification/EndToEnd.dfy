/** From one file system to another: walk, Append, Write, and the receiver's loop. */
module EndToEnd {
  import opened Paths
  import opened Filesystem
  import opened Headers
  import opened Trees
  import opened Rebuild
  import opened Parser
  import opened RoundTrip

  // ---- What is printed stays printable when it is put together again ----

  lemma {:induction false} PrintableConcat(a: seq<Tree>, b: seq<Tree>)
    ensures AllPrintable(a + b) <==> AllPrintable(a) && AllPrintable(b)
    decreases |a|
  {
    hide Printable;
    if a == [] {
      assert a + b == b;
    } else {
      assert (a + b)[1..] == a[1..] + b;
      PrintableConcat(a[1..], b);
    }
  }

  lemma PrintableHead(t: Tree, rest: seq<Tree>)
    ensures AllPrintable([t] + rest) <==>
            Printable(t) && (t.DirT? ==> AllPrintable(t.kids)) && AllPrintable(rest)
  {
    assert ([t] + rest)[1..] == rest;
  }

  lemma {:induction false} AppendPrintable(ts: seq<Tree>, e: Tree, parent: string)
    requires AllPrintable(ts) && AllPrintable([e])
    ensures AllPrintable(AppendAt(ts, e, parent))
  {
    hide Printable, Clean;
    if ts != [] {
      var t, rest := ts[0], ts[1..];
      assert Printable(t);
      if t.DirT? && t.meta.path == parent {
        PrintableConcat(t.kids, [e]);
        SamePrintable(t, t.kids + [e]);
        PrintableHead(DirT(t.meta, t.kids + [e]), rest);
      } else if Captures(t, parent) {
        AppendPrintable(t.kids, e, parent);
        SamePrintable(t, AppendAt(t.kids, e, parent));
        PrintableHead(DirT(t.meta, AppendAt(t.kids, e, parent)), rest);
      } else {
        AppendPrintable(rest, e, parent);
        PrintableHead(t, AppendAt(rest, e, parent));
      }
    }
  }

  lemma SamePrintable(t: Tree, kids: seq<Tree>)
    requires t.DirT?
    ensures Printable(DirT(t.meta, kids)) <==> Printable(t)
  {}

  lemma {:induction false} AppendAllPrintable(ts: seq<Tree>, es: seq<Tree>)
    requires AllPrintable(ts) && AllPrintable(es)
    ensures AllPrintable(AppendAll(ts, es))
    decreases |es|
  {
    hide Printable, AppendAt;
    if es != [] {
      assert es == [es[0]] + es[1..];
      PrintableConcat([es[0]], es[1..]);
      AppendPrintable(ts, es[0], ParentOf(es[0]));
      AppendAllPrintable(Append(ts, es[0]), es[1..]);
    }
  }

  lemma {:induction false} WalkPrintable(ts: seq<Tree>)
    requires AllPrintable(ts)
    ensures AllPrintable(Preorder(ts))
  {
    if ts != [] {
      var t := ts[0];
      var inside := if t.DirT? then Preorder(t.kids) else [];
      if t.DirT? {
        WalkPrintable(t.kids);
      }
      WalkPrintable(ts[1..]);
      PrintableHead(Shell(t), []);
      assert [Shell(t)] + [] == [Shell(t)];
      PrintableConcat([Shell(t)], inside);
      PrintableConcat([Shell(t)] + inside, Preorder(ts[1..]));
    }
  }

  // ---- Events show the shape ----

  function Depths(d: nat, ts: seq<Tree>): seq<nat>
    decreases |Preorder(ts)|
  {
    if ts == [] then [] else [d] + Depths(d + 1, Kids(ts[0])) + Depths(d, ts[1..])
  }

  predicate AllAbove(d: int, depths: seq<nat>) {
    forall i | 0 <= i < |depths| :: depths[i] > d
  }

  lemma {:induction false} DepthsAbove(d: nat, ts: seq<Tree>)
    ensures AllAbove(d - 1, Depths(d, ts))
    decreases |Preorder(ts)|
  {
    if ts != [] {
      DepthsAbove(d + 1, Kids(ts[0]));
      DepthsAbove(d, ts[1..]);
    }
  }

  /** A list splits in one way into a part that stays above d and a part that starts at d. */
  lemma SplitAtDepth(d: nat, a: seq<nat>, b: seq<nat>, a': seq<nat>, b': seq<nat>)
    requires a + b == a' + b'
    requires AllAbove(d, a) && AllAbove(d, a')
    requires (b == [] || b[0] == d) && (b' == [] || b'[0] == d)
    ensures a == a' && b == b'
  {
    assert b != [] ==> (a + b)[|a|] == d;
    assert b' != [] ==> (a' + b')[|a'|] == d;
    assert forall i | 0 <= i < |a| :: (a + b)[i] == a[i];
    assert forall i | 0 <= i < |a'| :: (a' + b')[i] == a'[i];
    assert |a| == |a'|;
    assert (a + b)[..|a|] == a && (a' + b')[..|a'|] == a';
    assert (a + b)[|a|..] == b && (a' + b')[|a'|..] == b';
  }

  lemma DepthsParts(d: nat, ts: seq<Tree>)
    requires ts != []
    ensures Depths(d, ts)[1..] == Depths(d + 1, Kids(ts[0])) + Depths(d, ts[1..])
    ensures AllAbove(d, Depths(d + 1, Kids(ts[0])))
    ensures Depths(d, ts[1..]) == [] || Depths(d, ts[1..])[0] == d
  {
    DepthsAbove(d + 1, Kids(ts[0]));
    hide Kids, AllAbove;
    assert Depths(d, ts) == [d] + Depths(d + 1, Kids(ts[0])) + Depths(d, ts[1..]);
  }

  lemma {:induction false} DepthsFixShape(d: nat, a: seq<Tree>, b: seq<Tree>)
    requires Depths(d, a) == Depths(d, b)
    ensures Alike(a, b)
    decreases |Preorder(a)|
  {
    assert a == [] <==> b == [];
    hide Depths;
    if a != [] {
      DepthsParts(d, a);
      DepthsParts(d, b);
      SplitAtDepth(d, Depths(d + 1, Kids(a[0])), Depths(d, a[1..]), Depths(d + 1, Kids(b[0])), Depths(d, b[1..]));
      DepthsFixShape(d + 1, Kids(a[0]), Kids(b[0]));
      DepthsFixShape(d, a[1..], b[1..]);
    }
  }

  function DepthOf(path: string): nat {
    |Abs(path).comps|
  }

  predicate ShowsDepths(events: seq<Made>, depths: seq<nat>) {
    |events| == |depths| && forall i | 0 <= i < |events| :: DepthOf(events[i].call.path) == depths[i]
  }

  lemma ShowsConcat(a: seq<Made>, x: seq<nat>, b: seq<Made>, y: seq<nat>)
    requires ShowsDepths(a, x) && ShowsDepths(b, y)
    ensures ShowsDepths(a + b, x + y)
  {}

  lemma {:induction false} EventsShowDepths(dir: string, ts: seq<Tree>)
    requires AllPrintable(ts)
    ensures ShowsDepths(Events(dir, ts), Depths(DepthOf(dir) + 1, ts))
    decreases ts
  {
    hide Join, Abs;
    if ts != [] {
      var t, d := ts[0], DepthOf(dir) + 1;
      var there := Join(dir, t.meta.name);
      NameIsPlain(t);
      JoinName(dir, t.meta.name);
      assert ShowsDepths([MadeFor(dir, t)], [d]);
      if t.DirT? {
        EventsShowDepths(there, t.kids);
      }
      EventsShowDepths(dir, ts[1..]);
      var inside := if t.DirT? then Events(there, t.kids) else [];
      ShowsConcat([MadeFor(dir, t)], [d], inside, Depths(d + 1, Kids(t)));
      ShowsConcat([MadeFor(dir, t)] + inside, [d] + Depths(d + 1, Kids(t)), Events(dir, ts[1..]), Depths(d, ts[1..]));
    }
  }

  lemma NameIsPlain(t: Tree)
    requires Printable(t)
    ensures PlainName(t.meta.name)
  {}

  lemma SameEventsAlike(dir: string, a: seq<Tree>, b: seq<Tree>)
    requires AllPrintable(a) && AllPrintable(b) && Events(dir, a) == Events(dir, b)
    ensures Alike(a, b)
  {
    hide DepthOf, Events;
    EventsShowDepths(dir, a);
    EventsShowDepths(dir, b);
    var d := DepthOf(dir) + 1;
    assert Depths(d, a) == Depths(d, b);
    DepthsFixShape(d, a, b);
  }

  // ---- Events against the walk ----

  /** Where an entry of the source directory `base` belongs below the target. */
  function Rebased(base: string, target: string, path: string): string
    requires Under(Abs(base), Abs(path))
  {
    Follow(target, Abs(path).comps[|Abs(base).comps|..])
  }

  /** The names that lead from the base down to an entry. */
  function NamesBelow(base: string, path: string): seq<string>
    requires Under(Abs(base), Abs(path))
  {
    Abs(path).comps[|Abs(base).comps|..]
  }

  /** The call recreates the walked entry: same kind, name, permission bits and content, its
      times if both were sent, and its path moved from the base to the target. */
  predicate Recreates(base: string, target: string, e: Tree, made: Made) {
    && Under(Abs(base), Abs(e.meta.path)) && AllPlain(NamesBelow(base, e.meta.path))
    && made.call.path == Rebased(base, target, e.meta.path)
    && made.call.name == e.meta.name
    && SameBits(e.meta.mode, made.call.mode)
    && (made.call.mtime, made.call.atime)
       == (if e.meta.mtime > 0 && e.meta.atime > 0 then (e.meta.mtime, e.meta.atime) else (0, 0))
    && (if e.FileT? then made.call.WriteCall? && made.content == e.content && made.call.size == |e.content|
        else made.call.MkdirCall?)
  }

  predicate RecreatesAll(base: string, target: string, es: seq<Tree>, events: seq<Made>) {
    |es| == |events| && forall i | 0 <= i < |es| :: Recreates(base, target, es[i], events[i])
  }

  lemma RecreatesConcat(base: string, target: string,
                        a: seq<Tree>, x: seq<Made>, b: seq<Tree>, y: seq<Made>)
    requires RecreatesAll(base, target, a, x) && RecreatesAll(base, target, b, y)
    ensures RecreatesAll(base, target, a + b, x + y)
  {
    hide Recreates;
  }

  lemma EntryRecreated(base: string, target: string, names: seq<string>, dir: string, t: Tree)
    requires Placed(t) && AllPlain(names)
    requires Abs(ParentOf(t)) == ExtendAll(Abs(base), names) && Abs(dir) == ExtendAll(Abs(target), names)
    ensures Recreates(base, target, Shell(t), MadeFor(dir, t))
    ensures Abs(t.meta.path) == ExtendAll(Abs(base), names + [t.meta.name])
    ensures Abs(Join(dir, t.meta.name)) == ExtendAll(Abs(target), names + [t.meta.name])
  {
    hide Clean, Join, Dir, ParentOf, Abs, Str, Placed, Before, Normal;
    PlacedFacts(t);
    assert PlainName(t.meta.name) by {
      PlacedName(t);
    }
    JoinName(dir, t.meta.name);
    Reassoc(Abs(base).comps, names, t.meta.name);
    Reassoc(Abs(target).comps, names, t.meta.name);
    assert Abs(t.meta.path).comps[|Abs(base).comps|..] == names + [t.meta.name];
  }

  lemma PlacedName(t: Tree)
    requires Placed(t)
    ensures PlainName(t.meta.name)
  {}

  lemma Reassoc(a: seq<string>, b: seq<string>, c: string)
    ensures (a + b) + [c] == a + (b + [c])
  {}

  lemma {:induction false} WalkRecreated(base: string, target: string, names: seq<string>,
                                         dir: string, parent: string, ts: seq<Tree>)
    requires WellPathed(ts) && SameParent(ts, parent) && AllPlain(names)
    requires Abs(parent) == ExtendAll(Abs(base), names) && Abs(dir) == ExtendAll(Abs(target), names)
    ensures RecreatesAll(base, target, Preorder(ts), Events(dir, ts))
    decreases ts
  {
    hide Placed, Join, Abs, ParentOf, MadeFor, Recreates, ExtendAll;
    if ts != [] {
      var t := ts[0];
      assert ParentOf(t) == parent;
      EntryRecreated(base, target, names, dir, t);
      var there := Join(dir, t.meta.name);
      PlacedName(t);
      if t.DirT? {
        WalkRecreated(base, target, names + [t.meta.name], there, t.meta.path, t.kids);
      }
      SameParentRest(ts, parent);
      WalkRecreated(base, target, names, dir, parent, ts[1..]);
      var inside := if t.DirT? then Preorder(t.kids) else [];
      var made := if t.DirT? then Events(there, t.kids) else [];
      RecreatesConcat(base, target, [Shell(t)], [MadeFor(dir, t)], inside, made);
      RecreatesConcat(base, target, [Shell(t)] + inside, [MadeFor(dir, t)] + made,
                      Preorder(ts[1..]), Events(dir, ts[1..]));
    }
  }

  lemma SameParentRest(ts: seq<Tree>, parent: string)
    requires ts != [] && SameParent(ts, parent)
    ensures SameParent(ts[1..], parent)
  {}

  /** Walked from one directory, a forest's events are its walk moved to the target. */
  lemma EventsAreTheWalk(base: string, target: string, ts: seq<Tree>)
    requires WellPathed(ts) && SameParent(ts, base)
    ensures RecreatesAll(base, target, Preorder(ts), Events(target, ts))
  {
    assert Abs(base).comps + [] == Abs(base).comps;
    assert Abs(target).comps + [] == Abs(target).comps;
    WalkRecreated(base, target, [], target, base, ts);
  }

  // ---- The whole way ----

  /** Walking, appending, printing and receiving always ends well on printable entries, and makes
      exactly the forest's events if and only if the forest is separate. */
  lemma CopyIsFaithful(h: Handler, target: string, ts: seq<Tree>)
    requires Accepting(h) && WellPathed(ts) && AllPrintable(ts)
    ensures var sent := Print(AppendAll([], Preorder(ts)));
            var o := Run(h, Eof, Start(target, sent.bytes));
            && sent.ok && o.Done? && o.state.rest == ""
            && (AllMade(o) == Events(target, ts) <==> Separate(ts))
  {
    hide Run, Print, Events, Alike;
    var built := AppendAll([], Preorder(ts));
    WalkPrintable(ts);
    AppendAllPrintable([], Preorder(ts));
    PrintedRun(h, target, built);
    RebuildOrDeform(ts);
    if !Separate(ts) && Events(target, built) == Events(target, ts) {
      SameEventsAlike(target, built, ts);
    }
  }

  /** For separate forests the exact domain: everything arrives, and nothing else, if and only if
      every entry is printable. */
  lemma CopyExactDomain(h: Handler, target: string, ts: seq<Tree>)
    requires Accepting(h) && WellPathed(ts) && Separate(ts)
    ensures var sent := Print(AppendAll([], Preorder(ts)));
            var o := Run(h, Eof, Start(target, sent.bytes));
            sent.ok && o.Done? && AllMade(o) == Events(target, ts) <==> AllPrintable(ts)
  {
    hide Run, Print, Events, Alike, AllPrintable;
    RebuildOrDeform(ts);
    ExactDomain(h, target, ts);
  }

  /** For one walked directory the condition is one on names, and the calls are then the walk
      itself, entry by entry, moved to the target. */
  lemma CopyOfDirectory(h: Handler, base: string, target: string, ts: seq<Tree>)
    requires Accepting(h) && WellPathed(ts) && AllPrintable(ts) && SameParent(ts, base)
    ensures var o := Run(h, Eof, Start(target, Print(AppendAll([], Preorder(ts))).bytes));
            && o.Done?
            && (AllMade(o) == Events(target, ts) <==> NamesSeparate(ts))
            && (NamesSeparate(ts) ==> RecreatesAll(base, target, Preorder(ts), AllMade(o)))
  {
    hide Run, Print, Events, Recreates, AppendAll;
    CopyIsFaithful(h, target, ts);
    SeparateByNames(ts, base);
    EventsAreTheWalk(base, target, ts);
  }

  /** A directory `a` before a non-empty sibling `ab`: the file of the second is created in the
      first. */
  lemma PrefixNamesMisplace()
    ensures var f := FileT(Meta("f", "ab/f", 0x1a4, 0, 0), 0, "", false);
            var ts := [DirT(Meta("a", "a", 0x1ed, 0, 0), []), DirT(Meta("ab", "ab", 0x1ed, 0, 0), [f])];
            AppendAll([], Preorder(ts))
            == [DirT(Meta("a", "a", 0x1ed, 0, 0), [f]), DirT(Meta("ab", "ab", 0x1ed, 0, 0), [])]
  {
    hide Clean, Abs, Join, Dir, Str, Split, Unsplit;
    var f := FileT(Meta("f", "ab/f", 0x1a4, 0, 0), 0, "", false);
    var a, ab := DirT(Meta("a", "a", 0x1ed, 0, 0), []), DirT(Meta("ab", "ab", 0x1ed, 0, 0), []);
    assert ParentOf(a) == "." && ParentOf(ab) == "." by {
      NameBesideDot("a");
      NameBesideDot("ab");
    }
    assert ParentOf(f) == "ab" && Clean("a") == "a" by {
      NameBesideDot("a");
      NameBesideDot("ab");
      JoinOfNames("ab", "f");
      DirOfJoin("ab", "f");
      assert "ab" + "/" + "f" == "ab/f";
    }
    assert Captures(a, ParentOf(f)) by {
      assert "a" <= "ab";
    }
    assert AppendAt([], f, "ab") == [f];
    assert |a.meta.path| != |ParentOf(f)|;
    assert Append([a, ab], f) == [DirT(a.meta, [f]), ab] by {
      assert [a, ab][1..] == [ab];
    }
    assert Append([a], ab) == [a, ab] by {
      assert "a"[0] != "."[0];
      assert !("a" <= ".");
      assert [a][1..] == [];
      assert AppendAt([], ab, ".") == [ab];
    }
    AppendThree(a, ab, f);
    var full := DirT(ab.meta, [f]);
    PreorderHead(a, [full]);
    assert Preorder([full]) == [ab, f] by {
      PreorderHead(full, []);
      PreorderHead(f, []);
      assert [full] + [] == [full] && [f] + [] == [f];
    }
    assert [a] + [full] == [a, full];
  }

  lemma AppendThree(a: Tree, b: Tree, c: Tree)
    ensures AppendAll([], [a, b, c]) == Append(Append([a], b), c)
  {
    assert [a, b, c][1..] == [b, c] && [b, c][1..] == [c] && [c][1..] == [];
    assert Append([], a) == [a];
    assert AppendAll(Append(Append([a], b), c), []) == Append(Append([a], b), c);
    assert AppendAll(Append([a], b), [c]) == Append(Append([a], b), c);
  }

  /** A plain name is a cleaned path in the working directory. */
  lemma NameBesideDot(c: string)
    requires PlainName(c)
    ensures Clean(c) == c && Clean(Dir(c)) == "." && Abs(c) == Path(false, [c])
  {
    SplitPlain(c);
    assert [] + [c] == [c];
    assert PushAll(false, [], [c]) == [c];
    DirSplit("", c);
    assert "" + c == c;
    SplitPlain("");
    SplitPlain(".");
  }

  lemma JoinOfNames(a: string, c: string)
    requires PlainName(a) && PlainName(c)
    ensures Join(a, c) == a + "/" + c
  {
    NameBesideDot(a);
    JoinName(a, c);
    assert Extend(Abs(a), c).comps == [a, c];
    assert Unsplit([c]) == c;
    assert [a, c][1..] == [c];
    assert Unsplit([a, c]) == a + "/" + Unsplit([c]);
  }
}
