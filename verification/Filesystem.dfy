/** The file system handler's path mapping: every path a client names goes through Prefixed
    before the operating system sees it. */
module Filesystem {
  import opened Text
  import opened Paths

  /** The test `path == root || strings.HasPrefix(path, root + "/")`. */
  predicate Inside(root: string, path: string) {
    path == root || root + "/" <= path
  }

  function Prefixed(root: string, path: string): Option<string> {
    var clean := Clean(path);
    if Inside(root, clean) then Some(clean) else
      var safe := Clean("/" + path);
      var joined := Join(root, safe);
      if !Inside(root, joined) then None else Some(joined)
  }

  /** A cleaned path at or below root that never climbs after root. */
  predicate Confined(root: string, path: string) {
    && IsClean(path)
    && Under(Abs(root), Abs(path))
    && ".." !in Abs(path).comps[|Abs(root).comps|..]
  }

  predicate EndsUp(root: string) {
    var comps := Abs(root).comps;
    comps != [] && comps[|comps| - 1] == ".."
  }

  // ---- What the string tests mean ----

  /** On cleaned paths the string test is the relation on components, except that `/` and `.`
      contain nothing but themselves. */
  lemma InsideMeansUnder(root: string, path: string)
    requires IsClean(root) && IsClean(path)
    ensures Inside(root, path) <==>
            path == root || (Abs(root).comps != [] && Under(Abs(root), Abs(path)))
  {
    var r, p := Abs(root), Abs(path);
    AbsNormal(root);
    AbsNormal(path);
    if r.comps != [] {
      PrefixMeansBelow(r, p);
    } else {
      NothingBelow(root, path);
    }
  }

  lemma NothingBelow(root: string, path: string)
    requires IsClean(root) && IsClean(path) && Abs(root).comps == []
    ensures !(root + "/" <= path)
  {
    var p := Abs(path);
    AbsNormal(path);
    RootedStr(p);
    if p.comps != [] {
      var c := p.comps[0];
      assert PlainName(c) || c == "..";
      assert c <= Unsplit(p.comps);
      assert |Unsplit(p.comps)| > |c| ==> Unsplit(p.comps)[|c|] == '/';
      assert c == [c[0]] + c[1..];
      assert p.rooted ==> path[1] == c[0];
      assert |c| > 1 && !p.rooted ==> path[1] == c[1];
    }
  }

  /** Normal rooted paths hold plain names only. */
  lemma RootedPlain(p: Path)
    requires Normal(p) && p.rooted
    ensures forall i | 0 <= i < |p.comps| :: PlainName(p.comps[i])
  {}

  lemma NormalExtendAll(p: Path, names: seq<string>)
    requires Normal(p) && forall i | 0 <= i < |names| :: PlainName(names[i])
    ensures Normal(ExtendAll(p, names))
  {}

  /** Joining a rooted path below root. */
  lemma JoinRooted(root: string, p: Path)
    requires root != "" && Normal(p) && p.rooted
    ensures Join(root, Str(p)) == Str(ExtendAll(Abs(root), p.comps))
    ensures Normal(ExtendAll(Abs(root), p.comps))
    ensures Abs(Join(root, Str(p))) == ExtendAll(Abs(root), p.comps)
  {
    var r := Abs(root);
    AbsNormal(root);
    RootedPlain(p);
    NormalExtendAll(r, p.comps);
    AbsStr(ExtendAll(r, p.comps));
    AbsConcat(root, Str(p));
    if p.comps == [] {
      assert Split("/") == ["", ""];
      assert PushAll(r.rooted, r.comps, ["", ""]) == PushAll(r.rooted, r.comps, [""]) == r.comps;
      assert r.comps + [] == r.comps;
    } else {
      SplitStr(p);
      PushAllConcat(r.rooted, r.comps, [""], p.comps);
      assert PushAll(r.rooted, r.comps, [""]) == r.comps;
      PushAllKeeps(r.rooted, r.comps, p.comps);
    }
  }

  /** Prefixed said without strings. */
  lemma PrefixedIs(root: string, path: string)
    requires IsClean(root)
    ensures var r, s := Abs(root), Abs("/" + path);
            Normal(ExtendAll(r, s.comps)) &&
            Prefixed(root, path) ==
            if Inside(root, Clean(path)) then Some(Clean(path))
            else if r.comps == [] && s.comps != [] then None
            else Some(Str(ExtendAll(r, s.comps)))
  {
    var r, s := Abs(root), Abs("/" + path);
    AbsNormal(root);
    RootedStr(r);
    AbsNormal("/" + path);
    JoinRooted(root, s);
    CleanIdempotent(path);
    var joined := Str(ExtendAll(r, s.comps));
    InsideMeansUnder(root, joined);
    assert r.comps + s.comps == r.comps ==> s.comps == [];
  }

  // ---- Totality ----

  lemma {:induction false} ClimbStays(stack: seq<string>, cs: seq<string>)
    requires stack != [] && stack[0] == ".."
    ensures PushAll(false, stack, cs) != []
    decreases |cs|
  {
    if cs != [] {
      ClimbStays(Push(false, stack, cs[0]), cs[1..]);
    }
  }

  /** A relative path that comes back to its start never climbs above it. */
  lemma {:induction false} BackToStart(stack: seq<string>, cs: seq<string>)
    requires ".." !in stack && PushAll(false, stack, cs) == []
    ensures PushAll(true, stack, cs) == []
    decreases |cs|
  {
    if cs != [] {
      assert cs[0] == ".." && stack == [] ==> Push(false, stack, cs[0]) == [".."];
      if cs[0] == ".." && stack == [] {
        ClimbStays([".."], cs[1..]);
        assert false;
      }
      BackToStart(Push(false, stack, cs[0]), cs[1..]);
    }
  }

  /** Prefixed never fails for a cleaned root other than `/` and `.`; for those two it succeeds
      exactly on the paths that denote the root itself. */
  lemma PrefixedSucceeds(root: string, path: string)
    requires IsClean(root)
    ensures Prefixed(root, path).Some? <==> (root != "/" && root != ".") || Clean("/" + path) == "/"
  {
    var r, s := Abs(root), Abs("/" + path);
    PrefixedIs(root, path);
    assert r.comps == [] <==> root == "/" || root == "." by {
      AbsStr(Path(true, []));
      AbsStr(Path(false, []));
    }
    AbsSlash(path);
    AbsNormal("/" + path);
    AbsStr(s);
    AbsStr(Path(true, []));
    assert s.comps == [] <==> Clean("/" + path) == "/";
    if r.comps == [] && Inside(root, Clean(path)) {
      CleanIdempotent(path);
      InsideMeansUnder(root, Clean(path));
      assert Abs(path).comps == [];
      if !Rooted(path) {
        BackToStart([], Split(path));
      }
      assert s.comps == [];
    }
  }

  // ---- Confinement ----

  /** Whatever string a client sends, an accepted path is the root or lies below it. */
  lemma PrefixedConfines(root: string, path: string)
    requires IsClean(root) && !EndsUp(root) && Prefixed(root, path).Some?
    ensures Confined(root, Prefixed(root, path).value)
  {
    var r, s := Abs(root), Abs("/" + path);
    PrefixedIs(root, path);
    AbsNormal(root);
    AbsNormal(path);
    if Inside(root, Clean(path)) {
      CleanIdempotent(path);
      InsideMeansUnder(root, Clean(path));
      var comps, n := Abs(path).comps, |r.comps|;
      if n > 0 {
        assert r.comps[n - 1] == comps[n - 1];
        assert forall i | n <= i < |comps| :: comps[i] != "..";
      }
    } else {
      AbsNormal("/" + path);
      RootedPlain(s);
      AbsStr(ExtendAll(r, s.comps));
      assert (r.comps + s.comps)[|r.comps|..] == s.comps;
    }
  }

  ghost predicate AlwaysConfines(root: string) {
    forall path: string | Prefixed(root, path).Some? :: Confined(root, Prefixed(root, path).value)
  }

  /** The root's last component decides: under `..` the path `../..` passes the string test. */
  lemma ConfinementCondition(root: string)
    requires IsClean(root)
    ensures AlwaysConfines(root) <==> !EndsUp(root)
  {
    if EndsUp(root) {
      var r := Abs(root);
      AbsNormal(root);
      var up := Extend(r, "..");
      assert !PlainName(r.comps[|r.comps| - 1]);
      assert Normal(up);
      AbsStr(up);
      InsideMeansUnder(root, Str(up));
      assert Prefixed(root, Str(up)) == Some(Str(up));
      assert up.comps[|r.comps|..] == [".."];
    } else {
      forall path: string | Prefixed(root, path).Some?
        ensures Confined(root, Prefixed(root, path).value)
      {
        PrefixedConfines(root, path);
      }
    }
  }

  // ---- Applying the mapping twice, and to longer paths ----

  /** WalkDir hands out prefixed paths and the entry constructors prefix them again. */
  lemma PrefixedTwice(root: string, path: string)
    requires IsClean(root) && Prefixed(root, path).Some?
    ensures Prefixed(root, Prefixed(root, path).value) == Prefixed(root, path)
  {
    PrefixedIs(root, path);
    CleanIdempotent(path);
    AbsStr(ExtendAll(Abs(root), Abs("/" + path).comps));
  }

  /** Where the names of a longer path end up when the path maps to `base`. */
  function Follow(base: string, names: seq<string>): string {
    Str(ExtendAll(Abs(base), names))
  }

  predicate AllPlain(names: seq<string>) {
    forall i | 0 <= i < |names| :: PlainName(names[i])
  }

  /** Names appended to a path are appended to where it maps, exactly when they do not carry a
      path from outside the root to the inside of it. */
  lemma PrefixedFollowsNames(root: string, path: string, names: seq<string>)
    requires IsClean(root) && root != "/" && root != "." && AllPlain(names)
    ensures Prefixed(root, path).Some?
    ensures Prefixed(root, Follow(path, names)) == Some(Follow(Prefixed(root, path).value, names))
            <==> Inside(root, Clean(path)) || !Inside(root, Follow(path, names))
  {
    hide Clean, PushAll, Split, Unsplit, Join, Prefixed;
    var longer := Follow(path, names);
    PrefixedSucceeds(root, path);
    PrefixedIs(root, path);
    PrefixedIs(root, longer);
    CleanIdempotent(path);
    FollowFacts(root, path, names);
    if Inside(root, Clean(path)) {
      assert Inside(root, longer);
    } else if !Inside(root, longer) {
      var r, s := Abs(root), Abs("/" + path);
      AbsStr(ExtendAll(r, s.comps));
      SlashFollowsNames(path, names);
      assert (r.comps + s.comps) + names == r.comps + (s.comps + names);
    } else {
      CarriedInside(root, path, names);
    }
  }

  lemma FollowFacts(root: string, path: string, names: seq<string>)
    requires IsClean(root) && root != "/" && root != "." && AllPlain(names)
    ensures Abs(root).comps != [] && IsClean(Follow(path, names))
    ensures Abs(Follow(path, names)) == ExtendAll(Abs(path), names)
    ensures Inside(root, Clean(path)) <==> Under(Abs(root), Abs(path))
    ensures Inside(root, Clean(path)) ==> Inside(root, Follow(path, names))
    ensures Clean(Follow(path, names)) == Follow(path, names)
  {
    AbsNormal(path);
    NormalExtendAll(Abs(path), names);
    AbsStr(ExtendAll(Abs(path), names));
    CleanIdempotent(path);
    InsideMeansUnder(root, Clean(path));
    InsideMeansUnder(root, Follow(path, names));
  }

  lemma CarriedInside(root: string, path: string, names: seq<string>)
    requires IsClean(root) && root != "/" && root != "." && AllPlain(names)
    requires !Inside(root, Clean(path)) && Inside(root, Follow(path, names))
    ensures Prefixed(root, path).Some?
    ensures Prefixed(root, Follow(path, names)) != Some(Follow(Prefixed(root, path).value, names))
  {
    var r, s := Abs(root), Abs("/" + path);
    var there := ExtendAll(r, s.comps);
    PrefixedIs(root, path);
    PrefixedIs(root, Follow(path, names));
    FollowFacts(root, path, names);
    AbsNormal("/" + path);
    AbsStr(there);
    NormalExtendAll(there, names);
    AbsStr(ExtendAll(there, names));
    DropSame(Abs(path).comps, there.comps, names);
    assert !Under(r, Abs(path));
    assert r.comps <= there.comps;
  }

  lemma DropSame(a: seq<string>, b: seq<string>, c: seq<string>)
    ensures a + c == b + c ==> a == b
  {
    if a + c == b + c {
      assert |a| == |b|;
      assert (a + c)[..|a|] == a && (b + c)[..|b|] == b;
    }
  }

  /** Rooting a path commutes with appending names to it. */
  lemma SlashFollowsNames(path: string, names: seq<string>)
    requires AllPlain(names)
    ensures Abs("/" + Str(ExtendAll(Abs(path), names))).comps == Abs("/" + path).comps + names
  {
    var p := Abs(path);
    var q := ExtendAll(p, names);
    AbsNormal(path);
    NormalExtendAll(p, names);
    AbsSlash(path);
    AbsSlash(Str(q));
    AbsNormal("/" + path);
    RootOfNormal(q);
    RootOfNormal(p);
    RootOfClean(path);
    NormalExtendAll(Abs("/" + path), names);
    PushAllConcat(true, [], p.comps, names);
    PushAllKeeps(true, Abs("/" + path).comps, names);
  }

  lemma RootOfNormal(p: Path)
    requires Normal(p)
    ensures PushAll(true, [], Split(Str(p))) == PushAll(true, [], p.comps)
  {
    if p.comps == [] {
      SplitPlain(".");
      assert Split("/") == ["", ""];
      assert PushAll(true, [], ["."]) == [];
      assert PushAll(true, [], ["", ""]) == PushAll(true, [], [""]) == [];
    } else {
      SplitStr(p);
      PushAllConcat(true, [], [""], p.comps);
      assert PushAll(true, [], [""]) == [];
      assert [] + p.comps == p.comps;
    }
  }

  /** Cleaning a path before rooting it changes nothing. */
  lemma RootOfClean(path: string)
    ensures PushAll(true, [], Abs(path).comps) == PushAll(true, [], Split(path))
  {
    assert PushAll(true, [], []) == [];
    if Rooted(path) {
      AbsNormal(path);
      PushAllKeeps(true, [], Abs(path).comps);
      assert [] + Abs(path).comps == Abs(path).comps;
    } else {
      RootingCommutes([], Split(path));
    }
  }

  lemma {:induction false} RootingCommutes(stack: seq<string>, cs: seq<string>)
    requires Normal(Path(false, stack)) && forall i | 0 <= i < |cs| :: '/' !in cs[i]
    ensures PushAll(true, [], PushAll(false, stack, cs)) == PushAll(true, PushAll(true, [], stack), cs)
    decreases |cs|
  {
    if cs != [] {
      var next := Push(false, stack, cs[0]);
      PushNormal(false, stack, cs[0]);
      RootingCommutes(next, cs[1..]);
      RootingOne(stack, cs[0]);
    }
  }

  lemma RootingOne(stack: seq<string>, c: string)
    requires Normal(Path(false, stack)) && '/' !in c
    ensures PushAll(true, [], Push(false, stack, c)) == Push(true, PushAll(true, [], stack), c)
  {
    var rootedStack := PushAll(true, [], stack);
    PushAllConcat(true, [], stack, [c]);
    assert PushAll(true, rootedStack, [c]) == Push(true, rootedStack, c);
    if c == ".." && stack != [] && stack[|stack| - 1] != ".." {
      var front, name := stack[..|stack| - 1], stack[|stack| - 1];
      assert stack == front + [name];
      PushAllConcat(true, [], front, [name]);
      assert PlainName(name);
      assert PushAll(true, PushAll(true, [], front), [name]) == PushAll(true, [], front) + [name];
    }
  }

  // ---- Glob ----

  /** filepath.Rel for a target at or below its base, the only case Glob meets. */
  function RelBelow(base: string, target: string): string
    requires Under(Abs(base), Abs(target))
  {
    Str(Path(false, Abs(target).comps[|Abs(base).comps|..]))
  }

  lemma KeptIsUnder(root: string, found: string)
    requires IsClean(root) && IsClean(found) && Inside(root, found)
    ensures Under(Abs(root), Abs(found))
  {
    InsideMeansUnder(root, found);
  }

  predicate AllClean(paths: seq<string>) {
    forall i | 0 <= i < |paths| :: IsClean(paths[i])
  }

  /** The matches below the root, in order, made relative to it. */
  function Relativized(root: string, matches: seq<string>): seq<string>
    requires IsClean(root) && AllClean(matches)
  {
    if matches == [] then []
    else
      var last := matches[|matches| - 1];
      var front := Relativized(root, matches[..|matches| - 1]);
      if Inside(root, last) then KeptIsUnder(root, last); front + [RelBelow(root, last)] else front
  }

  /** How many of the first n matches are at the root or below it. */
  function CountInside(root: string, matches: seq<string>, n: nat): nat
    requires n <= |matches|
  {
    |set i | 0 <= i < n && Inside(root, matches[i])|
  }

  /** The matches inside the root and no others, each in its place and relative to the root. */
  predicate KeepsInside(root: string, matches: seq<string>, kept: seq<string>) {
    && |kept| == CountInside(root, matches, |matches|)
    && forall i | 0 <= i < |matches| && Inside(root, matches[i]) ::
         CountInside(root, matches, i) < |kept| && LeadsTo(root, kept[CountInside(root, matches, i)], matches[i])
  }

  /** A cleaned relative path whose components, behind those of the root, are those of the match. */
  predicate LeadsTo(root: string, relative: string, found: string) {
    IsClean(relative) && !Rooted(relative) && Follow(root, Abs(relative).comps) == found
  }

  lemma RelLeads(root: string, found: string)
    requires IsClean(root) && IsClean(found) && Inside(root, found)
    ensures Under(Abs(root), Abs(found)) && LeadsTo(root, RelBelow(root, found), found)
  {
    KeptIsUnder(root, found);
    AbsNormal(found);
    TailNormal(Abs(root), Abs(found));
    var tail := Path(false, Abs(found).comps[|Abs(root).comps|..]);
    AbsStr(tail);
    RootedStr(tail);
    assert Abs(root).comps + tail.comps == Abs(found).comps;
  }

  lemma CountFront(root: string, front: seq<string>, last: string, n: nat)
    requires n <= |front|
    ensures CountInside(root, front + [last], n) == CountInside(root, front, n)
    ensures CountInside(root, front, 0) == 0
  {
    var all := front + [last];
    assert (set i | 0 <= i < n && Inside(root, all[i])) == (set i | 0 <= i < n && Inside(root, front[i]));
  }

  lemma CountNext(root: string, matches: seq<string>, n: nat)
    requires n < |matches|
    ensures CountInside(root, matches, n + 1)
            == CountInside(root, matches, n) + if Inside(root, matches[n]) then 1 else 0
  {
    hide Inside;
    var before := set i | 0 <= i < n && Inside(root, matches[i]);
    var after := set i | 0 <= i < n + 1 && Inside(root, matches[i]);
    assert after == before + if Inside(root, matches[n]) then {n} else {};
  }

  lemma {:induction false} RelativizedKeeps(root: string, matches: seq<string>)
    requires IsClean(root) && AllClean(matches)
    ensures KeepsInside(root, matches, Relativized(root, matches))
    decreases |matches|
  {
    hide CountInside, Inside, LeadsTo, RelBelow, IsClean, Under, Abs;
    if matches == [] {
      CountNone(root);
    } else {
      var n := |matches| - 1;
      var front, last := matches[..n], matches[n];
      assert matches == front + [last];
      RelativizedKeeps(root, front);
      if Inside(root, last) {
        RelLeads(root, last);
      }
      KeepsSnoc(root, front, last, Relativized(root, front), Relativized(root, matches));
    }
  }

  lemma CountNone(root: string)
    ensures CountInside(root, [], 0) == 0
  {}

  lemma KeepsSnoc(root: string, front: seq<string>, last: string, kept: seq<string>, more: seq<string>)
    requires KeepsInside(root, front, kept)
    requires if Inside(root, last) then |more| == |kept| + 1 && more[..|kept|] == kept && LeadsTo(root, more[|kept|], last)
             else more == kept
    ensures KeepsInside(root, front + [last], more)
  {
    hide CountInside, Inside, LeadsTo;
    var n, all := |front|, front + [last];
    CountFront(root, front, last, n);
    CountNext(root, all, n);
    forall i | 0 <= i < |all| && Inside(root, all[i])
      ensures CountInside(root, all, i) < |more| && LeadsTo(root, more[CountInside(root, all, i)], all[i])
    {
      CountFront(root, front, last, i);
      if i < n {
        assert all[i] == front[i];
        assert more[CountInside(root, front, i)] == kept[CountInside(root, front, i)];
      }
    }
  }

  /** `matches` is what the operating system's glob returned for the prefixed pattern, or None
      for a malformed pattern; globbing a cleaned pattern yields cleaned paths. */
  method Glob(root: string, pattern: string, matches: Option<seq<string>>) returns (r: Option<seq<string>>)
    requires IsClean(root) && (matches.Some? ==> AllClean(matches.value))
    ensures r.Some? <==> Prefixed(root, pattern).Some? && matches.Some?
    ensures r.Some? ==> r.value == Relativized(root, matches.value) && KeepsInside(root, matches.value, r.value)
  {
    if Prefixed(root, pattern).None? || matches.None? {
      return None;
    }
    var safe := [];
    for i := 0 to |matches.value|
      invariant safe == Relativized(root, matches.value[..i])
    {
      var m := matches.value[i];
      assert matches.value[..i + 1][..i] == matches.value[..i];
      if Inside(root, m) {
        KeptIsUnder(root, m);
        safe := safe + [RelBelow(root, m)];
      }
    }
    assert matches.value[..|matches.value|] == matches.value;
    RelativizedKeeps(root, matches.value);
    return Some(safe);
  }

  /** Opening what Glob returned reaches the file that was globbed, exactly when the relative
      path neither climbs nor, for a relative root, starts with the root again. */
  lemma GlobRoundTrip(root: string, found: string)
    requires IsClean(root) && IsClean(found) && Inside(root, found)
    ensures Under(Abs(root), Abs(found))
    ensures var r, tail := Abs(root), Abs(found).comps[|Abs(root).comps|..];
            Prefixed(root, RelBelow(root, found)) == Some(found)
            <==> ".." !in tail && (tail == [] || r.rooted || !(r.comps <= tail))
  {
    KeptIsUnder(root, found);
    var r, m, rel := Abs(root), Abs(found), RelBelow(root, found);
    var tail := m.comps[|r.comps|..];
    AbsNormal(root);
    AbsNormal(found);
    TailNormal(r, m);
    var t := Path(false, tail);
    AbsStr(t);
    AbsStr(m);
    PrefixedIs(root, rel);
    InsideMeansUnder(root, rel);
    InsideMeansUnder(root, found);
    if !Inside(root, rel) {
      RelativeLanding(root, found);
    } else if tail == [] {
      assert rel == ".";
      assert root == ".";
    } else {
      assert r.comps != [];
      assert t != m;
    }
  }

  /** Below a relative root the match `r/r/x` comes back as the path `r/x`, which opens another
      file than the one that was globbed. */
  lemma RelativeRootMisses(root: string, x: string)
    requires PlainName(root) && PlainName(x)
    ensures var found := Str(Path(false, [root, root, x]));
            && IsClean(root) && IsClean(found) && Inside(root, found) && Under(Abs(root), Abs(found))
            && Prefixed(root, RelBelow(root, found)) != Some(found)
  {
    var r, m := Path(false, [root]), Path(false, [root, root, x]);
    AbsStr(r);
    AbsStr(m);
    assert Str(r) == root;
    InsideMeansUnder(root, Str(m));
    GlobRoundTrip(root, Str(m));
    assert m.comps[1..] == [root, x];
  }

  /** A relative path outside a relative root is put below the root with its climbs removed. */
  lemma RelativeLanding(root: string, found: string)
    requires IsClean(root) && IsClean(found) && Inside(root, found)
    requires Under(Abs(root), Abs(found))
    ensures var r, tail := Abs(root), Abs(found).comps[|Abs(root).comps|..];
            Str(ExtendAll(r, Abs("/" + RelBelow(root, found)).comps)) == found <==> ".." !in tail
    ensures Abs(root).comps == [] ==> Abs("/" + RelBelow(root, found)).comps == []
  {
    hide Split, Unsplit, Join, PushAll, Inside, Prefixed;
    var r, m, rel := Abs(root), Abs(found), RelBelow(root, found);
    var tail := m.comps[|r.comps|..];
    AbsNormal(root);
    AbsNormal(found);
    TailNormal(r, m);
    AbsSlash(rel);
    RootOfNormal(Path(false, tail));
    var s := Abs("/" + rel);
    AbsNormal("/" + rel);
    RootedPlain(s);
    assert r.comps + tail == m.comps;
    NormalExtendAll(r, s.comps);
    AbsStr(ExtendAll(r, s.comps));
    InsideMeansUnder(root, found);
    assert (r.comps + s.comps)[|r.comps|..] == s.comps;
    if ".." !in tail {
      PushAllKeeps(true, [], tail);
      assert [] + tail == tail;
    }
  }

  lemma TailNormal(r: Path, m: Path)
    requires Normal(m) && Under(r, m)
    ensures Normal(Path(false, m.comps[|r.comps|..]))
  {
    var tail := m.comps[|r.comps|..];
    forall i | 0 <= i < |tail|
      ensures PlainName(tail[i]) || (tail[i] == ".." && forall j | 0 <= j < i :: tail[j] == "..")
    {
      assert tail[i] == m.comps[|r.comps| + i];
    }
  }
}
