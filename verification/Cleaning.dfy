/** What filepath.Clean promises: its rules, applied in any order until none applies, all lead to
    the one path that the stack of module Paths computes. */
module Cleaning {
  import opened Paths
  import opened Filesystem

  // ---- The rules ----

  /** One rule applied to one place of a list of components: nothing between two separators and
      `.` go; `..` goes with the name before it; and it goes at the start of a rooted path. */
  predicate ShortensAt(rooted: bool, a: seq<string>, b: seq<string>, i: nat)
    requires i < |a|
  {
    || ((a[i] == "" || a[i] == ".") && b == a[..i] + a[i + 1..])
    || (i + 1 < |a| && a[i] !in ["", ".", ".."] && a[i + 1] == ".." && b == a[..i] + a[i + 2..])
    || (rooted && i == 0 && a[0] == ".." && b == a[1..])
  }

  predicate Shortens(rooted: bool, a: seq<string>, b: seq<string>) {
    exists i: nat | i < |a| :: ShortensAt(rooted, a, b, i)
  }

  /** n applications of rules lead from a to b. */
  ghost predicate ReducesIn(rooted: bool, a: seq<string>, b: seq<string>, n: nat) {
    if n == 0 then a == b
    else exists c: seq<string> :: Shortens(rooted, a, c) && ReducesIn(rooted, c, b, n - 1)
  }

  ghost predicate Reduces(rooted: bool, a: seq<string>, b: seq<string>) {
    exists n: nat :: ReducesIn(rooted, a, b, n)
  }

  ghost predicate Irreducible(rooted: bool, a: seq<string>) {
    forall b: seq<string> :: !Shortens(rooted, a, b)
  }

  predicate NoSlashes(cs: seq<string>) {
    forall i | 0 <= i < |cs| :: '/' !in cs[i]
  }

  // ---- No rule changes what a path denotes ----

  lemma PushAllMiddle(rooted: bool, front: seq<string>, middle: seq<string>, rest: seq<string>)
    requires var stack := PushAll(rooted, [], front); PushAll(rooted, stack, middle) == stack
    ensures PushAll(rooted, [], front + middle + rest) == PushAll(rooted, [], front + rest)
  {
    PushAllConcat(rooted, [], front + middle, rest);
    PushAllConcat(rooted, [], front, middle);
    PushAllConcat(rooted, [], front, rest);
  }

  /** A name and the `..` behind it leave the stack as it was. */
  lemma NameAndUp(rooted: bool, stack: seq<string>, c: string)
    requires c !in ["", ".", ".."]
    ensures PushAll(rooted, stack, [c, ".."]) == stack
  {
    assert [c, ".."][1..] == [".."];
    assert PushAll(rooted, stack + [c], [".."]) == stack;
  }

  lemma RuleKeeps(rooted: bool, a: seq<string>, b: seq<string>, i: nat)
    requires i < |a| && ShortensAt(rooted, a, b, i)
    ensures PushAll(rooted, [], a) == PushAll(rooted, [], b)
    ensures NoSlashes(a) ==> NoSlashes(b)
  {
    var front := a[..i];
    var stack := PushAll(rooted, [], front);
    if (a[i] == "" || a[i] == ".") && b == a[..i] + a[i + 1..] {
      assert PushAll(rooted, stack, [a[i]]) == stack;
      assert a == front + [a[i]] + a[i + 1..];
      PushAllMiddle(rooted, front, [a[i]], a[i + 1..]);
    } else if i + 1 < |a| && a[i] !in ["", ".", ".."] && a[i + 1] == ".." && b == a[..i] + a[i + 2..] {
      NameAndUp(rooted, stack, a[i]);
      assert a == front + [a[i], ".."] + a[i + 2..];
      PushAllMiddle(rooted, front, [a[i], ".."], a[i + 2..]);
    } else {
      assert Push(true, [], "..") == [];
    }
  }

  lemma {:induction false} ReductionKeeps(rooted: bool, a: seq<string>, b: seq<string>, n: nat)
    requires ReducesIn(rooted, a, b, n)
    ensures PushAll(rooted, [], a) == PushAll(rooted, [], b)
    ensures NoSlashes(a) ==> NoSlashes(b)
    decreases n
  {
    hide PushAll, ShortensAt;
    if n > 0 {
      var c :| Shortens(rooted, a, c) && ReducesIn(rooted, c, b, n - 1);
      var i: nat :| i < |a| && ShortensAt(rooted, a, c, i);
      RuleKeeps(rooted, a, c, i);
      ReductionKeeps(rooted, c, b, n - 1);
    }
  }

  // ---- Where no rule applies ----

  lemma RulesApply(rooted: bool, a: seq<string>, k: nat)
    requires k < |a|
    ensures a[k] == "" || a[k] == "." ==> !Irreducible(rooted, a)
    ensures k > 0 && a[k] == ".." && PlainName(a[k - 1]) ==> !Irreducible(rooted, a)
    ensures a[0] == ".." && rooted ==> !Irreducible(rooted, a)
  {
    if a[k] == "" || a[k] == "." {
      assert ShortensAt(rooted, a, a[..k] + a[k + 1..], k);
      assert Shortens(rooted, a, a[..k] + a[k + 1..]);
    }
    if k > 0 && a[k] == ".." && PlainName(a[k - 1]) {
      assert ShortensAt(rooted, a, a[..k - 1] + a[k + 1..], k - 1);
      assert Shortens(rooted, a, a[..k - 1] + a[k + 1..]);
    }
    if a[0] == ".." && rooted {
      assert ShortensAt(rooted, a, a[1..], 0);
      assert Shortens(rooted, a, a[1..]);
    }
  }

  lemma {:induction false} ClimbsFirst(rooted: bool, a: seq<string>, k: nat)
    requires Irreducible(rooted, a) && NoSlashes(a) && k < |a|
    ensures PlainName(a[k]) || (a[k] == ".." && !rooted && forall j | 0 <= j < k :: a[j] == "..")
    decreases k
  {
    hide Irreducible;
    RulesApply(rooted, a, k);
    if k > 0 {
      ClimbsFirst(rooted, a, k - 1);
    }
  }

  lemma NormalIsIrreducible(p: Path)
    requires NoSlashes(p.comps)
    ensures Normal(p) <==> Irreducible(p.rooted, p.comps)
  {
    if Irreducible(p.rooted, p.comps) {
      forall k | 0 <= k < |p.comps|
        ensures PlainName(p.comps[k]) || (p.comps[k] == ".." && !p.rooted && forall j | 0 <= j < k :: p.comps[j] == "..")
      {
        ClimbsFirst(p.rooted, p.comps, k);
      }
    }
  }

  // ---- The rules lead to the cleaned path ----

  lemma {:induction false} StackReduces(rooted: bool, stack: seq<string>, cs: seq<string>) returns (n: nat)
    requires Normal(Path(rooted, stack)) && NoSlashes(cs)
    ensures ReducesIn(rooted, stack + cs, PushAll(rooted, stack, cs), n)
    decreases |cs|
  {
    hide Push, Shortens;
    if cs == [] {
      assert stack + cs == stack;
      return 0;
    }
    var next := Push(rooted, stack, cs[0]);
    PushNormal(rooted, stack, cs[0]);
    n := StackReduces(rooted, next, cs[1..]);
    StepReduces(rooted, stack, cs);
    if next + cs[1..] != stack + cs {
      n := n + 1;
    }
  }

  lemma StepReduces(rooted: bool, stack: seq<string>, cs: seq<string>)
    requires Normal(Path(rooted, stack)) && cs != []
    ensures var next := Push(rooted, stack, cs[0]) + cs[1..];
            next == stack + cs || Shortens(rooted, stack + cs, next)
  {
    var c, n, all := cs[0], |stack|, stack + cs;
    var next := Push(rooted, stack, c) + cs[1..];
    if c == "" || c == "." {
      assert all[..n] == stack && all[n + 1..] == cs[1..];
      assert ShortensAt(rooted, all, next, n);
    } else if c == ".." && stack != [] && stack[n - 1] != ".." {
      assert PlainName(stack[n - 1]);
      assert all[..n - 1] == stack[..n - 1] && all[n + 1..] == cs[1..];
      assert ShortensAt(rooted, all, next, n - 1);
    } else if c == ".." && rooted {
      RootedPlain(Path(rooted, stack));
      assert all == cs && next == cs[1..];
      assert ShortensAt(rooted, all, next, 0);
    } else {
      assert next == stack + cs;
    }
  }

  lemma KeptWhole(p: Path)
    requires Normal(p)
    ensures PushAll(p.rooted, [], p.comps) == p.comps
  {
    PushAllKeeps(p.rooted, [], p.comps);
    assert [] + p.comps == p.comps;
  }

  /** The rules define cleaning: a path is what a string denotes if and only if its components are
      reached from those of the string by rules, and no rule applies to them. In particular the
      order in which rules are applied does not matter. */
  lemma CleaningIsReduction(s: string, p: Path)
    ensures p == Abs(s) <==>
            p.rooted == Rooted(s) && Reduces(p.rooted, Split(s), p.comps) && Irreducible(p.rooted, p.comps)
  {
    var rooted, cs := Rooted(s), Split(s);
    AbsNormal(s);
    if p == Abs(s) {
      var n := StackReduces(rooted, [], cs);
      assert [] + cs == cs;
      ReductionKeeps(rooted, cs, p.comps, n);
      NormalIsIrreducible(p);
    } else if p.rooted == rooted && Reduces(rooted, cs, p.comps) && Irreducible(rooted, p.comps) {
      var n: nat :| ReducesIn(rooted, cs, p.comps, n);
      ReductionKeeps(rooted, cs, p.comps, n);
      NormalIsIrreducible(p);
      KeptWhole(p);
    }
  }

  // ---- The rules on strings ----

  /** A `..` takes back the name before it. */
  lemma UpTakesBack(s: string, c: string, t: string)
    requires s != "" && PlainName(c)
    ensures Abs(s + "/" + c + "/../" + t) == Abs(s + "/" + t)
    ensures Clean(s + "/" + c + "/..") == Clean(s)
  {
    hide PushAll, Split;
    var stack := Abs(s).comps;
    ParseUp(c, t);
    NameAndUp(Rooted(s), stack, c);
    PushAllConcat(Rooted(s), stack, [c, ".."], Split(t));
    AbsConcat(s, c + "/../" + t);
    AbsConcat(s, t);
    assert s + "/" + (c + "/../" + t) == s + "/" + c + "/../" + t;
    AbsConcat(s, c + "/..");
    assert s + "/" + (c + "/..") == s + "/" + c + "/..";
  }

  /** The same below the root. */
  lemma RootUpTakesBack(c: string, t: string)
    requires PlainName(c)
    ensures Abs("/" + c + "/../" + t) == Abs("/" + t) && Clean("/" + c + "/..") == "/"
  {
    hide PushAll, Split;
    ParseUp(c, t);
    AbsSlash(c + "/../" + t);
    AbsSlash(t);
    AbsSlash(c + "/..");
    assert "/" + (c + "/../" + t) == "/" + c + "/../" + t && "/" + (c + "/..") == "/" + c + "/..";
    NameAndUp(true, [], c);
    PushAllConcat(true, [], [c, ".."], Split(t));
  }

  /** The same at the start of a relative path. */
  lemma FirstUpTakesBack(c: string, t: string)
    requires PlainName(c)
    ensures Abs(c + "/../" + t) == Abs("./" + t) && Clean(c + "/..") == "."
  {
    hide PushAll, Split;
    ParseUp(c, t);
    NameAndUp(false, [], c);
    PushAllConcat(false, [], [c, ".."], Split(t));
    StartIsNothing(t);
    assert !Rooted(c + "/../" + t) && !Rooted(c + "/..");
  }

  lemma StartIsNothing(t: string)
    ensures Abs("./" + t) == Path(false, PushAll(false, [], Split(t)))
  {
    AbsConcat(".", t);
    assert "." + "/" + t == "./" + t;
    SplitPlain(".");
    assert PushAll(false, [], ["."]) == [];
  }

  lemma ParseUp(c: string, t: string)
    requires PlainName(c)
    ensures Split(c + "/../" + t) == [c, ".."] + Split(t)
    ensures Split(c + "/..") == [c, ".."]
  {
    SplitPlain(c);
    SplitPlain("..");
    SplitConcat(c, "..");
    assert c + "/" + ".." == c + "/..";
    SplitConcat(c + "/..", t);
    assert c + "/.." + "/" + t == c + "/../" + t;
  }

  /** There is nothing above the root. */
  lemma RootHasNoParent(t: string)
    ensures Abs("/../" + t) == Abs("/" + t) && Clean("/..") == "/"
  {
    SplitPlain("..");
    SplitConcat("..", t);
    assert ".." + "/" + t == "../" + t;
    AbsSlash("../" + t);
    AbsSlash(t);
    assert "/" + ("../" + t) == "/../" + t;
    PushAllConcat(true, [], [".."], Split(t));
    assert PushAll(true, [], [".."]) == [];
    AbsSlash("..");
    assert "/" + ".." == "/..";
  }

  /** Above the start of a relative path there is. */
  lemma StartHasParents(s: string)
    requires s != "" && !Rooted(s) && forall i | 0 <= i < |Abs(s).comps| :: Abs(s).comps[i] == ".."
    ensures Abs(s + "/..") == Extend(Abs(s), "..")
    ensures Clean("..") == ".."
  {
    SplitPlain("..");
    assert PushAll(false, [], [".."]) == [".."];
    AbsConcat(s, "..");
    assert s + "/" + ".." == s + "/..";
  }

  /** The path mapping reads a `..` in the same way. */
  lemma PrefixedTakesBack(root: string, c: string, t: string)
    requires IsClean(root) && PlainName(c)
    requires !Inside(root, Clean(c + "/../" + t)) && !Inside(root, Clean(t))
    ensures Prefixed(root, c + "/../" + t) == Prefixed(root, t)
  {
    RootUpTakesBack(c, t);
    assert "/" + (c + "/../" + t) == "/" + c + "/../" + t;
  }
}
