/** Lexical path processing (filepath.Clean, Join, Dir and Rel with the Unix separator), defined
    on strings through lists of components. */
module Paths {

  /** What a cleaned path means: a start, `/` or the working directory, and components. */
  datatype Path = Path(rooted: bool, comps: seq<string>)

  // ---- Components of a string ----

  function Split(s: string): (cs: seq<string>)
    ensures |cs| >= 1 && forall i | 0 <= i < |cs| :: '/' !in cs[i]
  {
    if s == "" then [""]
    else if s[0] == '/' then [""] + Split(s[1..])
    else var cs := Split(s[1..]); [[s[0]] + cs[0]] + cs[1..]
  }

  function Unsplit(cs: seq<string>): string
    requires |cs| >= 1
  {
    if |cs| == 1 then cs[0] else cs[0] + "/" + Unsplit(cs[1..])
  }

  lemma {:induction false} SplitPlain(c: string)
    requires '/' !in c
    ensures Split(c) == [c]
  {
    if c != "" {
      assert c == [c[0]] + c[1..];
      SplitPlain(c[1..]);
    }
  }

  /** Splitting a string at one of its separators splits the list of components. */
  lemma {:induction false} SplitConcat(a: string, b: string)
    ensures Split(a + "/" + b) == Split(a) + Split(b)
  {
    var s := a + "/" + b;
    if a == "" {
      assert s[1..] == b;
    } else {
      assert s[1..] == a[1..] + "/" + b;
      SplitConcat(a[1..], b);
    }
  }

  lemma {:induction false} SplitUnsplit(cs: seq<string>)
    requires |cs| >= 1 && forall i | 0 <= i < |cs| :: '/' !in cs[i]
    ensures Split(Unsplit(cs)) == cs
  {
    SplitPlain(cs[0]);
    if |cs| > 1 {
      SplitConcat(cs[0], Unsplit(cs[1..]));
      SplitUnsplit(cs[1..]);
    }
  }

  lemma {:induction false} UnsplitSnoc(cs: seq<string>, c: string)
    requires |cs| >= 1
    ensures Unsplit(cs + [c]) == Unsplit(cs) + "/" + c
  {
    if |cs| > 1 {
      UnsplitSnoc(cs[1..], c);
      assert (cs + [c])[1..] == cs[1..] + [c];
    }
  }

  // ---- Cleaning ----

  /** One component: nothing and `.` are dropped, `..` removes the name before it, is dropped
      at the root, and is kept where a relative path climbs out of its start. */
  function Push(rooted: bool, stack: seq<string>, c: string): seq<string> {
    if c == "" || c == "." then stack
    else if c != ".." then stack + [c]
    else if stack != [] && stack[|stack| - 1] != ".." then stack[..|stack| - 1]
    else if rooted then stack
    else stack + [c]
  }

  function PushAll(rooted: bool, stack: seq<string>, cs: seq<string>): seq<string>
    decreases |cs|
  {
    if cs == [] then stack else PushAll(rooted, Push(rooted, stack, cs[0]), cs[1..])
  }

  predicate Rooted(s: string) {
    s != "" && s[0] == '/'
  }

  function Abs(s: string): Path {
    Path(Rooted(s), PushAll(Rooted(s), [], Split(s)))
  }

  function Str(p: Path): string {
    if p.rooted then "/" + (if p.comps == [] then "" else Unsplit(p.comps))
    else if p.comps == [] then "."
    else Unsplit(p.comps)
  }

  /** filepath.Clean */
  function Clean(s: string): string {
    Str(Abs(s))
  }

  predicate IsClean(s: string) {
    Clean(s) == s
  }

  /** A component that names something in its directory. */
  predicate PlainName(c: string) {
    c != "" && c != "." && c != ".." && '/' !in c
  }

  predicate Normal(p: Path) {
    forall i | 0 <= i < |p.comps| ::
      PlainName(p.comps[i])
      || (p.comps[i] == ".." && !p.rooted && forall j | 0 <= j < i :: p.comps[j] == "..")
  }

  function Extend(p: Path, c: string): Path {
    Path(p.rooted, p.comps + [c])
  }

  function ExtendAll(p: Path, cs: seq<string>): Path {
    Path(p.rooted, p.comps + cs)
  }

  function Parent(p: Path): Path {
    if p.comps == [] then p else Path(p.rooted, p.comps[..|p.comps| - 1])
  }

  lemma PushNormal(rooted: bool, stack: seq<string>, c: string)
    requires Normal(Path(rooted, stack)) && '/' !in c
    ensures Normal(Path(rooted, Push(rooted, stack, c)))
  {
    if c == ".." && !rooted && (stack == [] || stack[|stack| - 1] == "..") {
      forall j | 0 <= j < |stack|
        ensures stack[j] == ".."
      {
        assert !PlainName(stack[|stack| - 1]);
      }
    }
  }

  lemma {:induction false} PushAllNormal(rooted: bool, stack: seq<string>, cs: seq<string>)
    requires Normal(Path(rooted, stack)) && forall i | 0 <= i < |cs| :: '/' !in cs[i]
    ensures Normal(Path(rooted, PushAll(rooted, stack, cs)))
    decreases |cs|
  {
    if cs != [] {
      PushNormal(rooted, stack, cs[0]);
      PushAllNormal(rooted, Push(rooted, stack, cs[0]), cs[1..]);
    }
  }

  lemma {:induction false} PushAllConcat(rooted: bool, stack: seq<string>, a: seq<string>, b: seq<string>)
    ensures PushAll(rooted, stack, a + b) == PushAll(rooted, PushAll(rooted, stack, a), b)
    decreases |a|
  {
    if a == [] {
      assert a + b == b;
    } else {
      assert (a + b)[1..] == a[1..] + b;
      PushAllConcat(rooted, Push(rooted, stack, a[0]), a[1..], b);
    }
  }

  /** Components that are already normal are kept as they are. */
  lemma {:induction false} PushAllKeeps(rooted: bool, stack: seq<string>, cs: seq<string>)
    requires Normal(Path(rooted, stack + cs))
    ensures PushAll(rooted, stack, cs) == stack + cs
    decreases |cs|
  {
    if cs != [] {
      assert (stack + cs)[|stack|] == cs[0];
      if cs[0] == ".." && stack != [] {
        assert (stack + cs)[|stack| - 1] == "..";
      }
      assert Push(rooted, stack, cs[0]) == stack + [cs[0]];
      assert stack + cs == (stack + [cs[0]]) + cs[1..];
      PushAllKeeps(rooted, stack + [cs[0]], cs[1..]);
    }
  }

  lemma AbsNormal(s: string)
    ensures Normal(Abs(s))
  {
    PushAllNormal(Rooted(s), [], Split(s));
  }

  lemma NormalPrefix(p: Path, k: nat)
    requires Normal(p) && k <= |p.comps|
    ensures Normal(Path(p.rooted, p.comps[..k]))
  {
    forall i | 0 <= i < k
      ensures p.comps[..k][i] == p.comps[i]
    {}
  }

  /** The string of a normal path denotes it: cleaning is idempotent and Str is injective. */
  lemma AbsStr(p: Path)
    requires Normal(p)
    ensures Abs(Str(p)) == p
  {
    forall i | 0 <= i < |p.comps|
      ensures '/' !in p.comps[i] && p.comps[i] != ""
    {
      assert PlainName(p.comps[i]) || p.comps[i] == "..";
    }
    if p.comps == [] {
      SplitPlain(".");
      SplitPlain("");
      assert Split("/") == ["", ""];
      assert PushAll(p.rooted, [], ["."]) == [];
      assert PushAll(p.rooted, [], ["", ""]) == PushAll(p.rooted, [], [""]) == [];
    } else {
      SplitUnsplit(p.comps);
      PushAllKeeps(p.rooted, [], p.comps);
      assert [] + p.comps == p.comps;
      if p.rooted {
        SplitConcat("", Unsplit(p.comps));
        assert "" + "/" + Unsplit(p.comps) == Str(p);
        PushAllConcat(true, [], [""], p.comps);
        assert PushAll(true, [], [""]) == [];
      } else {
        assert p.comps[0][0] != '/';
      }
    }
  }

  lemma CleanIdempotent(s: string)
    ensures Clean(Clean(s)) == Clean(s) && Abs(Clean(s)) == Abs(s)
  {
    AbsNormal(s);
    AbsStr(Abs(s));
  }

  /** Cleaning `a/b` starts from the cleaned a. */
  lemma AbsConcat(a: string, b: string)
    requires a != ""
    ensures Abs(a + "/" + b) == Path(Rooted(a), PushAll(Rooted(a), Abs(a).comps, Split(b)))
  {
    SplitConcat(a, b);
    PushAllConcat(Rooted(a), [], Split(a), Split(b));
  }

  /** Cleaning `/b` starts from the root. */
  lemma AbsSlash(b: string)
    ensures Abs("/" + b) == Path(true, PushAll(true, [], Split(b)))
  {
    SplitConcat("", b);
    assert "" + "/" + b == "/" + b;
    PushAllConcat(true, [], [""], Split(b));
    assert PushAll(true, [], [""]) == [];
  }

  // ---- Join and Dir ----

  /** filepath.Join of two elements: empty elements are ignored. */
  function Join(a: string, b: string): string {
    if a != "" then Clean(a + "/" + b)
    else if b != "" then Clean(b)
    else ""
  }

  /** Joining a plain name adds one component, whatever the first element is. */
  lemma JoinName(a: string, c: string)
    requires PlainName(c)
    ensures Join(a, c) == Str(Extend(Abs(a), c))
    ensures Abs(Join(a, c)) == Extend(Abs(a), c)
    ensures Normal(Extend(Abs(a), c))
  {
    SplitPlain(c);
    AbsNormal(a);
    var rooted := Rooted(a);
    assert PushAll(rooted, Abs(a).comps, [c]) == Abs(a).comps + [c];
    if a == "" {
      SplitPlain("");
      assert Abs(a).comps == [];
      assert Abs(c) == Extend(Abs(a), c);
    } else {
      AbsConcat(a, c);
    }
    PushNormal(rooted, Abs(a).comps, c);
    AbsStr(Extend(Abs(a), c));
  }

  /** Join is clean, does not look at the form of its first element, and drops empty ones. */
  lemma JoinAny(a: string, b: string)
    ensures a != "" || b != "" ==> IsClean(Join(a, b))
    ensures a != "" ==> Join(a, b) == Join(Clean(a), b) && Abs(Join(a, "")) == Abs(a)
    ensures b != "" ==> Abs(Join("", b)) == Abs(b)
  {
    if a != "" {
      CleanIdempotent(a + "/" + b);
      CleanIdempotent(a);
      AbsNormal(a);
      RootedStr(Abs(a));
      AbsConcat(a, b);
      AbsConcat(Clean(a), b);
      JoinNothing(a);
    }
    CleanIdempotent(b);
  }

  lemma JoinNothing(a: string)
    requires a != ""
    ensures Abs(Join(a, "")) == Abs(a)
  {
    AbsConcat(a, "");
    assert Split("") == [""];
    assert PushAll(Rooted(a), Abs(a).comps, [""]) == Abs(a).comps;
    CleanIdempotent(a + "/" + "");
  }

  /** The index of the last separator, or -1. */
  function LastSlash(s: string): (k: int)
    ensures -1 <= k < |s|
    ensures k >= 0 ==> s[k] == '/'
    ensures forall i | k < i < |s| :: s[i] != '/'
  {
    if s == "" then -1
    else if s[|s| - 1] == '/' then |s| - 1
    else LastSlash(s[..|s| - 1])
  }

  /** filepath.Dir: all but the last element, cleaned. */
  function Dir(s: string): string {
    Clean(s[..LastSlash(s) + 1])
  }

  /** What stands before a last component in the string of a path. */
  function Before(p: Path): string {
    (if p.rooted then "/" else "") + (if p.comps == [] then "" else Unsplit(p.comps) + "/")
  }

  lemma StrExtend(p: Path, c: string)
    ensures Str(Extend(p, c)) == Before(p) + c
  {
    if p.comps != [] {
      UnsplitSnoc(p.comps, c);
    } else {
      assert [] + [c] == [c];
    }
  }

  lemma AbsBefore(p: Path)
    requires Normal(p)
    ensures Abs(Before(p)) == p
  {
    SplitPlain("");
    AbsStr(p);
    if p.comps == [] {
      if p.rooted {
        assert Before(p) == Str(p);
      } else {
        assert PushAll(false, [], [""]) == [];
      }
    } else {
      assert Before(p) == Str(p) + "/" + "";
      AbsConcat(Str(p), "");
      assert PushAll(p.rooted, p.comps, [""]) == p.comps;
    }
  }

  /** The directory part of a string ends with its last separator. */
  lemma DirSplit(b: string, c: string)
    requires '/' !in c && (b == "" || b[|b| - 1] == '/')
    ensures Dir(b + c) == Clean(b)
  {
    var s := b + c;
    assert forall i | |b| <= i < |s| :: s[i] == c[i - |b|] != '/';
    assert b != "" ==> s[|b| - 1] == '/';
    assert s[..|b|] == b;
  }

  /** On a cleaned path Dir drops the last component; it stays put at `/` and `.`. */
  lemma DirStr(p: Path)
    requires Normal(p)
    ensures Dir(Str(p)) == Str(Parent(p)) && Normal(Parent(p))
    ensures Abs(Dir(Str(p))) == Parent(p)
  {
    if p.comps == [] {
      SplitPlain("");
      AbsStr(p);
      assert Abs("").comps == [];
      if p.rooted {
        DirSplit("/", "");
      } else {
        DirSplit("", ".");
      }
    } else {
      var q, c := Parent(p), p.comps[|p.comps| - 1];
      assert Extend(q, c).comps == p.comps;
      StrExtend(q, c);
      NormalPrefix(p, |p.comps| - 1);
      assert '/' !in c by {
        assert PlainName(c) || c == "..";
      }
      DirSplit(Before(q), c);
      AbsBefore(q);
      AbsStr(q);
    }
  }

  /** Dir undoes Join for every plain name. */
  lemma DirOfJoin(a: string, c: string)
    requires PlainName(c)
    ensures Dir(Join(a, c)) == Clean(a)
  {
    JoinName(a, c);
    DirStr(Extend(Abs(a), c));
    assert Parent(Extend(Abs(a), c)) == Abs(a);
  }

  lemma JoinClean(a: string, c: string)
    requires PlainName(c)
    ensures Join(Clean(a), c) == Join(a, c)
  {
    CleanIdempotent(a);
    JoinName(a, c);
    JoinName(Clean(a), c);
  }

  // ---- String prefixes and components ----

  predicate Under(p: Path, q: Path) {
    p.rooted == q.rooted && p.comps <= q.comps
  }

  /** Away from `/` and `.`, the string test `HasPrefix(q, p + "/")` says that q lies properly
      below p. */
  lemma PrefixMeansBelow(p: Path, q: Path)
    requires Normal(p) && Normal(q) && p.comps != []
    ensures Str(p) + "/" <= Str(q) <==> Under(p, q) && p != q
  {
    if Str(p) + "/" <= Str(q) {
      PrefixIsBelow(p, q, Str(q)[|Str(p)| + 1..]);
    }
    if Under(p, q) && p != q {
      var k := |p.comps|;
      assert q.comps == p.comps + q.comps[k..];
      UnsplitConcat(p.comps, q.comps[k..]);
    }
  }

  lemma PrefixIsBelow(p: Path, q: Path, u: string)
    requires Normal(p) && Normal(q) && p.comps != [] && Str(q) == Str(p) + "/" + u
    ensures p.rooted == q.rooted && q.comps == p.comps + Split(u)
  {
    hide Unsplit, Normal, Split;
    RootedStr(p);
    RootedStr(q);
    SplitConcat(Str(p), u);
    SplitStr(p);
    assert q.comps != [] by {
      assert |Str(q)| > 1;
    }
    SplitStr(q);
    var lead := if p.rooted then [""] else [];
    assert lead + q.comps == lead + (p.comps + Split(u));
    assert (lead + q.comps)[|lead|..] == q.comps;
  }

  lemma RootedStr(p: Path)
    requires Normal(p)
    ensures Str(p) != "" && (Rooted(Str(p)) <==> p.rooted)
  {
    AbsStr(p);
    assert Abs(Str(p)).rooted == Rooted(Str(p));
  }

  lemma SplitStr(p: Path)
    requires Normal(p) && p.comps != []
    ensures Split(Str(p)) == (if p.rooted then [""] else []) + p.comps
  {
    forall i | 0 <= i < |p.comps|
      ensures '/' !in p.comps[i]
    {
      assert PlainName(p.comps[i]) || p.comps[i] == "..";
    }
    SplitUnsplit(p.comps);
    if p.rooted {
      SplitConcat("", Unsplit(p.comps));
      assert "" + "/" + Unsplit(p.comps) == Str(p);
    }
  }

  lemma {:induction false} UnsplitConcat(a: seq<string>, b: seq<string>)
    requires |a| >= 1 && |b| >= 1
    ensures Unsplit(a + b) == Unsplit(a) + "/" + Unsplit(b)
  {
    assert (a + b)[1..] == a[1..] + b;
    if |a| > 1 {
      UnsplitConcat(a[1..], b);
    } else {
      assert a[1..] + b == b;
    }
  }
}
