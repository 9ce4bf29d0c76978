/** The current directory of a run as a stack of names, and when a run leaves its target. */
module PathStack {
  import opened Text
  import opened Paths
  import opened Filesystem
  import opened Headers
  import opened Parser
  import opened RunLaws

  /** The names of the directories that are open; an E line with none open changes nothing. */
  function OpenDirs(log: seq<Item>): seq<string> {
    if log == [] then []
    else
      var before, item := OpenDirs(log[..|log| - 1]), log[|log| - 1];
      if item.DirItem? then before + [item.call.name]
      else if item.EndItem? && before != [] then before[..|before| - 1]
      else before
  }

  /** No prefix of the log has more E lines than D lines. */
  predicate Balanced(log: seq<Item>) {
    forall k | 0 <= k <= |log| :: CountEnds(log[..k]) <= CountDirs(log[..k])
  }

  predicate NamesPlain(log: seq<Item>) {
    forall i | 0 <= i < |log| && log[i].DirItem? :: PlainName(log[i].call.name)
  }

  lemma BalancedPrefix(log: seq<Item>, n: nat)
    requires Balanced(log) && n <= |log|
    ensures Balanced(log[..n])
  {
    forall k | 0 <= k <= n
      ensures CountEnds(log[..n][..k]) <= CountDirs(log[..n][..k])
    {
      assert log[..n][..k] == log[..k];
    }
  }

  lemma StackPush(base: string, p: string, stack: seq<string>, name: string)
    requires Abs(p) == ExtendAll(Abs(base), stack) && PlainName(name)
    ensures Abs(Join(p, name)) == ExtendAll(Abs(base), stack + [name]) && IsClean(Join(p, name))
  {
    JoinName(p, name);
    assert Abs(base).comps + (stack + [name]) == (Abs(base).comps + stack) + [name];
  }

  lemma StackPop(base: string, p: string, stack: seq<string>)
    requires Abs(p) == ExtendAll(Abs(base), stack) && stack != [] && IsClean(p)
    ensures Abs(Dir(p)) == ExtendAll(Abs(base), stack[..|stack| - 1]) && IsClean(Dir(p))
  {
    AbsNormal(p);
    DirStr(Abs(p));
    var all := Abs(base).comps + stack;
    assert all[..|all| - 1] == Abs(base).comps + stack[..|stack| - 1];
    CleanIdempotent(p[..LastSlash(p) + 1]);
  }

  /** While the log is balanced the current directory is the target with the open directories'
      names below it. */
  lemma {:induction false} PathIsStack(base: string, log: seq<Item>)
    requires Balanced(log) && NamesPlain(log)
    ensures Abs(PathAt(base, log)) == ExtendAll(Abs(base), OpenDirs(log))
    ensures |OpenDirs(log)| == CountDirs(log) - CountEnds(log)
    ensures if CountDirs(log) == 0 then PathAt(base, log) == base else IsClean(PathAt(base, log))
  {
    if log == [] {
      assert Abs(base).comps + [] == Abs(base).comps;
    } else {
      var n := |log| - 1;
      var before, item := log[..n], log[n];
      BalancedPrefix(log, n);
      PathIsStack(base, before);
      assert log[..|log|] == log;
      if item.DirItem? {
        StackPush(base, PathAt(base, before), OpenDirs(before), item.call.name);
      } else if item.EndItem? {
        StackPop(base, PathAt(base, before), OpenDirs(before));
      }
    }
  }

  lemma LegalNames(h: Handler, base: string, data: string, log: seq<Item>)
    requires Legal(h, base, data, log)
    ensures NamesPlain(log)
  {
    forall i | 0 <= i < |log| && log[i].DirItem?
      ensures PlainName(log[i].call.name)
    {
      hide ParseLine, PathAt, Pending, Join, Behind, Offer, Raw;
      assert LegalItem(h, base, Behind(data, log[..i]), log[..i], log[i]);
      HeaderNames(log[i].line);
    }
  }

  lemma DirRooted(s: string)
    ensures Abs(Dir(s)).rooted == Rooted(s)
  {
    var b := s[..LastSlash(s) + 1];
    CleanIdempotent(b);
    assert Rooted(s) ==> LastSlash(s) >= 0;
    assert b != "" ==> b[0] == s[0];
  }

  lemma {:induction false} RootednessStays(base: string, log: seq<Item>)
    requires NamesPlain(log)
    ensures Abs(PathAt(base, log)).rooted == Abs(base).rooted
  {
    hide Join, Dir, PushAll;
    if log != [] {
      var before, item := log[..|log| - 1], log[|log| - 1];
      RootednessStays(base, before);
      DirRooted(PathAt(base, before));
      if item.DirItem? {
        JoinName(PathAt(base, before), item.call.name);
      }
    }
  }

  // ---- When the target is left ----

  /** Every prefix of the log leads from p to a directory at or below the target. */
  predicate StaysUnder(target: Path, p: string, log: seq<Item>) {
    forall k | 0 <= k <= |log| :: Under(target, Abs(PathAt(p, log[..k])))
  }

  /** No prefix of the log has more than n E lines beyond its D lines. */
  predicate BalancedBy(n: int, log: seq<Item>) {
    forall k | 0 <= k <= |log| :: CountEnds(log[..k]) <= CountDirs(log[..k]) + n
  }

  /** An E line comes before any D line. */
  predicate EndFirst(log: seq<Item>) {
    exists k | 0 <= k <= |log| :: CountDirs(log[..k]) == 0 && CountEnds(log[..k]) > 0
  }

  /** How many E lines a target takes, if one comes first, before it is left. The directory part
      of a target that was not given in cleaned form may be the target itself, as for `up/`, or
      lie below it, as for `up/x/..`; that of a cleaned one is its parent. */
  function Free(base: string): nat {
    var target, up := Abs(base), Abs(Dir(base));
    if Under(target, up) then 1 + |up.comps| - |target.comps| else 0
  }

  /** The target is kept if nothing is above it, and otherwise while the E lines are covered by
      D lines and by what the target takes. */
  predicate KeepsTarget(base: string, log: seq<Item>) {
    Abs(base).comps == [] || BalancedBy(if EndFirst(log) then Free(base) else 0, log)
  }

  // Reading a log from its front.

  function MovedBy(p: string, item: Item): string {
    if item.DirItem? then Join(p, item.call.name) else if item.EndItem? then Dir(p) else p
  }

  function Depth(item: Item): int {
    if item.DirItem? then 1 else if item.EndItem? then -1 else 0
  }

  lemma {:induction false} FrontItem(p: string, item: Item, log: seq<Item>)
    ensures PathAt(p, [item] + log) == PathAt(MovedBy(p, item), log)
    ensures CountDirs([item] + log) == CountDirs(log) + (if item.DirItem? then 1 else 0)
    ensures CountEnds([item] + log) == CountEnds(log) + (if item.EndItem? then 1 else 0)
    decreases |log|
  {
    hide Join, Dir;
    if log == [] {
      assert ([item] + log)[..0] == [];
      assert [item] + log == [item];
    } else {
      var front := log[..|log| - 1];
      assert ([item] + log)[..|log|] == [item] + front;
      FrontItem(p, item, front);
    }
  }

  lemma FrontAt(p: string, log: seq<Item>, k: nat)
    requires log != [] && k < |log|
    ensures PathAt(p, log[..k + 1]) == PathAt(MovedBy(p, log[0]), log[1..][..k])
    ensures CountDirs(log[..k + 1]) == CountDirs(log[1..][..k]) + (if log[0].DirItem? then 1 else 0)
    ensures CountEnds(log[..k + 1]) == CountEnds(log[1..][..k]) + (if log[0].EndItem? then 1 else 0)
  {
    assert log[..k + 1] == [log[0]] + log[1..][..k];
    FrontItem(p, log[0], log[1..][..k]);
  }

  lemma FrontStays(target: Path, p: string, log: seq<Item>)
    requires log != []
    ensures StaysUnder(target, p, log) <==>
            Under(target, Abs(p)) && StaysUnder(target, MovedBy(p, log[0]), log[1..])
  {
    hide Abs, MovedBy;
    var rest, q := log[1..], MovedBy(p, log[0]);
    assert log[..0] == [] && PathAt(p, []) == p;
    forall k | 0 <= k <= |rest|
      ensures PathAt(p, log[..k + 1]) == PathAt(q, rest[..k])
    {
      FrontAt(p, log, k);
    }
    if Under(target, Abs(p)) && StaysUnder(target, q, rest) {
      forall k | 0 <= k <= |log|
        ensures Under(target, Abs(PathAt(p, log[..k])))
      {
        assert k > 0 ==> Under(target, Abs(PathAt(q, rest[..k - 1])));
        assert k > 0 ==> PathAt(p, log[..k - 1 + 1]) == PathAt(q, rest[..k - 1]);
      }
    }
    if StaysUnder(target, p, log) {
      assert Under(target, Abs(PathAt(p, log[..0])));
      forall k | 0 <= k <= |rest|
        ensures Under(target, Abs(PathAt(q, rest[..k])))
      {
        assert Under(target, Abs(PathAt(p, log[..k + 1])));
      }
    }
  }

  lemma FrontBalance(n: int, log: seq<Item>)
    requires log != []
    ensures BalancedBy(n, log) <==> n >= 0 && BalancedBy(n + Depth(log[0]), log[1..])
  {
    var rest := log[1..];
    assert log[..0] == [];
    forall k | 0 <= k <= |rest|
      ensures CountEnds(log[..k + 1]) - CountDirs(log[..k + 1])
           == CountEnds(rest[..k]) - CountDirs(rest[..k]) - Depth(log[0])
    {
      FrontAt("", log, k);
    }
    if n >= 0 && BalancedBy(n + Depth(log[0]), rest) {
      forall k | 0 <= k <= |log|
        ensures CountEnds(log[..k]) <= CountDirs(log[..k]) + n
      {
        if k > 0 {
          var m := k - 1;
          assert CountEnds(rest[..m]) <= CountDirs(rest[..m]) + (n + Depth(log[0]));
          assert log[..m + 1] == log[..k];
        }
      }
    }
    if BalancedBy(n, log) {
      assert CountEnds(log[..0]) <= CountDirs(log[..0]) + n;
      forall k | 0 <= k <= |rest|
        ensures CountEnds(rest[..k]) <= CountDirs(rest[..k]) + (n + Depth(log[0]))
      {
        assert CountEnds(log[..k + 1]) <= CountDirs(log[..k + 1]) + n;
      }
    }
  }

  lemma FrontEnd(log: seq<Item>)
    requires log != []
    ensures EndFirst(log) <==> log[0].EndItem? || (!log[0].DirItem? && EndFirst(log[1..]))
  {
    var rest := log[1..];
    assert log[..0] == [] && rest[..0] == [];
    forall k | 0 <= k <= |rest|
      ensures CountDirs(log[..k + 1]) == CountDirs(rest[..k]) + (if log[0].DirItem? then 1 else 0)
      ensures CountEnds(log[..k + 1]) == CountEnds(rest[..k]) + (if log[0].EndItem? then 1 else 0)
    {
      FrontAt("", log, k);
    }
    if EndFirst(log) {
      var k :| 0 <= k <= |log| && CountDirs(log[..k]) == 0 && CountEnds(log[..k]) > 0;
      assert k > 0;
      var m := k - 1;
      assert log[..m + 1] == log[..k];
      assert CountDirs(rest[..m]) == 0;
    }
    if log[0].EndItem? {
      assert CountDirs(log[..0 + 1]) == 0 && CountEnds(log[..0 + 1]) > 0;
    } else if !log[0].DirItem? && EndFirst(rest) {
      var k :| 0 <= k <= |rest| && CountDirs(rest[..k]) == 0 && CountEnds(rest[..k]) > 0;
      assert CountDirs(log[..k + 1]) == 0 && CountEnds(log[..k + 1]) > 0;
    }
  }

  lemma RestPlain(log: seq<Item>)
    requires log != [] && NamesPlain(log)
    ensures NamesPlain(log[1..]) && (log[0].DirItem? ==> PlainName(log[0].call.name))
  {}

  lemma MovesClean(p: string, item: Item)
    requires item.DirItem? ==> PlainName(item.call.name)
    ensures item.DirItem? ==> IsClean(MovedBy(p, item)) && Abs(MovedBy(p, item)) == Extend(Abs(p), item.call.name)
    ensures item.EndItem? ==> IsClean(MovedBy(p, item))
    ensures item.EndItem? && IsClean(p) ==> Abs(MovedBy(p, item)) == Parent(Abs(p))
  {
    if item.DirItem? {
      JoinName(p, item.call.name);
    } else if item.EndItem? {
      CleanIdempotent(p[..LastSlash(p) + 1]);
      AbsNormal(p);
      DirStr(Abs(p));
    }
  }

  /** From a cleaned directory n levels below the target: the target is left with the first E line
      that is neither matched by a D line nor covered by those levels. */
  lemma {:induction false} CleanCondition(target: Path, p: string, log: seq<Item>)
    requires NamesPlain(log) && IsClean(p) && Under(target, Abs(p)) && target.comps != []
    ensures StaysUnder(target, p, log) <==> BalancedBy(|Abs(p).comps| - |target.comps|, log)
    decreases |log|
  {
    hide Join, Dir, Clean, Abs, StaysUnder, BalancedBy, MovedBy, NamesPlain, PathAt;
    var n := |Abs(p).comps| - |target.comps|;
    if log == [] {
      AtStart(target, p, n);
    } else {
      var q := MovedBy(p, log[0]);
      RestPlain(log);
      MovesClean(p, log[0]);
      FrontStays(target, p, log);
      FrontBalance(n, log);
      if !log[0].DirItem? && !log[0].EndItem? {
        assert q == p by {
          NoMove(p, log[0]);
        }
        CleanCondition(target, p, log[1..]);
      } else if log[0].EndItem? && n == 0 {
        NotAtStart(target, q, log[1..]);
      } else {
        CleanCondition(target, q, log[1..]);
      }
    }
  }

  lemma NoMove(p: string, item: Item)
    requires !item.DirItem? && !item.EndItem?
    ensures MovedBy(p, item) == p
  {}

  lemma AtStart(target: Path, p: string, n: int)
    ensures StaysUnder(target, p, []) <==> Under(target, Abs(p))
    ensures BalancedBy(n, []) <==> n >= 0
  {
    var none: seq<Item> := [];
    assert none[..0] == none;
    if StaysUnder(target, p, none) {
      assert Under(target, Abs(PathAt(p, none[..0])));
    }
    if BalancedBy(n, none) {
      assert CountEnds(none[..0]) <= CountDirs(none[..0]) + n;
    }
  }

  lemma NotAtStart(target: Path, p: string, log: seq<Item>)
    requires !Under(target, Abs(p))
    ensures !StaysUnder(target, p, log) && !BalancedBy(-1, log)
  {
    assert log[..0] == [];
    assert !Under(target, Abs(PathAt(p, log[..0])));
    assert CountEnds(log[..0]) > CountDirs(log[..0]) + -1;
  }

  /** For any target, cleaned or not: it is kept exactly under KeepsTarget. */
  lemma {:induction false} StackCondition(base: string, log: seq<Item>)
    requires NamesPlain(log)
    ensures StaysUnder(Abs(base), base, log) <==> KeepsTarget(base, log)
    decreases |log|
  {
    if Abs(base).comps == [] {
      NothingAbove(base, log);
    } else {
      RawCondition(base, log);
    }
  }

  lemma NothingAbove(base: string, log: seq<Item>)
    requires NamesPlain(log) && Abs(base).comps == []
    ensures StaysUnder(Abs(base), base, log)
  {
    forall k | 0 <= k <= |log|
      ensures Under(Abs(base), Abs(PathAt(base, log[..k])))
    {
      RootednessStays(base, log[..k]);
    }
  }

  lemma {:induction false} RawCondition(base: string, log: seq<Item>)
    requires NamesPlain(log) && Abs(base).comps != []
    ensures StaysUnder(Abs(base), base, log) <==> BalancedBy(if EndFirst(log) then Free(base) else 0, log)
    decreases |log|
  {
    hide Join, Dir, Clean, Abs, StaysUnder, BalancedBy, MovedBy, NamesPlain, PathAt, EndFirst;
    var target := Abs(base);
    if log == [] {
      AtStart(target, base, 0);
      assert !EndFirst(log) by {
        NeverEndFirst();
      }
    } else {
      var q := MovedBy(base, log[0]);
      RestPlain(log);
      MovesClean(base, log[0]);
      FrontStays(target, base, log);
      FrontEnd(log);
      FrontBalance(if EndFirst(log) then Free(base) else 0, log);
      if log[0].DirItem? {
        CleanCondition(target, q, log[1..]);
      } else if log[0].EndItem? {
        assert q == Dir(base) by {
          EndMove(base, log[0]);
        }
        if Under(target, Abs(q)) {
          CleanCondition(target, q, log[1..]);
        } else {
          NotAtStart(target, q, log[1..]);
        }
      } else {
        NoMove(base, log[0]);
        RawCondition(base, log[1..]);
      }
    }
  }

  lemma EndMove(p: string, item: Item)
    requires item.EndItem?
    ensures MovedBy(p, item) == Dir(p)
  {}

  lemma NeverEndFirst()
    ensures !EndFirst([])
  {
    var none: seq<Item> := [];
    assert none[..0] == none;
  }

  /** A cleaned target takes no E line: only balanced logs keep it. */
  lemma CleanTakesNothing(base: string)
    requires IsClean(base) && Abs(base).comps != []
    ensures Free(base) == 0
  {
    AbsNormal(base);
    DirStr(Abs(base));
  }

  /** A target with a separator at its end takes one E line without being left. */
  lemma SlashTakesOne(base: string)
    requires base != "" && base != "/"
    ensures Free(base + "/") == 1
  {
    DirSplit(base + "/", "");
    assert base + "/" + "" == base + "/";
    CleanIdempotent(base + "/");
  }

  /** For every run the loop's own path register stays at or below the target exactly under
      KeepsTarget of the run's log. */
  lemma RunKeepsTarget(h: Handler, ending: Ending, base: string, data: string)
    ensures var turns, o := Turns(h, ending, Start(base, data)), Run(h, ending, Start(base, data));
            (forall k | 0 <= k < |turns| :: Under(Abs(base), Abs(turns[k].path))) <==> KeepsTarget(base, o.state.log)
  {
    hide Run, Turns, KeepsTarget, Abs, PathAt, Legal, Pending, Behind;
    var turns, log := Turns(h, ending, Start(base, data)), Run(h, ending, Start(base, data)).state.log;
    RunFrames(h, ending, base, data);
    LegalNames(h, base, data, log);
    StackCondition(base, log);
    TurnsFollowLog(h, ending, base, data, 0);
    forall k | 0 <= k <= |log|
      ensures turns[k].path == PathAt(base, log[..k])
    {
      TurnsFollowLog(h, ending, base, data, k);
    }
    if StaysUnder(Abs(base), base, log) {
      forall k | 0 <= k < |turns|
        ensures Under(Abs(base), Abs(turns[k].path))
      {
        assert Under(Abs(base), Abs(PathAt(base, log[..k])));
      }
    }
  }

  /** While no more E than D lines were read, the loop's path register is the target with the
      names of the open directories below it. */
  lemma RunPath(h: Handler, ending: Ending, base: string, data: string, k: nat)
    ensures var turns, log := Turns(h, ending, Start(base, data)), Run(h, ending, Start(base, data)).state.log;
            k < |turns| && k <= |log| && Balanced(log[..k]) ==>
              Abs(turns[k].path) == ExtendAll(Abs(base), OpenDirs(log[..k]))
  {
    hide Run, Turns, Abs, PathAt, Legal, Pending, Behind, Balanced;
    var turns, log := Turns(h, ending, Start(base, data)), Run(h, ending, Start(base, data)).state.log;
    RunFrames(h, ending, base, data);
    LegalNames(h, base, data, log);
    TurnsFollowLog(h, ending, base, data, k);
    if k < |turns| && k <= |log| && Balanced(log[..k]) {
      assert NamesPlain(log[..k]);
      PathIsStack(base, log[..k]);
    }
  }

  /** One unmatched E line is enough: the rest of the upload goes to the target's parent. */
  lemma UnmatchedEndLeaves(h: Handler)
    ensures Run(h, Eof, Start("/srv/up", "E\n")).state.path == "/srv"
  {
    hide Run, Dir, ParseLine;
    var st := Start("/srv/up", "E\n");
    assert "E" + "\n" + "" == "E\n";
    EndIsEnd();
    RunOfLine(h, Eof, st, "E", "");
    RunTurn(h, Eof, State(Dir("/srv/up"), 0, 0, "", [EndItem], 2));
    assert [] + [EndItem] == [EndItem];
    ParentOfUpload();
  }

  lemma ParentOfUpload()
    ensures Dir("/srv/up") == "/srv"
  {
    hide Dir, Split;
    var p := Path(true, ["srv", "up"]);
    assert Str(p) == "/srv/up" by {
      assert ["srv", "up"][1..] == ["up"];
      assert Unsplit(["srv", "up"]) == "srv" + "/" + Unsplit(["up"]);
      assert "/" + ("srv" + "/" + "up") == "/srv/up";
    }
    assert PlainName("srv") && PlainName("up");
    DirStr(p);
    assert Parent(p).comps == ["srv"];
    assert Str(Path(true, ["srv"])) == "/srv";
  }

  // ---- Where the calls of a run land ----

  /** While no more E than D lines were read, every directory and file the handler is asked for,
      accepted or refused, lies below the target under the names of the directories then open. */
  lemma CallsBelowTarget(h: Handler, ending: Ending, base: string, data: string, k: nat)
    ensures var o := Run(h, ending, Start(base, data));
            k < |AllMade(o)| && Balanced(LogBefore(o, k)) ==>
              var call := AllMade(o)[k].call;
              PlainName(call.name)
              && call.path == Follow(base, OpenDirs(LogBefore(o, k)) + [call.name])
  {
    hide Run, AllMade, LogBefore, PathAt, Pending, Abs, Join, Clean, Str, CountDirs, CountEnds;
    var o := Run(h, ending, Start(base, data));
    if k < |AllMade(o)| && Balanced(LogBefore(o, k)) {
      var before, name := LogBefore(o, k), AllMade(o)[k].call.name;
      EveryCall(h, ending, base, data, k);
      BeforeIsPlain(h, ending, base, data, before);
      PathIsStack(base, before);
      JoinName(PathAt(base, before), name);
      assert Abs(base).comps + (OpenDirs(before) + [name]) == (Abs(base).comps + OpenDirs(before)) + [name];
    }
  }

  lemma BeforeIsPlain(h: Handler, ending: Ending, base: string, data: string, before: seq<Item>)
    requires before <= Run(h, ending, Start(base, data)).state.log
    ensures NamesPlain(before)
  {
    hide Run, Legal;
    var log := Run(h, ending, Start(base, data)).state.log;
    RunFrames(h, ending, base, data);
    LegalNames(h, base, data, log);
    assert forall i | 0 <= i < |before| :: before[i] == log[i];
  }

  lemma {:induction false} OpenDirsPlain(log: seq<Item>)
    requires NamesPlain(log)
    ensures AllPlain(OpenDirs(log))
  {
    if log != [] {
      OpenDirsPlain(log[..|log| - 1]);
    }
  }

  /** The path mapping puts each of these calls at its own place below the mapped target, exactly
      when its path does not enter the root from a target outside of it; below an absolute root a
      relative target never leads to that. */
  lemma RunLands(h: Handler, ending: Ending, root: string, base: string, data: string, k: nat)
    requires IsClean(root) && root != "/" && root != "."
    ensures Prefixed(root, base).Some?
    ensures var o := Run(h, ending, Start(base, data));
            k < |AllMade(o)| && Balanced(LogBefore(o, k)) ==>
              var call := AllMade(o)[k].call;
              && (Prefixed(root, call.path)
                  == Some(Follow(Prefixed(root, base).value, OpenDirs(LogBefore(o, k)) + [call.name]))
                  <==> Inside(root, Clean(base)) || !Inside(root, call.path))
              && (Rooted(root) && !Rooted(base) ==> !Inside(root, call.path))
  {
    hide Run, AllMade, LogBefore, Balanced, PathAt, Pending;
    PrefixedSucceeds(root, base);
    var o := Run(h, ending, Start(base, data));
    if k < |AllMade(o)| && Balanced(LogBefore(o, k)) {
      var before := LogBefore(o, k);
      CallsBelowTarget(h, ending, base, data, k);
      EveryCall(h, ending, base, data, k);
      BeforeIsPlain(h, ending, base, data, before);
      OpenDirsPlain(before);
      var names := OpenDirs(before) + [AllMade(o)[k].call.name];
      FollowFacts(root, base, names);
      InsideMeansUnder(root, Follow(base, names));
      PrefixedFollowsNames(root, base, names);
    }
  }
}
