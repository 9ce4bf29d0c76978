/** The file system handler as a receiving handler, and the operations it asks of the operating
    system: every path a client names is mapped first. */
module Operations {
  import opened Text
  import opened Paths
  import opened Filesystem
  import opened Headers
  import opened Trees
  import opened Rebuild
  import opened Parser
  import opened RunLaws
  import opened RoundTrip
  import opened EndToEnd

  datatype Op =
    | MkdirOp(path: string, mode: nat)
    | OpenOp(path: string, mode: nat)
    | CopyOp(path: string, content: string)
    | CloseOp(path: string)
    | ChtimesOp(path: string, mtime: nat, atime: nat)

  /** A failing copy says how much it had read. */
  datatype Verdict = Fine | Fault(read: nat)

  /** The root of the handler, the operating system, which answers each operation from those it was
      asked before, and how the stream ends. */
  datatype Site = Site(root: string, os: (seq<Op>, Op) -> Verdict, ending: Ending)

  // ---- What one call asks for ----

  function Chtimes(site: Site, asked: seq<Op>, call: Call): (bool, seq<Op>) {
    if call.mtime == 0 || call.atime == 0 then (true, [])
    else
      var p := Prefixed(site.root, call.path);
      if p.None? then (false, [])
      else
        var op := ChtimesOp(p.value, call.mtime, call.atime);
        (site.os(asked, op).Fine?, [op])
  }

  function Mkdir(site: Site, asked: seq<Op>, call: Call): (bool, seq<Op>) {
    var p := Prefixed(site.root, call.path);
    if p.None? then (false, [])
    else
      var op := MkdirOp(p.value, call.mode);
      if site.os(asked, op).Fault? then (false, [op])
      else
        var (ok, times) := Chtimes(site, asked + [op], call);
        (ok, [op] + times)
  }

  /** Open, copy, close, set the times; the deferred Close comes last on every way out. */
  function WriteFile(site: Site, asked: seq<Op>, call: Call, window: string): (Reply, seq<Op>) {
    var p := Prefixed(site.root, call.path);
    if p.None? then (Reply(0, 0, true), [])
    else
      var open, copy, close := OpenOp(p.value, call.mode), CopyOp(p.value, window), CloseOp(p.value);
      if site.os(asked, open).Fault? then (Reply(0, 0, true), [open])
      else
        var copied := site.os(asked + [open], copy);
        if copied.Fault? then (Reply(copied.read, 0, true), [open, copy, close])
        else if call.WriteCall? && |window| < call.size && site.ending.Broken? then
          (Reply(|window|, 0, true), [open, copy, close])
        else if site.os(asked + [open, copy], close).Fault? then
          (Reply(|window|, 0, true), [open, copy, close, close])
        else
          var (ok, times) := Chtimes(site, asked + [open, copy, close], call);
          (Reply(|window|, |window|, !ok), [open, copy, close] + times + [close])
  }

  /** The operations of a call whose reader could deliver `window`. */
  function OpsFor(site: Site, asked: seq<Op>, call: Call, window: string): seq<Op> {
    if call.MkdirCall? then Mkdir(site, asked, call).1 else WriteFile(site, asked, call, window).1
  }

  /** The operations of accepted calls, in order; what an accepted Write took is all its reader
      could deliver. */
  function OpsOf(site: Site, made: seq<Made>): seq<Op> {
    if made == [] then []
    else
      var asked, last := OpsOf(site, made[..|made| - 1]), made[|made| - 1];
      asked + OpsFor(site, asked, last.call, last.content)
  }

  function FileSystemHandler(site: Site): Handler {
    Handler(
      (made: seq<Made>, call: Call) => Mkdir(site, OpsOf(site, made), call).0,
      (made: seq<Made>, call: Call, window: string) => WriteFile(site, OpsOf(site, made), call, window).0)
  }

  // ---- The operations of a run ----

  /** What the reader of a refused file could deliver. */
  function LastOffer(o: Outcome): string
    requires o.Failed? && o.refused != []
  {
    if o.refused[0].call.MkdirCall? then ""
    else Offer(o.state.rest, o.state.rest[..LineEnd(o.state.rest)], o.refused[0].call.size)
  }

  /** All operations a run asks for, those of the call it failed on included. */
  function OpsOfRun(site: Site, base: string, data: string): seq<Op> {
    var o := Run(FileSystemHandler(site), site.ending, Start(base, data));
    var asked := OpsOf(site, Calls(o.state.log));
    if o.Failed? && o.refused != [] then asked + OpsFor(site, asked, o.refused[0].call, LastOffer(o)) else asked
  }

  /** The handler reads a file to its end or reports an error; and below any root but `/` and `.`
      it accepts every directory and every complete file if the operating system does. */
  lemma FileSystemHandlerWorks(site: Site)
    requires IsClean(site.root)
    ensures Drains(FileSystemHandler(site))
    ensures site.root != "/" && site.root != "." && AllFine(site) ==> Accepting(FileSystemHandler(site))
  {
    hide Prefixed, OpsOf, Clean;
    if site.root != "/" && site.root != "." {
      forall call: Call
        ensures Prefixed(site.root, call.path).Some?
      {
        PrefixedSucceeds(site.root, call.path);
      }
    }
  }

  ghost predicate AllFine(site: Site) {
    forall asked: seq<Op>, op: Op :: site.os(asked, op).Fine?
  }

  /** The reader of an accepted file could deliver exactly what was taken, so OpsOf names the
      operations that file really led to. */
  lemma AcceptedTookOffer(site: Site, base: string, data: string, i: nat)
    requires IsClean(site.root)
    ensures var log := Run(FileSystemHandler(site), site.ending, Start(base, data)).state.log;
            i < |log| && log[i].FileItem? && log[i].call.WriteCall? ==>
              log[i].content == Offer(Behind(data, log[..i]), log[i].line, log[i].call.size)
              && |log[i].content| == log[i].call.size
  {
    hide Run, ParseLine, PathAt, Pending, Join, Behind, Offer, Raw, WriteFile, Mkdir;
    var h := FileSystemHandler(site);
    var log := Run(h, site.ending, Start(base, data)).state.log;
    FileSystemHandlerWorks(site);
    DrainedExactly(h, site.ending, base, data, i);
    RunFrames(h, site.ending, base, data);
    if i < |log| && log[i].FileItem? {
      assert LegalItem(h, base, Behind(data, log[..i]), log[..i], log[i]);
    }
  }

  // ---- What the handler answers ----

  /** An operation asked for behind others that were answered without a fault. */
  predicate Answered(site: Site, asked: seq<Op>, ops: seq<Op>, j: nat)
    requires j < |ops|
  {
    site.os(asked + ops[..j], ops[j]).Fine?
  }

  /** What a call asks for if nothing goes wrong, without the deferred Close. */
  function Plan(call: Call, p: string, window: string): seq<Op> {
    (if call.MkdirCall? then [MkdirOp(p, call.mode)]
     else [OpenOp(p, call.mode), CopyOp(p, window), CloseOp(p)])
    + (if call.mtime == 0 || call.atime == 0 then [] else [ChtimesOp(p, call.mtime, call.atime)])
  }

  /** The reader breaks before the announced size. */
  predicate CutShort(site: Site, call: Call, window: string) {
    call.WriteCall? && |window| < call.size && site.ending.Broken?
  }

  /** The plan is followed up to its first operation that fails, if there is one; a Copy also
      fails if the reader breaks. A file that was opened is closed once more in the end. */
  predicate Follows(site: Site, asked: seq<Op>, call: Call, p: string, window: string, ops: seq<Op>, n: nat) {
    var plan := Plan(call, p, window);
    && 0 < n <= |plan| && n <= |ops|
    && ops[..n] == plan[..n]
    && ops[n..] == (if call.WriteCall? && Answered(site, asked, ops, 0) then [CloseOp(p)] else [])
    && (forall j | 0 <= j < n - 1 :: Answered(site, asked, ops, j) && !(plan[j].CopyOp? && CutShort(site, call, window)))
    && (n < |plan| ==> !Answered(site, asked, ops, n - 1) || (plan[n - 1].CopyOp? && CutShort(site, call, window)))
  }

  /** How much a Write has read when it stops behind operation n: nothing before the Copy, and of
      a failed Copy what the operating system says. */
  function TakenBy(site: Site, asked: seq<Op>, ops: seq<Op>, window: string, n: nat): nat {
    if n < 2 || |ops| < 2 then 0
    else if n == 2 && !Answered(site, asked, ops, 1) then site.os(asked + ops[..1], ops[1]).read
    else |window|
  }

  /** The handler's answer to a call, told from the operations and what the operating system said
      to each: it takes the call if and only if the path maps, the whole plan was carried out and
      nothing in it failed. The deferred Close does not count. */
  lemma HandlerAnswers(site: Site, made: seq<Made>, call: Call, window: string)
    returns (n: nat)
    ensures var h, asked := FileSystemHandler(site), OpsOf(site, made);
            var p, ops := Prefixed(site.root, call.path), OpsFor(site, OpsOf(site, made), call, window);
            var accepts := if call.MkdirCall? then h.mkdir(made, call) else !h.write(made, call, window).failed;
            if p.None? then !accepts && ops == []
            else
              && Follows(site, asked, call, p.value, window, ops, n)
              && (accepts <==> n == |Plan(call, p.value, window)| && Answered(site, asked, ops, n - 1))
    ensures call.WriteCall? && !FileSystemHandler(site).write(made, call, window).failed ==>
              FileSystemHandler(site).write(made, call, window) == Reply(|window|, |window|, false)
    ensures call.WriteCall? && Prefixed(site.root, call.path).Some? ==>
              var ops, asked := OpsFor(site, OpsOf(site, made), call, window), OpsOf(site, made);
              FileSystemHandler(site).write(made, call, window).taken == TakenBy(site, asked, ops, window, n)
  {
    hide Prefixed, OpsOf;
    var p := Prefixed(site.root, call.path);
    var asked := OpsOf(site, made);
    if p.None? {
      n := 0;
    } else if call.MkdirCall? {
      n := MkdirFollows(site, asked, call, p.value, window);
    } else {
      n := WriteFollows(site, asked, call, p.value, window);
    }
  }

  lemma MkdirFollows(site: Site, asked: seq<Op>, call: Call, p: string, window: string) returns (n: nat)
    requires call.MkdirCall? && Prefixed(site.root, call.path) == Some(p)
    ensures var (ok, ops) := Mkdir(site, asked, call);
            && Follows(site, asked, call, p, window, ops, n)
            && (ok <==> n == |Plan(call, p, window)| && Answered(site, asked, ops, n - 1))
  {
    hide Prefixed;
    var ops := Mkdir(site, asked, call).1;
    n := |ops|;
    assert asked + ops[..0] == asked;
    assert n == 2 ==> asked + ops[..1] == asked + [ops[0]];
  }

  lemma WriteFollows(site: Site, asked: seq<Op>, call: Call, p: string, window: string) returns (n: nat)
    requires call.WriteCall? && Prefixed(site.root, call.path) == Some(p)
    ensures var (r, ops) := WriteFile(site, asked, call, window);
            && Follows(site, asked, call, p, window, ops, n)
            && (!r.failed <==> n == |Plan(call, p, window)| && Answered(site, asked, ops, n - 1))
            && (!r.failed ==> r == Reply(|window|, |window|, false))
            && r.taken == TakenBy(site, asked, ops, window, n)
  {
    hide Prefixed;
    var ops := WriteFile(site, asked, call, window).1;
    n := if |ops| == 1 then 1 else |ops| - 1;
    assert asked + ops[..0] == asked;
    if |ops| > 1 {
      assert ops[..1] == [ops[0]] && ops[..2] == [ops[0], ops[1]];
      assert n >= 3 ==> ops[..3] == [ops[0], ops[1], ops[2]];
      assert n == 4 ==> ops[..4] == [ops[0], ops[1], ops[2], ops[3]];
    }
  }

  /** Every operation of a call is on the call's mapped path. */
  lemma OpsAreMapped(site: Site, asked: seq<Op>, call: Call, window: string, i: nat)
    ensures i < |OpsFor(site, asked, call, window)| ==>
              Prefixed(site.root, call.path) == Some(OpsFor(site, asked, call, window)[i].path)
  {
    hide Prefixed;
  }

  /** A path is the mapped path of one of the calls. */
  predicate MappedFrom(site: Site, made: seq<Made>, path: string) {
    exists k | 0 <= k < |made| :: Prefixed(site.root, made[k].call.path) == Some(path)
  }

  lemma {:induction false} OpsOfMade(site: Site, made: seq<Made>, i: nat)
    requires i < |OpsOf(site, made)|
    ensures MappedFrom(site, made, OpsOf(site, made)[i].path)
  {
    hide Prefixed, OpsFor;
    var front, last := made[..|made| - 1], made[|made| - 1];
    var asked := OpsOf(site, front);
    if i < |asked| {
      OpsOfMade(site, front, i);
      var k :| 0 <= k < |front| && Prefixed(site.root, front[k].call.path) == Some(asked[i].path);
      assert made[k] == front[k];
    } else {
      OpsAreMapped(site, asked, last.call, last.content, i - |asked|);
      assert made[|made| - 1] == last;
    }
  }

  /** In every run, whatever the stream holds, every operation asked of the operating system is at
      the root or below it, and is on the mapped path of a call of that run. */
  lemma OperationsConfined(site: Site, base: string, data: string, i: nat)
    requires IsClean(site.root) && !EndsUp(site.root)
    ensures var ops, made := OpsOfRun(site, base, data),
                             AllMade(Run(FileSystemHandler(site), site.ending, Start(base, data)));
            i < |ops| ==> Confined(site.root, ops[i].path) && MappedFrom(site, made, ops[i].path)
  {
    hide Run, Prefixed, Confined, OpsFor, Clean, ParseLine, Calls, LastOffer;
    var h := FileSystemHandler(site);
    var o := Run(h, site.ending, Start(base, data));
    var ops, asked, made := OpsOfRun(site, base, data), OpsOf(site, Calls(o.state.log)), AllMade(o);
    if i < |ops| {
      var k: nat;
      if i < |asked| {
        OpsOfMade(site, Calls(o.state.log), i);
        k :| 0 <= k < |Calls(o.state.log)| && Prefixed(site.root, Calls(o.state.log)[k].call.path) == Some(asked[i].path);
        assert made[k] == Calls(o.state.log)[k];
      } else {
        k := |Calls(o.state.log)|;
        assert made[k] == o.refused[0];
        OpsAreMapped(site, asked, o.refused[0].call, LastOffer(o), i - |asked|);
      }
      assert k < |made| && Prefixed(site.root, made[k].call.path) == Some(ops[i].path);
      PrefixedConfines(site.root, made[k].call.path);
    }
  }

  // ---- What a run got done ----

  /** A Close that comes right after a Copy is the one that is checked; the other is the deferred
      one, whose answer is dropped. */
  predicate Deferred(ops: seq<Op>, k: nat)
    requires k < |ops|
  {
    ops[k].CloseOp? && k > 0 && !ops[k - 1].CopyOp?
  }

  /** From operation m on, every one was answered without a fault when it came, deferred Closes
      apart. */
  predicate DoneSince(site: Site, ops: seq<Op>, m: nat) {
    forall k | m <= k < |ops| :: Answered(site, [], ops, k) || Deferred(ops, k)
  }

  /** The handler took each call, with the content it was offered. */
  ghost predicate AllTaken(site: Site, made: seq<Made>) {
    forall k | 0 <= k < |made| :: Took(site, made[..k], made[k])
  }

  predicate Took(site: Site, before: seq<Made>, m: Made) {
    if m.call.MkdirCall? then FileSystemHandler(site).mkdir(before, m.call)
    else !FileSystemHandler(site).write(before, m.call, m.content).failed
  }

  lemma AnsweredBehind(site: Site, asked: seq<Op>, ops: seq<Op>, j: nat)
    requires j < |ops|
    ensures Answered(site, [], asked + ops, |asked| + j) <==> Answered(site, asked, ops, j)
  {
    assert (asked + ops)[..|asked| + j] == asked + ops[..j];
    assert [] + (asked + ops[..j]) == asked + ops[..j];
  }

  lemma DeferredIs(site: Site, asked: seq<Op>, call: Call, p: string, window: string, ops: seq<Op>, n: nat, j: nat)
    requires Follows(site, asked, call, p, window, ops, n) && j < |ops|
    ensures Deferred(asked + ops, |asked| + j) <==> j >= n && n != 2
  {
    hide Answered;
    var all, plan := asked + ops, Plan(call, p, window);
    assert all[|asked| + j] == ops[j] && (j > 0 ==> all[|asked| + j - 1] == ops[j - 1]);
    assert j < n ==> ops[j] == ops[..n][j] == plan[j];
    assert 0 < j <= n ==> ops[j - 1] == ops[..n][j - 1] == plan[j - 1];
    assert j >= n ==> ops[j] == ops[n..][j - n];
  }

  predicate DoneAt(site: Site, asked: seq<Op>, ops: seq<Op>, j: nat)
    requires j < |ops|
  {
    Answered(site, asked, ops, j) || Deferred(asked + ops, |asked| + j)
  }

  lemma SinceIs(site: Site, asked: seq<Op>, ops: seq<Op>)
    ensures DoneSince(site, asked + ops, |asked|) <==> forall j | 0 <= j < |ops| :: DoneAt(site, asked, ops, j)
  {
    hide Answered, Deferred;
    var all := asked + ops;
    forall j | 0 <= j < |ops|
      ensures DoneAt(site, asked, ops, j) <==> Answered(site, [], all, |asked| + j) || Deferred(all, |asked| + j)
    {
      AnsweredBehind(site, asked, ops, j);
    }
    if forall j | 0 <= j < |ops| :: DoneAt(site, asked, ops, j) {
      forall k | |asked| <= k < |all|
        ensures Answered(site, [], all, k) || Deferred(all, k)
      {
        assert DoneAt(site, asked, ops, k - |asked|);
      }
    }
  }

  /** The operations of one call behind those of the calls before it: the handler takes the call
      if and only if they were all done and the reader did not break. */
  lemma CallDone(site: Site, made: seq<Made>, call: Call, window: string)
    requires Prefixed(site.root, call.path).Some?
    ensures var asked := OpsOf(site, made);
            Took(site, made, Made(call, window))
            <==> DoneSince(site, asked + OpsFor(site, asked, call, window), |asked|) && !CutShort(site, call, window)
  {
    hide Prefixed, OpsOf, OpsFor, Answered, FileSystemHandler, Deferred;
    var asked, p := OpsOf(site, made), Prefixed(site.root, call.path).value;
    var ops := OpsFor(site, asked, call, window);
    var plan := Plan(call, p, window);
    var n := HandlerAnswers(site, made, call, window);
    SinceIs(site, asked, ops);
    forall j | 0 <= j < |ops|
      ensures DoneAt(site, asked, ops, j) <==> Answered(site, asked, ops, j) || (j >= n && n != 2)
    {
      DeferredIs(site, asked, call, p, window, ops, n, j);
    }
    assert DoneAt(site, asked, ops, n - 1) <==> Answered(site, asked, ops, n - 1);
    assert call.WriteCall? ==> |plan| >= 3 && plan[1].CopyOp?;
    assert n == |plan| && call.MkdirCall? ==> |ops[n..]| == 0;
  }

  lemma {:induction false} OpsDone(site: Site, made: seq<Made>)
    requires AllTaken(site, made)
    ensures DoneSince(site, OpsOf(site, made), 0)
    decreases |made|
  {
    hide Prefixed, OpsFor, Answered, Deferred, Took;
    if made != [] {
      var n := |made| - 1;
      var front, last := made[..n], made[n];
      assert forall k | 0 <= k < n :: front[k] == made[k] && front[..k] == made[..k];
      OpsDone(site, front);
      assert Took(site, front, last);
      TakenPath(site, front, last);
      CallDone(site, front, last.call, last.content);
      DoneConcat(site, OpsOf(site, front), OpsFor(site, OpsOf(site, front), last.call, last.content));
    }
  }

  lemma DoneConcat(site: Site, asked: seq<Op>, ops: seq<Op>)
    requires DoneSince(site, asked, 0) && DoneSince(site, asked + ops, |asked|)
    ensures DoneSince(site, asked + ops, 0)
  {
    forall k | 0 <= k < |asked|
      ensures Answered(site, [], asked + ops, k) || Deferred(asked + ops, k)
    {
      assert Answered(site, [], asked, k) || Deferred(asked, k);
      assert (asked + ops)[..k] == asked[..k];
    }
  }

  lemma TakenPath(site: Site, before: seq<Made>, m: Made)
    requires Took(site, before, m)
    ensures Prefixed(site.root, m.call.path).Some?
  {
    hide Prefixed, OpsOf;
  }

  /** The handler took every call that a run accepted. */
  lemma RunTaken(site: Site, base: string, data: string)
    requires IsClean(site.root)
    ensures AllTaken(site, Calls(Run(FileSystemHandler(site), site.ending, Start(base, data)).state.log))
  {
    hide Run, FileSystemHandler, ParseLine, Behind, Offer, Raw, Calls, PathAt, Pending, Join;
    var h := FileSystemHandler(site);
    var log := Run(h, site.ending, Start(base, data)).state.log;
    var made := Calls(log);
    RunFrames(h, site.ending, base, data);
    forall k | 0 <= k < |made|
      ensures Took(site, made[..k], made[k])
    {
      PlaceFacts(log, k);
      var i := Place(log, k);
      AcceptedTookOffer(site, base, data, i);
      assert LegalItem(h, base, Behind(data, log[..i]), log[..i], log[i]);
    }
  }

  /** In every run the operations of all accepted calls were answered without a fault, deferred
      Closes apart; so were all operations of a run that ended well; and a run that ended with a
      refused directory or file did so because the path did not map, the reader broke, or an
      operation failed. */
  lemma RunIsDone(site: Site, base: string, data: string)
    requires IsClean(site.root)
    ensures var o := Run(FileSystemHandler(site), site.ending, Start(base, data));
            var ops, asked := OpsOfRun(site, base, data), OpsOf(site, Calls(o.state.log));
            && asked <= ops && DoneSince(site, asked, 0)
            && (o.Done? ==> DoneSince(site, ops, 0))
            && (o.Failed? && (o.error.MkdirFailed? || o.error.WriteFailed?) ==>
                  && o.refused != []
                  && (|| Prefixed(site.root, o.refused[0].call.path).None?
                      || CutShort(site, o.refused[0].call, LastOffer(o))
                      || !DoneSince(site, ops, |asked|)))
            && (o.Failed? && o.error.ShortWrite? ==> DoneSince(site, ops, 0))
  {
    hide Run, FileSystemHandler, ParseLine, Prefixed, Calls, PathAt, Pending, Join, OpsFor, OpsOf, Legal, Raws;
    var h := FileSystemHandler(site);
    var o := Run(h, site.ending, Start(base, data));
    var made := Calls(o.state.log);
    RunTaken(site, base, data);
    OpsDone(site, made);
    RunFrames(h, site.ending, base, data);
    if '\n' in o.state.rest {
      BadHeaderErrors(o.state.rest[..LineEnd(o.state.rest)]);
    }
    if o.Failed? && o.refused != [] {
      var call, offer := o.refused[0].call, LastOffer(o);
      if Prefixed(site.root, call.path).Some? {
        CallDone(site, made, call, offer);
        if DoneSince(site, OpsOfRun(site, base, data), |OpsOf(site, made)|) {
          DoneConcat(site, OpsOf(site, made), OpsFor(site, OpsOf(site, made), call, offer));
        }
      } else {
        UnmappedFails(site, made, call, offer);
      }
    }
  }

  lemma UnmappedFails(site: Site, made: seq<Made>, call: Call, window: string)
    requires Prefixed(site.root, call.path).None?
    ensures FileSystemHandler(site).write(made, call, window).failed && !FileSystemHandler(site).mkdir(made, call)
  {
    hide Prefixed;
  }

  // ---- Where a copied directory lands ----

  function TimesOps(path: string, m: Meta): seq<Op> {
    if m.mtime > 0 && m.atime > 0 then [ChtimesOp(path, m.mtime, m.atime)] else []
  }

  /** The operations that create a walked entry at a path, with its nine permission bits. */
  function CreateOps(path: string, e: Tree): seq<Op> {
    match e
    case DirT(m, _) => [MkdirOp(path, m.mode % 0x200)] + TimesOps(path, m)
    case FileT(m, _, content, _) =>
      [OpenOp(path, m.mode % 0x200), CopyOp(path, content), CloseOp(path)] + TimesOps(path, m) + [CloseOp(path)]
  }

  /** The place of a walked entry: its names below the mapped target. */
  function Landing(site: Site, base: string, target: string, e: Tree): string
    requires Under(Abs(base), Abs(e.meta.path)) && Prefixed(site.root, target).Some?
  {
    Follow(Prefixed(site.root, target).value, NamesBelow(base, e.meta.path))
  }

  predicate AllUnder(base: string, es: seq<Tree>) {
    forall i | 0 <= i < |es| :: Under(Abs(base), Abs(es[i].meta.path))
  }

  function LandingOps(site: Site, base: string, target: string, es: seq<Tree>): seq<Op>
    requires AllUnder(base, es) && Prefixed(site.root, target).Some?
  {
    if es == [] then []
    else
      var front, last := es[..|es| - 1], es[|es| - 1];
      LandingOps(site, base, target, front) + CreateOps(Landing(site, base, target, last), last)
  }

  /** The target maps inside the root as it stands, or the entry's own path does not lead there. */
  predicate KeepsPlace(site: Site, base: string, target: string, e: Tree)
    requires Under(Abs(base), Abs(e.meta.path))
  {
    Inside(site.root, Clean(target)) || !Inside(site.root, Rebased(base, target, e.meta.path))
  }

  /** One entry lands at its place exactly under KeepsPlace. */
  lemma EntryLands(site: Site, asked: seq<Op>, base: string, target: string, e: Tree, made: Made)
    requires IsClean(site.root) && site.root != "/" && site.root != "." && AllFine(site)
    requires Recreates(base, target, e, made) && Printable(e)
    ensures Prefixed(site.root, target).Some?
    ensures var ops := OpsFor(site, asked, made.call, made.content);
            && |ops| == |CreateOps(Landing(site, base, target, e), e)|
            && (ops == CreateOps(Landing(site, base, target, e), e) <==> KeepsPlace(site, base, target, e))
  {
    hide Prefixed, Clean, Abs, Inside;
    var names := NamesBelow(base, e.meta.path);
    PrefixedSucceeds(site.root, target);
    PrefixedSucceeds(site.root, made.call.path);
    PrefixedFollowsNames(site.root, target, names);
    var p := Prefixed(site.root, made.call.path).value;
    EntryOps(site, asked, e, made, p);
    DifferentPlaces(p, Landing(site, base, target, e), e);
  }

  lemma EntryOps(site: Site, asked: seq<Op>, e: Tree, made: Made, p: string)
    requires AllFine(site) && Prefixed(site.root, made.call.path) == Some(p) && Printable(e)
    requires made.call.mode == e.meta.mode % 0x200 && (made.call.mtime, made.call.atime) == SentTimes(e.meta)
    requires if e.FileT? then made.call.WriteCall? && made.content == e.content && made.call.size == |e.content|
             else made.call.MkdirCall?
    ensures OpsFor(site, asked, made.call, made.content) == CreateOps(p, e)
  {
    hide Prefixed, Printable;
    assert Chtimes(site, asked, made.call) == (true, TimesOps(p, e.meta));
    if e.FileT? {
      var three := [OpenOp(p, made.call.mode), CopyOp(p, made.content), CloseOp(p)];
      assert Chtimes(site, asked + three, made.call) == (true, TimesOps(p, e.meta));
    } else {
      assert Chtimes(site, asked + [MkdirOp(p, made.call.mode)], made.call) == (true, TimesOps(p, e.meta));
    }
  }

  lemma DifferentPlaces(p: string, q: string, e: Tree)
    ensures |CreateOps(p, e)| == |CreateOps(q, e)|
    ensures CreateOps(p, e) == CreateOps(q, e) <==> p == q
  {
    assert CreateOps(p, e)[0].path == p && CreateOps(q, e)[0].path == q;
  }

  /** No entry's path enters the root from a target outside of it. */
  predicate AllKeep(site: Site, base: string, target: string, es: seq<Tree>)
    requires AllUnder(base, es)
  {
    forall i | 0 <= i < |es| :: KeepsPlace(site, base, target, es[i])
  }

  lemma KeepSnoc(site: Site, base: string, target: string, es: seq<Tree>)
    requires es != [] && AllUnder(base, es)
    ensures AllKeep(site, base, target, es)
            <==> AllKeep(site, base, target, es[..|es| - 1]) && KeepsPlace(site, base, target, es[|es| - 1])
  {
    hide KeepsPlace, Under;
    var front := es[..|es| - 1];
    assert forall i | 0 <= i < |front| :: front[i] == es[i];
  }

  lemma KeepNone(site: Site, base: string, target: string)
    ensures AllKeep(site, base, target, [])
  {
  }

  lemma AllRecreatedUnder(base: string, target: string, es: seq<Tree>, made: seq<Made>)
    requires RecreatesAll(base, target, es, made)
    ensures AllUnder(base, es)
  {
    hide Under, Rebased, NamesBelow, Perm;
    forall i | 0 <= i < |es|
      ensures Under(Abs(base), Abs(es[i].meta.path))
    {
      assert Recreates(base, target, es[i], made[i]);
    }
  }

  lemma {:induction false} WalkLands(site: Site, base: string, target: string, es: seq<Tree>, made: seq<Made>)
    requires IsClean(site.root) && site.root != "/" && site.root != "." && AllFine(site)
    requires RecreatesAll(base, target, es, made) && forall i | 0 <= i < |es| :: Printable(es[i])
    ensures Prefixed(site.root, target).Some? && AllUnder(base, es)
    ensures |OpsOf(site, made)| == |LandingOps(site, base, target, es)|
    ensures OpsOf(site, made) == LandingOps(site, base, target, es) <==> AllKeep(site, base, target, es)
    decreases |es|
  {
    hide Prefixed, Clean, Abs, Inside, OpsFor, CreateOps, AllKeep, KeepsPlace, Landing, Printable, Recreates, Under, IsClean;
    PrefixedSucceeds(site.root, target);
    AllRecreatedUnder(base, target, es, made);
    if es == [] {
      KeepNone(site, base, target);
    } else {
      var n := |es| - 1;
      var front, last := es[..n], es[n];
      RecreatesFront(base, target, es, made);
      assert forall i | 0 <= i < n :: front[i] == es[i];
      WalkLands(site, base, target, front, made[..n]);
      var asked, pieces := OpsOf(site, made[..n]), OpsFor(site, OpsOf(site, made[..n]), made[n].call, made[n].content);
      EntryLands(site, asked, base, target, last, made[n]);
      EqualPieces(asked, pieces, LandingOps(site, base, target, front), CreateOps(Landing(site, base, target, last), last));
      KeepSnoc(site, base, target, es);
    }
  }

  lemma RecreatesFront(base: string, target: string, es: seq<Tree>, made: seq<Made>)
    requires RecreatesAll(base, target, es, made) && es != []
    ensures RecreatesAll(base, target, es[..|es| - 1], made[..|es| - 1])
  {
    hide Recreates;
  }

  lemma EqualPieces<T>(a: seq<T>, b: seq<T>, x: seq<T>, y: seq<T>)
    requires |a| == |x| && |b| == |y|
    ensures a + b == x + y <==> a == x && b == y
  {
    if a + b == x + y {
      assert (a + b)[..|a|] == a && (x + y)[..|a|] == x;
      assert (a + b)[|a|..] == b && (x + y)[|a|..] == y;
    }
  }

  /** A walked directory, sent and received through the file system handler: the operating system
      is asked to create exactly the walked entries, in order, each at its names below the mapped
      target, if and only if no entry's path enters the root from a target outside of it. */
  lemma CopyLands(site: Site, base: string, target: string, ts: seq<Tree>)
    requires IsClean(site.root) && site.root != "/" && site.root != "." && AllFine(site)
    requires WellPathed(ts) && SameParent(ts, base) && AllPrintable(ts) && NamesSeparate(ts)
    requires site.ending == Eof
    ensures Prefixed(site.root, target).Some? && AllUnder(base, Preorder(ts))
    ensures var sent, es := Print(AppendAll([], Preorder(ts))), Preorder(ts);
            && Run(FileSystemHandler(site), Eof, Start(target, sent.bytes)).Done?
            && (OpsOfRun(site, target, sent.bytes) == LandingOps(site, base, target, es)
                <==> AllKeep(site, base, target, es))
  {
    hide Run, Print, AppendAll, Preorder, OpsOf, LandingOps, AllKeep, Recreates, Printable, NamesSeparate;
    hide Prefixed, Clean, FileSystemHandler;
    var h := FileSystemHandler(site);
    var sent, es := Print(AppendAll([], Preorder(ts))), Preorder(ts);
    FileSystemHandlerWorks(site);
    CopyOfDirectory(h, base, target, ts);
    var o := Run(h, Eof, Start(target, sent.bytes));
    WalkPrintable(ts);
    EachPrintable(es);
    WalkLands(site, base, target, es, AllMade(o));
    assert AllMade(o) == Calls(o.state.log) + [] == Calls(o.state.log);
  }

  lemma {:induction false} EachPrintable(es: seq<Tree>)
    requires AllPrintable(es)
    ensures forall i | 0 <= i < |es| :: Printable(es[i])
    decreases |es|
  {
    hide Printable;
    if es != [] {
      EachPrintable(es[1..]);
      assert forall i | 0 < i < |es| :: es[i] == es[1..][i - 1];
    }
  }

  /** Below an absolute root a relative target always keeps every entry's place. */
  lemma RelativeKeepsPlace(site: Site, base: string, target: string, e: Tree)
    requires IsClean(site.root) && Rooted(site.root) && site.root != "/" && !Rooted(target)
    requires Under(Abs(base), Abs(e.meta.path)) && AllPlain(NamesBelow(base, e.meta.path))
    ensures KeepsPlace(site, base, target, e)
  {
    var names := NamesBelow(base, e.meta.path);
    FollowFacts(site.root, target, names);
    InsideMeansUnder(site.root, Follow(target, names));
  }
}
