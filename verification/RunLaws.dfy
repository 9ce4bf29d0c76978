/** Laws of every run of the receiving side, for every stream and every handler. */
module RunLaws {
  import opened Text
  import opened Paths
  import opened Headers
  import opened Parser

  // ---- Reading a log ----

  /** The current directory, from the D and E lines of the log. */
  function PathAt(base: string, log: seq<Item>): string {
    if log == [] then base
    else
      var before, item := PathAt(base, log[..|log| - 1]), log[|log| - 1];
      if item.DirItem? then Join(before, item.call.name)
      else if item.EndItem? then Dir(before)
      else before
  }

  /** The times that wait for the next file or directory: those of the last T line since the
      previous C or D line. */
  function Pending(log: seq<Item>): (nat, nat) {
    if log == [] then (0, 0)
    else
      var item := log[|log| - 1];
      if item.TimeItem? && ParseLine(item.line).TimeHeader? then
        (ParseLine(item.line).mtime, ParseLine(item.line).atime)
      else if item.EndItem? then Pending(log[..|log| - 1])
      else (0, 0)
  }

  function CountTimes(log: seq<Item>): nat {
    if log == [] then 0 else CountTimes(log[..|log| - 1]) + if log[|log| - 1].TimeItem? then 1 else 0
  }

  function CountFiles(log: seq<Item>): nat {
    if log == [] then 0 else CountFiles(log[..|log| - 1]) + if log[|log| - 1].FileItem? then 1 else 0
  }

  function CountDirs(log: seq<Item>): nat {
    if log == [] then 0 else CountDirs(log[..|log| - 1]) + if log[|log| - 1].DirItem? then 1 else 0
  }

  function CountEnds(log: seq<Item>): nat {
    if log == [] then 0 else CountEnds(log[..|log| - 1]) + if log[|log| - 1].EndItem? then 1 else 0
  }

  function AcksFor(log: seq<Item>): nat {
    CountTimes(log) + 2 * CountFiles(log) + CountDirs(log) + CountEnds(log)
  }

  // ---- Legal logs ----

  /** The bytes of the stream behind those that a log has used. */
  function Behind(data: string, log: seq<Item>): string {
    if |Raws(log)| <= |data| then data[|Raws(log)|..] else ""
  }

  /** What the reader of a file can deliver, the file's header line standing first in `from`. */
  function Offer(from: string, line: string, size: nat): string {
    if |line| < |from| then Window(from[|line| + 1..], size) else ""
  }

  /** An item stands in the stream and says what its own header line says, in the place and with
      the times the log before it gives; and the handler accepted it: a directory by its answer,
      a file, offered the bytes behind its header, by reporting exactly the declared size. */
  predicate LegalItem(h: Handler, base: string, from: string, log: seq<Item>, item: Item) {
    Raw(item) <= from &&
    match item
    case TimeItem(line) => '\n' !in line && ParseLine(line).TimeHeader?
    case FileItem(line, call, content, tail) =>
      && '\n' !in line && call.WriteCall?
      && ParseLine(line) == FileHeader(call.mode, call.size, call.name)
      && call.path == Join(PathAt(base, log), call.name)
      && (call.mtime, call.atime) == Pending(log)
      && (var window := Offer(from, line, call.size);
          var r := h.write(Calls(log), call, window);
          !r.failed && r.written == call.size && content == Taken(r, window))
      && |tail| <= 1 && (tail == "" ==> Raw(item) == from)
    case DirItem(line, call) =>
      && '\n' !in line && call.MkdirCall?
      && ParseLine(line) == DirHeader(call.mode, call.name)
      && call.path == Join(PathAt(base, log), call.name)
      && (call.mtime, call.atime) == Pending(log)
      && h.mkdir(Calls(log), call)
    case EndItem => true
  }

  predicate Legal(h: Handler, base: string, data: string, log: seq<Item>) {
    forall i | 0 <= i < |log| :: LegalItem(h, base, Behind(data, log[..i]), log[..i], log[i])
  }

  /** The registers of the loop are functions of its log. */
  predicate Registers(base: string, st: State) {
    && st.path == PathAt(base, st.log)
    && (st.mtime, st.atime) == Pending(st.log)
    && st.acks == 1 + AcksFor(st.log)
  }

  predicate Framed(data: string, st: State) {
    data == Raws(st.log) + st.rest
  }

  /** What holds between two turns of the loop. */
  predicate Inv(h: Handler, base: string, data: string, st: State) {
    Legal(h, base, data, st.log) && Framed(data, st) && Registers(base, st)
  }

  lemma LegalSnoc(h: Handler, base: string, data: string, log: seq<Item>, item: Item)
    requires Legal(h, base, data, log) && LegalItem(h, base, Behind(data, log), log, item)
    ensures Legal(h, base, data, log + [item])
  {
    hide LegalItem, Behind;
    var all := log + [item];
    forall i | 0 <= i < |all|
      ensures LegalItem(h, base, Behind(data, all[..i]), all[..i], all[i])
    {
      assert all[..i] == log[..i];
      assert i == |log| ==> log[..i] == log;
    }
  }

  lemma RestIsBehind(data: string, st: State)
    requires Framed(data, st)
    ensures Behind(data, st.log) == st.rest
  {}

  /** Appending one item: the readings of the log follow. */
  lemma ReadSnoc(base: string, log: seq<Item>, item: Item)
    ensures PathAt(base, log + [item]) ==
            if item.DirItem? then Join(PathAt(base, log), item.call.name)
            else if item.EndItem? then Dir(PathAt(base, log))
            else PathAt(base, log)
    ensures AcksFor(log + [item]) == AcksFor(log) + if item.FileItem? then 2 else 1
    ensures item.EndItem? ==> Pending(log + [item]) == Pending(log)
    ensures item.FileItem? || item.DirItem? ==> Pending(log + [item]) == (0, 0)
  {
    assert (log + [item])[..|log|] == log;
  }

  lemma FramedSnoc(data: string, st: State, item: Item, next: State)
    requires Framed(data, st) && next.log == st.log + [item] && st.rest == Raw(item) + next.rest
    ensures Framed(data, next)
  {
    hide Raws, Raw;
    CallsSnoc(st.log, item);
    assert Raws(st.log) + (Raw(item) + next.rest) == (Raws(st.log) + Raw(item)) + next.rest;
  }

  /** The next item of a step and the state after it. */
  predicate StepsBy(st: State, item: Item, next: State) {
    && next.log == st.log + [item]
    && st.rest == Raw(item) + next.rest
    && next.path == (if item.DirItem? then Join(st.path, item.call.name)
                     else if item.EndItem? then Dir(st.path)
                     else st.path)
    && (next.mtime, next.atime) == (if item.TimeItem? && ParseLine(item.line).TimeHeader?
                                    then (ParseLine(item.line).mtime, ParseLine(item.line).atime)
                                    else if item.EndItem? then (st.mtime, st.atime)
                                    else (0, 0))
    && next.acks == st.acks + if item.FileItem? then 2 else 1
  }

  lemma InvSnoc(h: Handler, base: string, data: string, st: State, item: Item, next: State)
    requires Inv(h, base, data, st) && LegalItem(h, base, st.rest, st.log, item) && StepsBy(st, item, next)
    ensures Inv(h, base, data, next)
  {
    hide Framed, LegalItem, ParseLine, Join, Dir;
    RestIsBehind(data, st);
    LegalSnoc(h, base, data, st.log, item);
    FramedSnoc(data, st, item, next);
    ReadSnoc(base, st.log, item);
  }

  lemma FileStepFrames(h: Handler, st: State, line: string, after: string, mode: nat, size: nat, name: string)
    requires FileStep(h, st, line, after, mode, size, name).More?
    ensures var next := FileStep(h, st, line, after, mode, size, name).state;
            && next.log != [] && next.log[|next.log| - 1].FileItem?
            && after == next.log[|next.log| - 1].content + next.log[|next.log| - 1].tail + next.rest
            && |next.log[|next.log| - 1].tail| <= 1
            && (next.log[|next.log| - 1].tail == "" ==> next.rest == "")
  {
    var next := FileStep(h, st, line, after, mode, size, name).state;
    var item := next.log[|st.log|];
    var left := after[|item.content|..];
    assert after == item.content + left;
    assert left == item.tail + next.rest;
  }

  lemma FileStepKeeps(h: Handler, base: string, st: State,
                      line: string, after: string, mode: nat, size: nat, name: string)
    requires st.rest == line + "\n" + after && '\n' !in line
    requires Pending(st.log) == (st.mtime, st.atime) && st.path == PathAt(base, st.log)
    requires ParseLine(line) == FileHeader(mode, size, name)
    requires FileStep(h, st, line, after, mode, size, name).More?
    ensures var next := FileStep(h, st, line, after, mode, size, name).state;
            && next.log != []
            && StepsBy(st, next.log[|next.log| - 1], next)
            && LegalItem(h, base, st.rest, st.log, next.log[|next.log| - 1])
  {
    hide ParseLine, Join, PathAt, Pending;
    var next := FileStep(h, st, line, after, mode, size, name).state;
    var item := next.log[|st.log|];
    FileStepFrames(h, st, line, after, mode, size, name);
    assert Raw(item) + next.rest == line + "\n" + (item.content + item.tail + next.rest);
    assert st.rest[|line| + 1..] == after;
    assert next.rest == "" ==> Raw(item) + next.rest == Raw(item);
  }

  lemma LineStepKeeps(h: Handler, base: string, st: State, line: string, after: string)
    requires st.rest == line + "\n" + after && '\n' !in line
    requires Registers(base, st) && LineStep(h, st, line, after).More?
    ensures var next := LineStep(h, st, line, after).state;
            && next.log != []
            && StepsBy(st, next.log[|next.log| - 1], next)
            && LegalItem(h, base, st.rest, st.log, next.log[|next.log| - 1])
  {
    hide Join, Dir, Calls, FileStep, MatchTime, MatchFile, MatchDir;
    match ParseLine(line)
    case FileHeader(mode, size, name) => FileStepKeeps(h, base, st, line, after, mode, size, name);
    case EndHeader => assert line == "E";
    case _ =>
  }

  lemma StepKeeps(h: Handler, ending: Ending, base: string, data: string, st: State)
    requires Inv(h, base, data, st)
    ensures var p := Step(h, ending, st);
            p.More? ==> Inv(h, base, data, p.state) && st.log <= p.state.log && |p.state.log| == |st.log| + 1
  {
    hide LineStep, ParseLine, PathAt, Pending, AcksFor, Legal, LegalItem, Framed, Registers, Join, Dir, Raw;
    var k := LineEnd(st.rest);
    if k < |st.rest| && Step(h, ending, st).More? {
      var line, after := st.rest[..k], st.rest[k + 1..];
      var next := LineStep(h, st, line, after).state;
      assert st.rest == line + "\n" + after;
      LineStepKeeps(h, base, st, line, after);
      InvSnoc(h, base, data, st, next.log[|next.log| - 1], next);
    }
  }

  // ---- Every run ----

  /** Why a run stopped, at a state between two turns. A file is refused for the answer the
      handler gave to the bytes behind its header. */
  predicate Justified(h: Handler, ending: Ending, st: State, o: Outcome) {
    match o
    case Done(_) => ending.Eof? && '\n' !in st.rest
    case Failed(_, error, refused) =>
      if '\n' !in st.rest then error == ReadLine && ending.Broken? && refused == []
      else
        var line := st.rest[..LineEnd(st.rest)];
        match ParseLine(line)
        case BadHeader(e) => error == e && refused == []
        case FileHeader(mode, size, name) =>
          var call := WriteCall(name, Join(st.path, name), mode, size, st.mtime, st.atime);
          var window := Offer(st.rest, line, size);
          var r := h.write(Calls(st.log), call, window);
          && refused == [Made(call, Taken(r, window))]
          && (if r.failed then error == WriteFailed(name)
              else r.written != size && error == ShortWrite(name, r.written, size))
        case DirHeader(mode, name) =>
          && error == MkdirFailed(name)
          && refused == [Made(MkdirCall(name, Join(st.path, name), mode, st.mtime, st.atime), "")]
          && !h.mkdir(Calls(st.log), refused[0].call)
        case _ => false
  }

  /** The acknowledgements of the last turn: the final one, or that of a file's header. */
  function LastAcks(o: Outcome): nat {
    if o.Done? || o.error.WriteFailed? || o.error.ShortWrite? then 1 else 0
  }

  lemma StopIsJustified(h: Handler, ending: Ending, st: State)
    requires Step(h, ending, st).Stop?
    ensures var o := Step(h, ending, st).outcome;
            Justified(h, ending, st, o) && o.state == st.(acks := st.acks + LastAcks(o))
  {
    hide Join, Dir, Calls, ParseLine;
    var k := LineEnd(st.rest);
    if k < |st.rest| {
      BadHeaderErrors(st.rest[..k]);
    }
  }

  lemma BadHeaderErrors(line: string)
    ensures var header := ParseLine(line);
            header.BadHeader? ==>
              !header.error.WriteFailed? && !header.error.ShortWrite? && !header.error.MkdirFailed?
  {}

  /** The stream is cut, from its start and without gaps, into legal items and what was not
      accepted; the log determines the path, the pending times and the acknowledgements. */
  lemma {:induction false} RunFrom(h: Handler, ending: Ending, base: string, data: string, st: State)
    returns (last: State)
    requires Inv(h, base, data, st)
    ensures var o := Run(h, ending, st);
            && Inv(h, base, data, last)
            && st.log <= last.log
            && Justified(h, ending, last, o)
            && o.state == last.(acks := last.acks + LastAcks(o))
    decreases |st.rest|
  {
    var p := Step(h, ending, st);
    StepKeeps(h, ending, base, data, st);
    if p.More? {
      last := RunFrom(h, ending, base, data, p.state);
    } else {
      last := st;
      StopIsJustified(h, ending, st);
    }
  }

  lemma InvStart(h: Handler, base: string, data: string)
    ensures Inv(h, base, data, Start(base, data))
  {}

  /** Framing: whatever bytes a stream holds, a run accepts a list of legal items that stand
      in it one behind the other, and stops at the first line it cannot accept. */
  lemma RunFrames(h: Handler, ending: Ending, base: string, data: string)
    ensures var o := Run(h, ending, Start(base, data));
            && Legal(h, base, data, o.state.log)
            && data == Raws(o.state.log) + o.state.rest
            && Justified(h, ending, o.state, o)
  {
    InvStart(h, base, data);
    var last := RunFrom(h, ending, base, data, Start(base, data));
  }

  /** A successful run sends 2 + #T + 2#C + #D + #E acknowledgements; a failed one lacks the
      last, and has acknowledged the header of a file whose content was refused. */
  lemma RunAcks(h: Handler, ending: Ending, base: string, data: string)
    ensures var o := Run(h, ending, Start(base, data));
            o.state.acks ==
            match o
            case Done(st) => 2 + CountTimes(st.log) + 2 * CountFiles(st.log) + CountDirs(st.log) + CountEnds(st.log)
            case Failed(st, error, _) =>
              1 + CountTimes(st.log) + 2 * CountFiles(st.log) + CountDirs(st.log) + CountEnds(st.log)
              + if error.WriteFailed? || error.ShortWrite? then 1 else 0
  {
    InvStart(h, base, data);
    var last := RunFrom(h, ending, base, data, Start(base, data));
    assert Registers(base, last);
  }

  /** A handler that reads all its reader offers unless it reports an error, and then reports
      how much that was, as io.Copy does. */
  ghost predicate Drains(h: Handler) {
    forall made: seq<Made>, call: Call, window: string ::
      var r := h.write(made, call, window);
      !r.failed ==> r.taken >= |window| && r.written == |window|
  }

  /** A file whose own handler call drained its reader and was accepted has exactly its declared
      number of bytes, those that stand behind its header. */
  lemma DrainedExactly(h: Handler, ending: Ending, base: string, data: string, i: nat)
    ensures var log := Run(h, ending, Start(base, data)).state.log;
            i < |log| && log[i].FileItem? && log[i].call.WriteCall? ==>
              var window := Offer(Behind(data, log[..i]), log[i].line, log[i].call.size);
              var r := h.write(Calls(log[..i]), log[i].call, window);
              r.taken >= |window| && r.written == |window| ==>
                log[i].content == window && |window| == log[i].call.size
  {
    hide Run, Behind, Offer, ParseLine, PathAt, Pending, Join, Raw;
    RunFrames(h, ending, base, data);
    var log := Run(h, ending, Start(base, data)).state.log;
    if i < |log| {
      assert LegalItem(h, base, Behind(data, log[..i]), log[..i], log[i]);
    }
  }

  /** What a file uses of the bytes before it: its header line, as many bytes as its handler took,
      never more than announced, and one byte more if there is one. */
  predicate UsesUp(h: Handler, before: seq<Item>, item: Item, from: string, rest: string)
    requires item.FileItem? && item.call.WriteCall?
  {
    item.line + "\n" <= from &&
    var after, size := from[|item.line| + 1..], item.call.size;
    var offered := if size <= |after| then size else |after|;
    var taken := h.write(Calls(before), item.call, after[..offered]).taken;
    var n := if taken <= offered then taken else offered;
    item.content == after[..n] && rest == if |after| > n then after[n + 1..] else ""
  }

  /** In every run each accepted file uses up just that. Bytes that the handler left in its reader
      are read as the next line. */
  lemma FileUses(h: Handler, ending: Ending, base: string, data: string, i: nat)
    ensures var log := Run(h, ending, Start(base, data)).state.log;
            i < |log| && log[i].FileItem? && log[i].call.WriteCall? ==>
              UsesUp(h, log[..i], log[i], Behind(data, log[..i]), Behind(data, log[..i + 1]))
  {
    hide Run, Behind, Raw, Raws, LegalItem, Justified, UsesUp;
    RunFrames(h, ending, base, data);
    var log := Run(h, ending, Start(base, data)).state.log;
    if i < |log| && log[i].FileItem? && log[i].call.WriteCall? {
      var from := Behind(data, log[..i]);
      assert LegalItem(h, base, from, log[..i], log[i]);
      LegalFile(h, base, from, log[..i], log[i]);
      assert log[..i + 1] == log[..i] + [log[i]];
      BehindNext(data, log[..i], log[i]);
    }
  }

  lemma LegalFile(h: Handler, base: string, from: string, log: seq<Item>, item: Item)
    requires LegalItem(h, base, from, log, item) && item.FileItem? && item.call.WriteCall?
    ensures Raw(item) != "" && Raw(item) <= from && UsesUp(h, log, item, from, from[|Raw(item)|..])
  {
    hide ParseLine, PathAt, Pending, Join, Calls;
    var line, content, tail := item.line, item.content, item.tail;
    assert Raw(item) == (line + "\n") + content + tail;
    assert from == Raw(item) + from[|Raw(item)|..];
    assert from[..|line| + 1] == line + "\n";
    var after := from[|line| + 1..];
    assert after == content + tail + from[|Raw(item)|..];
    if tail == "" {
      assert from[|Raw(item)|..] == "";
      assert |after| == |content|;
    } else {
      assert |tail| == 1 && |after| > |content|;
      assert from[|Raw(item)|..] == after[|content| + 1..];
    }
  }

  lemma BehindNext(data: string, log: seq<Item>, item: Item)
    requires Raw(item) <= Behind(data, log) && Raw(item) != ""
    ensures Behind(data, log + [item]) == Behind(data, log)[|Raw(item)|..]
  {
    CallsSnoc(log, item);
    assert Raws(log + [item]) == Raws(log) + Raw(item);
  }

  // ---- Every turn ----

  /** The states in which the loop starts its turns. */
  function Turns(h: Handler, ending: Ending, st: State): seq<State>
    decreases |st.rest|
  {
    var p := Step(h, ending, st);
    if p.More? then [st] + Turns(h, ending, p.state) else [st]
  }

  lemma {:induction false} TurnsFrom(h: Handler, ending: Ending, base: string, data: string, st: State, k: nat)
    requires Inv(h, base, data, st)
    ensures var turns, log := Turns(h, ending, st), Run(h, ending, st).state.log;
            && st.log <= log && |turns| == |log| - |st.log| + 1
            && (k < |turns| ==> turns[k].log == log[..|st.log| + k] && Inv(h, base, data, turns[k]))
            && turns[|turns| - 1].path == Run(h, ending, st).state.path
    decreases |st.rest|
  {
    hide Inv, Step, Justified;
    var p := Step(h, ending, st);
    StepKeeps(h, ending, base, data, st);
    if p.More? {
      TurnsFrom(h, ending, base, data, p.state, if k == 0 then 0 else k - 1);
    } else {
      StopIsJustified(h, ending, st);
    }
  }

  /** There is one turn for each accepted item, and one that stops; in each the loop's registers
      are those that the log so far determines. */
  lemma TurnsFollowLog(h: Handler, ending: Ending, base: string, data: string, k: nat)
    ensures var turns, o := Turns(h, ending, Start(base, data)), Run(h, ending, Start(base, data));
            && |turns| == |o.state.log| + 1
            && turns[|turns| - 1].path == o.state.path
            && (k < |turns| ==>
                  && turns[k].log == o.state.log[..k]
                  && turns[k].path == PathAt(base, o.state.log[..k])
                  && (turns[k].mtime, turns[k].atime) == Pending(o.state.log[..k])
                  && turns[k].rest == Behind(data, o.state.log[..k]))
  {
    hide Run, Turns, PathAt, Pending, Legal;
    InvStart(h, base, data);
    TurnsFrom(h, ending, base, data, Start(base, data), k);
    var turns := Turns(h, ending, Start(base, data));
    if k < |turns| {
      RestIsBehind(data, turns[k]);
    }
  }

  // ---- Every call ----

  /** The index of the item that holds call number k. */
  function Place(log: seq<Item>, k: nat): nat
    requires k < |Calls(log)|
  {
    if k < |Calls(log[..|log| - 1])| then Place(log[..|log| - 1], k) else |log| - 1
  }

  /** What had been accepted when call number k was made, the refused call included. */
  function LogBefore(o: Outcome, k: nat): seq<Item>
    requires k < |AllMade(o)|
  {
    if k < |Calls(o.state.log)| && Place(o.state.log, k) <= |o.state.log|
    then o.state.log[..Place(o.state.log, k)]
    else o.state.log
  }

  lemma {:induction false} PlaceFacts(log: seq<Item>, k: nat)
    requires k < |Calls(log)|
    ensures var i := Place(log, k);
            && i < |log| && (log[i].FileItem? || log[i].DirItem?)
            && log[i].call == Calls(log)[k].call && (log[i].FileItem? ==> log[i].content == Calls(log)[k].content)
            && Calls(log[..i]) == Calls(log)[..k]
  {
    var front := log[..|log| - 1];
    CallsSnoc(front, log[|log| - 1]);
    assert log == front + [log[|log| - 1]];
    if k < |Calls(front)| {
      PlaceFacts(front, k);
      assert front[..Place(front, k)] == log[..Place(front, k)];
    }
  }

  /** Call number k announces `call` where the log before it ends: its path is a valid name joined
      to the current directory, its times are the pending ones. */
  predicate Announces(base: string, before: seq<Item>, call: Call) {
    && PlainName(call.name)
    && call.path == Join(PathAt(base, before), call.name)
    && (call.mtime, call.atime) == Pending(before)
  }

  lemma HeaderNames(line: string)
    ensures var header := ParseLine(line);
            (header.FileHeader? || header.DirHeader?) ==> PlainName(header.name)
  {}

  lemma ItemAnnounces(h: Handler, base: string, from: string, log: seq<Item>, item: Item)
    requires LegalItem(h, base, from, log, item) && (item.FileItem? || item.DirItem?)
    ensures Announces(base, log, item.call)
  {
    hide ParseLine, PathAt, Pending, Join, Offer, Raw;
    HeaderNames(item.line);
  }

  lemma RefusedAnnounces(h: Handler, ending: Ending, base: string, st: State, o: Outcome)
    requires Justified(h, ending, st, o) && Registers(base, st) && o.Failed? && o.refused != []
    ensures |o.refused| == 1 && Announces(base, st.log, o.refused[0].call)
  {
    hide ParseLine, PathAt, Pending, Join, Offer;
    HeaderNames(st.rest[..LineEnd(st.rest)]);
  }

  /** Every call of a run, accepted or refused, is announced by its place in the run. */
  lemma EveryCall(h: Handler, ending: Ending, base: string, data: string, k: nat)
    ensures var o := Run(h, ending, Start(base, data));
            k < |AllMade(o)| ==>
              && LogBefore(o, k) <= o.state.log
              && Calls(LogBefore(o, k)) == AllMade(o)[..k]
              && Announces(base, LogBefore(o, k), AllMade(o)[k].call)
  {
    hide Run, Announces, LegalItem, Justified, Registers, Behind;
    InvStart(h, base, data);
    var last := RunFrom(h, ending, base, data, Start(base, data));
    var o := Run(h, ending, Start(base, data));
    if k < |Calls(last.log)| {
      PlaceFacts(last.log, k);
      var i := Place(last.log, k);
      assert LegalItem(h, base, Behind(data, last.log[..i]), last.log[..i], last.log[i]);
      ItemAnnounces(h, base, Behind(data, last.log[..i]), last.log[..i], last.log[i]);
    } else if k < |AllMade(o)| {
      RefusedAnnounces(h, ending, base, last, o);
    }
  }

  // ---- Timestamps ----

  /** The times of a file or directory are those of the item before it, E lines not counted, if
      that is a T line, and zero otherwise. */
  lemma {:induction false} PendingIsLast(log: seq<Item>, j: int)
    requires -1 <= j < |log|
    requires forall m | j < m < |log| :: log[m].EndItem?
    requires j >= 0 ==> !log[j].EndItem?
    ensures Pending(log) ==
            if j >= 0 && log[j].TimeItem? && ParseLine(log[j].line).TimeHeader?
            then (ParseLine(log[j].line).mtime, ParseLine(log[j].line).atime)
            else (0, 0)
  {
    if j < |log| - 1 {
      PendingIsLast(log[..|log| - 1], j);
    }
  }

  /** Item j is the last one of a log that is not an E line. */
  predicate IsLast(log: seq<Item>, j: int) {
    && -1 <= j < |log|
    && (forall m | j < m < |log| :: log[m].EndItem?)
    && (j >= 0 ==> !log[j].EndItem?)
  }

  /** Timestamp attachment, for every call the handler sees: item j is the last one before the call
      that is not an E line. A T line counts if no other C or D line comes between. */
  lemma TimesAttach(h: Handler, ending: Ending, base: string, data: string, k: nat, j: int)
    ensures var o := Run(h, ending, Start(base, data));
            k < |AllMade(o)| && IsLast(LogBefore(o, k), j) ==>
              var before, call := LogBefore(o, k), AllMade(o)[k].call;
              if j >= 0 && before[j].TimeItem?
              then ParseLine(before[j].line) == TimeHeader(call.mtime, call.atime)
              else call.mtime == call.atime == 0
  {
    hide Run, ParseLine, Pending, LogBefore, AllMade, PathAt, Join;
    var o := Run(h, ending, Start(base, data));
    if k < |AllMade(o)| && IsLast(LogBefore(o, k), j) {
      var before := LogBefore(o, k);
      EveryCall(h, ending, base, data, k);
      PendingIsLast(before, j);
      RunFrames(h, ending, base, data);
      if j >= 0 {
        assert before[j] == o.state.log[j];
        assert LegalItem(h, base, Behind(data, o.state.log[..j]), o.state.log[..j], o.state.log[j]);
      }
    }
  }
}
