/** The receiving side undoes the printing side. */
module RoundTrip {
  import opened Text
  import opened Paths
  import opened Headers
  import opened Trees
  import opened Parser
  import opened RunLaws
  import opened Streaming

  // ---- The domain ----

  predicate Timed(m: Meta) {
    m.mtime > 0 && m.atime > 0
  }

  /** What the line formats can carry: a valid name on one line, permissions of three octal
      digits, times of ten digits if they are sent, and a content of the announced length. */
  predicate Printable(t: Tree) {
    && ValidName(t.meta.name) && '\n' !in t.meta.name
    && Perm(t.meta.mode) >= 0x40
    && (Timed(t.meta) ==> TenDigits(t.meta.mtime) && TenDigits(t.meta.atime))
    && (t.FileT? ==> !t.broken && t.size == |t.content| < INT64_LIMIT)
  }

  predicate AllPrintable(ts: seq<Tree>) {
    ts == []
    || (Printable(ts[0]) && (ts[0].DirT? ==> AllPrintable(ts[0].kids)) && AllPrintable(ts[1..]))
  }

  /** A handler that takes every directory and every complete file. */
  ghost predicate Accepting(h: Handler) {
    && (forall made: seq<Made>, call: Call :: h.mkdir(made, call))
    && (forall made: seq<Made>, call: Call, window: string ::
          call.WriteCall? && |window| == call.size ==>
            var r := h.write(made, call, window);
            !r.failed && r.taken >= |window| && r.written == |window|)
  }

  // ---- What a printed forest should make the receiver do ----

  function SentTimes(m: Meta): (nat, nat) {
    if Timed(m) then (m.mtime, m.atime) else (0, 0)
  }

  /** The call for one entry, in the directory `dir` of the receiver. */
  function MadeFor(dir: string, t: Tree): Made {
    var (mtime, atime) := SentTimes(t.meta);
    var path := Join(dir, t.meta.name);
    match t
    case FileT(m, _, content, _) =>
      Made(WriteCall(m.name, path, Perm(m.mode), |content|, mtime, atime), content)
    case DirT(m, _) => Made(MkdirCall(m.name, path, Perm(m.mode), mtime, atime), "")
  }

  /** The calls that recreate a forest in a directory, parents first. */
  function Events(dir: string, ts: seq<Tree>): seq<Made>
    decreases ts
  {
    if ts == [] then []
    else
      [MadeFor(dir, ts[0])]
      + (if ts[0].DirT? then Events(Join(dir, ts[0].meta.name), ts[0].kids) else [])
      + Events(dir, ts[1..])
  }

  function TimeItems(m: Meta): seq<Item> {
    if Timed(m) then [TimeItem(TimeLine(m.mtime, m.atime))] else []
  }

  function EntryItem(dir: string, t: Tree): Item {
    match t
    case FileT(m, size, content, _) =>
      FileItem(FileLine(m.mode, size, m.name), MadeFor(dir, t).call, content, "\0")
    case DirT(m, _) => DirItem(DirLine(m.mode, m.name), MadeFor(dir, t).call)
  }

  /** The items the receiver accepts when it reads a printed forest. */
  function Items(dir: string, ts: seq<Tree>): seq<Item>
    decreases ts
  {
    if ts == [] then []
    else
      TimeItems(ts[0].meta) + [EntryItem(dir, ts[0])]
      + (if ts[0].DirT? then Items(Join(dir, ts[0].meta.name), ts[0].kids) + [EndItem] else [])
      + Items(dir, ts[1..])
  }

  /** Leaving a directory cleans the path; before that it is as it was given. */
  function PathAfter(path: string, ts: seq<Tree>): string
    decreases |ts|
  {
    if ts == [] then path else PathAfter(if ts[0].DirT? then Clean(path) else path, ts[1..])
  }

  /** The state after some accepted items, with no times pending. */
  function Advance(st: State, path: string, items: seq<Item>, rest: string): State {
    State(path, 0, 0, rest, st.log + items, st.acks + AcksFor(items))
  }

  lemma {:induction false} AcksConcat(a: seq<Item>, b: seq<Item>)
    ensures AcksFor(a + b) == AcksFor(a) + AcksFor(b)
    decreases |b|
  {
    if b == [] {
      assert a + b == a;
    } else {
      var front, last := b[..|b| - 1], b[|b| - 1];
      assert a + b == (a + front) + [last];
      assert b == front + [last];
      AcksConcat(a, front);
      ReadSnoc("", a + front, last);
      ReadSnoc("", front, last);
    }
  }

  lemma AdvanceTwice(st: State, p: string, a: seq<Item>, r: string, q: string, b: seq<Item>, s: string)
    ensures Advance(Advance(st, p, a, r), q, b, s) == Advance(st, q, a + b, s)
  {
    AcksConcat(a, b);
    assert (st.log + a) + b == st.log + (a + b);
  }

  // ---- Single lines ----

  /** A T line is read, if there is one. */
  lemma ReadsTimes(h: Handler, ending: Ending, st: State, m: Meta, after: string) returns (next: State)
    requires st.mtime == 0 && st.atime == 0 && st.rest == TimePrefix(m) + after
    requires Timed(m) ==> TenDigits(m.mtime) && TenDigits(m.atime)
    ensures next == State(st.path, SentTimes(m).0, SentTimes(m).1, after,
                          st.log + TimeItems(m), st.acks + |TimeItems(m)|)
    ensures Run(h, ending, st) == Run(h, ending, next)
  {
    hide Run, TimeLine, ParseLine;
    next := State(st.path, SentTimes(m).0, SentTimes(m).1, after, st.log + TimeItems(m), st.acks + |TimeItems(m)|);
    if Timed(m) {
      var line := TimeLine(m.mtime, m.atime);
      LinesAreSingle(m.mtime, m.atime, 0, 0, "");
      TimeLineReadsBack(m.mtime, m.atime);
      RunOfLine(h, ending, st, line, after);
    } else {
      assert next == st;
    }
  }

  /** A file with its content and closing byte is read whole, whatever the content holds. */
  lemma ReadsFile(h: Handler, ending: Ending, st: State, t: Tree, after: string)
    requires Accepting(h) && t.FileT? && Printable(t)
    requires st.mtime == 0 && st.atime == 0 && st.rest == Opening(t).bytes + "\0" + after
    ensures Run(h, ending, st)
         == Run(h, ending, Advance(st, st.path, TimeItems(t.meta) + [EntryItem(st.path, t)], after))
  {
    hide Run, FileLine, ParseLine, TimePrefix, TimeItems, Join, Calls, AcksFor;
    var line := FileLine(t.meta.mode, t.size, t.meta.name);
    var body := t.content + "\0" + after;
    assert Opening(t).bytes + "\0" + after == TimePrefix(t.meta) + (line + "\n" + body);
    var mid := ReadsTimes(h, ending, st, t.meta, line + "\n" + body);
    LinesAreSingle(0, 0, t.meta.mode, t.size, t.meta.name);
    FileLineReadsBack(t.meta.mode, t.size, t.meta.name);
    RunOfLine(h, ending, mid, line, body);
    AcksOfEntry(t.meta, EntryItem(st.path, t));
    TakesAll(h, Calls(mid.log), MadeFor(st.path, t).call, t.content, after);
    assert (st.log + TimeItems(t.meta)) + [EntryItem(st.path, t)]
        == st.log + (TimeItems(t.meta) + [EntryItem(st.path, t)]);
  }

  lemma AcksOfEntry(m: Meta, item: Item)
    ensures AcksFor(TimeItems(m) + [item]) == |TimeItems(m)| + if item.FileItem? then 2 else 1
  {
    ReadSnoc("", TimeItems(m), item);
    ReadSnoc("", [], TimeItem(TimeLine(m.mtime, m.atime)));
    assert [] + TimeItems(m) == TimeItems(m);
  }

  lemma TakesAll(h: Handler, made: seq<Made>, call: Call, content: string, after: string)
    requires Accepting(h) && call.WriteCall? && call.size == |content|
    ensures var body := content + "\0" + after;
            && Window(body, call.size) == content
            && !h.write(made, call, content).failed
            && h.write(made, call, content).written == call.size
            && Taken(h.write(made, call, content), content) == content
            && body[|content|..] == "\0" + after
            && ("\0" + after)[..1] == "\0" && ("\0" + after)[1..] == after
  {
    assert content[..|content|] == content;
  }

  lemma ReadsDir(h: Handler, ending: Ending, st: State, t: Tree, after: string)
    requires Accepting(h) && t.DirT? && Printable(t)
    requires st.mtime == 0 && st.atime == 0 && st.rest == Opening(t).bytes + after
    ensures Run(h, ending, st)
         == Run(h, ending, Advance(st, Join(st.path, t.meta.name), TimeItems(t.meta) + [EntryItem(st.path, t)], after))
  {
    hide Run, DirLine, ParseLine, TimePrefix, TimeItems, Join, Calls, AcksFor;
    var line := DirLine(t.meta.mode, t.meta.name);
    assert Opening(t).bytes + after == TimePrefix(t.meta) + (line + "\n" + after);
    var mid := ReadsTimes(h, ending, st, t.meta, line + "\n" + after);
    LinesAreSingle(0, 0, t.meta.mode, 0, t.meta.name);
    DirLineReadsBack(t.meta.mode, t.meta.name);
    RunOfLine(h, ending, mid, line, after);
    AcksOfEntry(t.meta, EntryItem(st.path, t));
    assert (st.log + TimeItems(t.meta)) + [EntryItem(st.path, t)]
        == st.log + (TimeItems(t.meta) + [EntryItem(st.path, t)]);
  }

  lemma ReadsEnd(h: Handler, ending: Ending, st: State, after: string)
    requires st.mtime == 0 && st.atime == 0 && st.rest == "E\n" + after
    ensures Run(h, ending, st) == Run(h, ending, Advance(st, Dir(st.path), [EndItem], after))
  {
    hide Run, Dir, AcksFor;
    assert "E\n" + after == "E" + "\n" + after;
    RunOfLine(h, ending, st, "E", after);
    EndIsEnd();
    ReadSnoc("", [], EndItem);
    assert [] + [EndItem] == [EndItem];
    assert AcksFor([]) == 0 by {
      NoAcks();
    }
  }

  lemma NoAcks()
    ensures AcksFor([]) == 0
  {}

  // ---- Whole forests ----

  lemma {:induction false} PathAfterClean(path: string, ts: seq<Tree>)
    requires IsClean(path)
    ensures PathAfter(path, ts) == path
    decreases |ts|
  {
    if ts != [] {
      PathAfterClean(path, ts[1..]);
    }
  }

  lemma {:induction false} ItemsOfClean(dir: string, ts: seq<Tree>)
    requires AllPrintable(ts)
    ensures Items(Clean(dir), ts) == Items(dir, ts)
    decreases |ts|
  {
    hide Join, Clean;
    if ts != [] {
      JoinClean(dir, ts[0].meta.name);
      ItemsOfClean(dir, ts[1..]);
    }
  }

  /** The bytes of a forest, cut after the first entry's own header and content. */
  lemma PrintedBytes(ts: seq<Tree>, rest: string)
    requires ts != [] && Print(ts).ok
    ensures Print(ts[1..]).ok && Opening(ts[0]).ok && (ts[0].DirT? ==> Print(ts[0].kids).ok)
    ensures var t, more := ts[0], Print(ts[1..]).bytes + rest;
            Print(ts).bytes + rest ==
            if t.FileT? then Opening(t).bytes + "\0" + more
            else Opening(t).bytes + (Print(t.kids).bytes + ("E\n" + more))
  {
    hide Opening;
    var t := ts[0];
    var b, m := Opening(t).bytes, Print(ts[1..]).bytes;
    if t.FileT? {
      Reassociate(b, "", "\0", m, rest);
      assert b + "" == b;
    } else {
      Reassociate(b, Print(t.kids).bytes, "E\n", m, rest);
    }
  }

  lemma Reassociate(a: string, b: string, c: string, d: string, e: string)
    ensures a + b + c + d + e == a + (b + (c + (d + e)))
    ensures a + b + c + d + e == (a + b) + c + (d + e)
  {}

  lemma {:induction false} PrintsWell(ts: seq<Tree>)
    requires AllPrintable(ts)
    ensures Print(ts).ok
  {
    if ts != [] {
      PrintsWell(ts[1..]);
      if ts[0].DirT? {
        PrintsWell(ts[0].kids);
      }
      assert Opening(ts[0]).ok;
    }
  }

  /** For every printable forest and every following bytes, the receiver accepts exactly the
      items of the forest and then stands at those bytes, in the directory where it began and
      with no times pending. */
  lemma {:induction false} ParseUndoesPrint(h: Handler, ending: Ending, st: State, ts: seq<Tree>, rest: string)
    requires Accepting(h) && AllPrintable(ts)
    requires st.mtime == 0 && st.atime == 0 && st.rest == Print(ts).bytes + rest
    ensures Run(h, ending, st)
         == Run(h, ending, Advance(st, PathAfter(st.path, ts), Items(st.path, ts), rest))
    decreases ts
  {
    hide Run, Print, Join, Dir, Clean, AcksFor, Opening, EntryItem, TimeItems, Printable;
    if ts == [] {
      NothingPrinted(st, rest);
    } else {
      var t, more := ts[0], Print(ts[1..]).bytes + rest;
      PrintsWell(ts);
      PrintedBytes(ts, rest);
      var head := TimeItems(t.meta) + [EntryItem(st.path, t)];
      var mid: State;
      if t.DirT? {
        mid := ReadsWholeDir(h, ending, st, t, more);
      } else {
        ReadsFile(h, ending, st, t, more);
        mid := Advance(st, st.path, head, more);
      }
      ParseUndoesPrint(h, ending, mid, ts[1..], rest);
      ItemsOfClean(st.path, ts[1..]);
      var first := head + (if t.DirT? then Items(Join(st.path, t.meta.name), t.kids) + [EndItem] else []);
      AdvanceTwice(st, mid.path, first, more, PathAfter(mid.path, ts[1..]), Items(mid.path, ts[1..]), rest);
      assert t.FileT? ==> first == head;
    }
  }

  lemma NothingPrinted(st: State, rest: string)
    requires st.mtime == 0 && st.atime == 0 && st.rest == Print([]).bytes + rest
    ensures Advance(st, st.path, [], rest) == st
  {
    assert "" + rest == rest;
  }

  lemma {:induction false} ReadsWholeDir(h: Handler, ending: Ending, st: State, t: Tree, more: string)
    returns (last: State)
    requires Accepting(h) && t.DirT? && Printable(t) && AllPrintable(t.kids)
    requires st.mtime == 0 && st.atime == 0
    requires st.rest == Opening(t).bytes + (Print(t.kids).bytes + ("E\n" + more))
    ensures last == Advance(st, Clean(st.path),
                            TimeItems(t.meta) + [EntryItem(st.path, t)]
                            + (Items(Join(st.path, t.meta.name), t.kids) + [EndItem]), more)
    ensures Run(h, ending, st) == Run(h, ending, last)
    decreases t
  {
    hide Run, Print, Dir, Clean, AcksFor, Opening, EntryItem, TimeItems, Items, Join;
    var inner := Join(st.path, t.meta.name);
    var head, kids := TimeItems(t.meta) + [EntryItem(st.path, t)], Items(inner, t.kids);
    ReadsDir(h, ending, st, t, Print(t.kids).bytes + ("E\n" + more));
    var inside := Advance(st, inner, head, Print(t.kids).bytes + ("E\n" + more));
    ParseUndoesPrint(h, ending, inside, t.kids, "E\n" + more);
    JoinIsClean(st.path, t.meta.name);
    PathAfterClean(inner, t.kids);
    var done := Advance(inside, inner, kids, "E\n" + more);
    ReadsEnd(h, ending, done, more);
    DirOfJoin(st.path, t.meta.name);
    AdvanceTwice(st, inner, head, inside.rest, inner, kids, done.rest);
    AdvanceTwice(st, inner, head + kids, done.rest, Clean(st.path), [EndItem], more);
    assert (head + kids) + [EndItem] == head + (kids + [EndItem]);
    last := Advance(done, Clean(st.path), [EndItem], more);
  }

  lemma JoinIsClean(a: string, c: string)
    requires PlainName(c)
    ensures IsClean(Join(a, c))
  {
    JoinName(a, c);
  }

  /** The items of a forest are its events, with one acknowledgement for each T, D and E line
      and two for each file. */
  lemma {:induction false} CallsOfItems(dir: string, ts: seq<Tree>)
    requires AllPrintable(ts)
    ensures Calls(Items(dir, ts)) == Events(dir, ts)
    decreases ts
  {
    hide Join, MadeFor, TimeLine, FileLine, DirLine, Printable;
    if ts != [] {
      var t := ts[0];
      var head := TimeItems(t.meta) + [EntryItem(dir, t)];
      var inside := if t.DirT? then Items(Join(dir, t.meta.name), t.kids) + [EndItem] else [];
      EntryCalls(dir, t);
      if t.DirT? {
        CallsOfItems(Join(dir, t.meta.name), t.kids);
        CallsSnoc(Items(Join(dir, t.meta.name), t.kids), EndItem);
        assert Calls([EndItem]) == [] by {
          assert [EndItem][..0] == [];
        }
      }
      CallsOfItems(dir, ts[1..]);
      CallsConcat(head + inside, Items(dir, ts[1..]));
      CallsConcat(head, inside);
    }
  }

  lemma EntryCalls(dir: string, t: Tree)
    ensures Calls(TimeItems(t.meta) + [EntryItem(dir, t)]) == [MadeFor(dir, t)]
  {
    CallsSnoc(TimeItems(t.meta), EntryItem(dir, t));
    assert [EntryItem(dir, t)][..0] == [];
    assert Timed(t.meta) ==> TimeItems(t.meta)[..0] == [];
  }

  /** A printed forest alone: the run ends well and has made exactly the forest's events. */
  lemma PrintedRun(h: Handler, target: string, ts: seq<Tree>)
    requires Accepting(h) && AllPrintable(ts)
    ensures Print(ts).ok
    ensures var o := Run(h, Eof, Start(target, Print(ts).bytes));
            && o.Done? && o.state.rest == ""
            && AllMade(o) == Events(target, ts)
            && o.state.path == PathAfter(target, ts)
            && o.state.acks == 2 + AcksFor(Items(target, ts))
  {
    hide Run, PathAfter, Items, AcksFor, Print, Events, Calls;
    var st := Start(target, Print(ts).bytes);
    PrintsWell(ts);
    assert Print(ts).bytes + "" == Print(ts).bytes;
    ParseUndoesPrint(h, Eof, st, ts, "");
    CallsOfItems(target, ts);
    assert [] + Items(target, ts) == Items(target, ts);
    RunTurn(h, Eof, Advance(st, PathAfter(target, ts), Items(target, ts), ""));
    assert Events(target, ts) + [] == Events(target, ts);
  }

  // ---- Outside the domain ----

  /** A name is read up to its first newline. */
  function FirstLine(name: string): string {
    name[..LineEnd(name)]
  }

  lemma CutAtNewline(lead: string, name: string, body: string) returns (more: string)
    ensures lead + name + "\n" + body == lead + FirstLine(name) + "\n" + more
    ensures '\n' !in FirstLine(name)
    ensures '\n' !in name ==> FirstLine(name) == name
  {
    var k := LineEnd(name);
    if k < |name| {
      more := name[k + 1..] + "\n" + body;
      assert name == name[..k] + "\n" + name[k + 1..];
    } else {
      more := body;
      assert name[..k] == name;
    }
  }

  /** Bad times or permissions: the header, or its T line if that is the bad one, is refused as
      unhandled input, and the handler is not called. */
  lemma UnprintableIsRefused(h: Handler, ending: Ending, st: State, t: Tree, after: string)
    requires st.mtime == 0 && st.atime == 0 && st.rest == Opening(t).bytes + after
    requires (Timed(t.meta) && !(TenDigits(t.meta.mtime) && TenDigits(t.meta.atime))) || Perm(t.meta.mode) < 0x40
    ensures var o := Run(h, ending, st);
            && o.Failed? && o.error.Unhandled? && AllMade(o) == Calls(st.log)
            && o.state.log == st.log + (if TenDigits(t.meta.mtime) && TenDigits(t.meta.atime) then TimeItems(t.meta) else [])
  {
    hide Run, FileLine, DirLine, TimeLine, ParseLine, Calls, TimeItems, TimePrefix;
    var m := t.meta;
    if Timed(m) && !(TenDigits(m.mtime) && TenDigits(m.atime)) {
      BadTimes(h, ending, st, t, after);
      assert st.log + [] == st.log;
    } else {
      var mid, line, body := ReadsToHeader(h, ending, st, t, after);
      var name := FirstLine(m.name);
      FileLineReadsBack(m.mode, if t.FileT? then t.size else 0, name);
      DirLineReadsBack(m.mode, name);
      RunOfLine(h, ending, mid, line, body);
      TimesMakeNoCalls(st.log, m);
      SentOrNot(m);
      assert Calls(mid.log) + [] == Calls(mid.log);
    }
  }

  lemma BadTimes(h: Handler, ending: Ending, st: State, t: Tree, after: string)
    requires st.mtime == 0 && st.atime == 0 && st.rest == Opening(t).bytes + after
    requires Timed(t.meta) && !(TenDigits(t.meta.mtime) && TenDigits(t.meta.atime))
    ensures var o := Run(h, ending, st);
            o.Failed? && o.error.Unhandled? && o.state == st && AllMade(o) == Calls(st.log)
  {
    hide Run, FileLine, DirLine, TimeLine, ParseLine, Calls;
    var line, m := TimeLine(t.meta.mtime, t.meta.atime), t.meta;
    LinesAreSingle(m.mtime, m.atime, 0, 0, "");
    TimeLineReadsBack(m.mtime, m.atime);
    var body := st.rest[|line| + 1..];
    assert st.rest == line + "\n" + body;
    RunOfLine(h, ending, st, line, body);
    assert Calls(st.log) + [] == Calls(st.log);
  }

  lemma SentOrNot(m: Meta)
    ensures !Timed(m) ==> TimeItems(m) == []
  {}

  lemma TimesMakeNoCalls(log: seq<Item>, m: Meta)
    ensures Calls(log + TimeItems(m)) == Calls(log)
  {
    CallsConcat(log, TimeItems(m));
    if Timed(m) {
      assert TimeItems(m)[..0] == [];
      assert Calls(log) + [] == Calls(log);
    } else {
      assert log + TimeItems(m) == log;
    }
  }

  lemma OpeningParts(t: Tree, after: string)
    ensures var m := t.meta;
            var lead := if t.FileT? then "C" + OctalPerms(m.mode) + " " + FormatInt(t.size) + " "
                        else "D" + OctalPerms(m.mode) + " 0 ";
            var content := (if t.FileT? then t.content else "") + after;
            Opening(t).bytes + after == TimePrefix(m) + (lead + m.name + "\n" + content)
  {
    hide TimePrefix, OctalPerms, FormatInt;
  }

  /** Behind good times, or none, the loop stands at an entry's header, which ends with the first
      line of its name. */
  lemma ReadsToHeader(h: Handler, ending: Ending, st: State, t: Tree, after: string)
    returns (mid: State, line: string, body: string)
    requires st.mtime == 0 && st.atime == 0 && st.rest == Opening(t).bytes + after
    requires Timed(t.meta) ==> TenDigits(t.meta.mtime) && TenDigits(t.meta.atime)
    ensures var name := FirstLine(t.meta.name);
            && '\n' !in name && ('\n' !in t.meta.name ==> name == t.meta.name)
            && line == (if t.FileT? then FileLine(t.meta.mode, t.size, name) else DirLine(t.meta.mode, name))
    ensures '\n' !in line && mid.rest == line + "\n" + body
    ensures mid == State(st.path, SentTimes(t.meta).0, SentTimes(t.meta).1, mid.rest,
                         st.log + TimeItems(t.meta), st.acks + |TimeItems(t.meta)|)
    ensures Run(h, ending, st) == Run(h, ending, mid)
  {
    hide Run, TimePrefix, TimeItems, SentTimes, Opening, OctalPerms, FormatInt, FirstLine;
    var m := t.meta;
    var lead := if t.FileT? then "C" + OctalPerms(m.mode) + " " + FormatInt(t.size) + " "
                else "D" + OctalPerms(m.mode) + " 0 ";
    var content := (if t.FileT? then t.content else "") + after;
    OpeningParts(t, after);
    mid := ReadsTimes(h, ending, st, m, lead + m.name + "\n" + content);
    body := CutAtNewline(lead, m.name, content);
    line := lead + FirstLine(m.name);
    LinesAreSingle(0, 0, m.mode, if t.FileT? then t.size else 0, FirstLine(m.name));
  }

  /** What a call shows of its entry apart from its path: the name, and the size of a file. */
  function Face(m: Made): (string, int) {
    (m.call.name, if m.call.WriteCall? then m.call.size else -1)
  }

  function Faces(made: seq<Made>): seq<(string, int)> {
    seq(|made|, i requires 0 <= i < |made| => Face(made[i]))
  }

  function FaceOf(t: Tree): (string, int) {
    (t.meta.name, if t.FileT? then |t.content| else -1)
  }

  function FacesOf(ts: seq<Tree>): seq<(string, int)> {
    if ts == [] then []
    else [FaceOf(ts[0])] + (if ts[0].DirT? then FacesOf(ts[0].kids) else []) + FacesOf(ts[1..])
  }

  lemma FacesConcat(a: seq<Made>, b: seq<Made>)
    ensures Faces(a + b) == Faces(a) + Faces(b)
  {}

  lemma {:induction false} FacesOfEvents(dir: string, ts: seq<Tree>)
    ensures Faces(Events(dir, ts)) == FacesOf(ts)
    decreases ts
  {
    hide Join, SentTimes, Perm;
    if ts != [] {
      var t := ts[0];
      var there := Join(dir, t.meta.name);
      var inside := if t.DirT? then Events(there, t.kids) else [];
      assert Faces([MadeFor(dir, t)]) == [FaceOf(t)];
      if t.DirT? {
        FacesOfEvents(there, t.kids);
      }
      FacesOfEvents(dir, ts[1..]);
      FacesConcat([MadeFor(dir, t)] + inside, Events(dir, ts[1..]));
      FacesConcat([MadeFor(dir, t)], inside);
    }
  }

  /** A run that fails, or whose calls do not begin with these. */
  predicate FailsOrDiffers(o: Outcome, faces: seq<(string, int)>) {
    o.Failed? || !(faces <= Faces(AllMade(o)))
  }

  lemma DiffersFurther(o: Outcome, faces: seq<(string, int)>, more: seq<(string, int)>)
    requires FailsOrDiffers(o, faces) && faces <= more
    ensures FailsOrDiffers(o, more)
  {}

  lemma DiffersAt(o: Outcome, before: seq<Made>, made: Made, face: (string, int))
    requires before + [made] <= AllMade(o) && Face(made) != face
    ensures FailsOrDiffers(o, Faces(before) + [face])
  {
    var all := AllMade(o);
    assert all[|before|] == (before + [made])[|before|];
    assert |Faces(before)| == |before|;
    assert (Faces(before) + [face])[|before|] == face;
    assert Faces(all)[|before|] == Face(made);
  }

  /** An unprintable entry stops the run or makes it show another name or size. */
  lemma UnprintableEntry(h: Handler, ending: Ending, st: State, t: Tree, after: string)
    requires !Printable(t) && Opening(t).ok
    requires st.mtime == 0 && st.atime == 0 && st.rest == Opening(t).bytes + after
    ensures FailsOrDiffers(Run(h, ending, st), Faces(Calls(st.log)) + [FaceOf(t)])
  {
    hide Run, FileLine, DirLine, TimeLine, ParseLine, Calls, TimeItems, TimePrefix, Faces, Join, AllMade, FileStep;
    var m := t.meta;
    if Timed(m) && !(TenDigits(m.mtime) && TenDigits(m.atime)) {
      BadTimes(h, ending, st, t, after);
    } else {
      var mid, line, body := ReadsToHeader(h, ending, st, t, after);
      var name := FirstLine(m.name);
      TimesMakeNoCalls(st.log, m);
      RunOfLine(h, ending, mid, line, body);
      if t.FileT? {
        FileLineReadsBack(m.mode, t.size, name);
        if ParseLine(line).FileHeader? {
          FileIsMade(h, ending, mid, line, body, Perm(m.mode), t.size, name);
          DiffersAt(Run(h, ending, st), Calls(st.log), MadeBy(h, mid, body, Perm(m.mode), t.size, name), FaceOf(t));
        }
      } else {
        DirLineReadsBack(m.mode, name);
        if ParseLine(line).DirHeader? {
          var made := Made(MkdirCall(name, Join(mid.path, name), Perm(m.mode), mid.mtime, mid.atime), "");
          DirIsMade(h, ending, mid, line, body, Perm(m.mode), name);
          DiffersAt(Run(h, ending, st), Calls(st.log), made, FaceOf(t));
        }
      }
    }
  }

  lemma FileIsMade(h: Handler, ending: Ending, st: State, line: string, after: string, mode: nat, size: nat, name: string)
    requires st.rest == line + "\n" + after && '\n' !in line && ParseLine(line) == FileHeader(mode, size, name)
    ensures Calls(st.log) + [MadeBy(h, st, after, mode, size, name)] <= AllMade(Run(h, ending, st))
    ensures Face(MadeBy(h, st, after, mode, size, name)) == (name, size)
  {
    hide Run, ParseLine, Join, Calls, FileStep, Window, Taken;
    RunOfLine(h, ending, st, line, after);
    FileStepMakes(h, st, line, after, mode, size, name);
    var p := FileStep(h, st, line, after, mode, size, name);
    if p.More? {
      CallsGrow(h, ending, p.state);
    }
  }

  lemma DirIsMade(h: Handler, ending: Ending, st: State, line: string, after: string, mode: nat, name: string)
    requires st.rest == line + "\n" + after && '\n' !in line && ParseLine(line) == DirHeader(mode, name)
    ensures Calls(st.log) + [Made(MkdirCall(name, Join(st.path, name), mode, st.mtime, st.atime), "")]
            <= AllMade(Run(h, ending, st))
  {
    hide Run, ParseLine, Join, Calls;
    RunOfLine(h, ending, st, line, after);
    var p := DirStep(h, st, line, after, mode, name);
    if p.More? {
      var call := MkdirCall(name, Join(st.path, name), mode, st.mtime, st.atime);
      DirItemCalls(st.log, line, call);
      CallsGrow(h, ending, p.state);
    }
  }

  lemma DirItemCalls(log: seq<Item>, line: string, call: Call)
    ensures Calls(log + [DirItem(line, call)]) == Calls(log) + [Made(call, "")]
  {
    CallsSnoc(log, DirItem(line, call));
    assert [DirItem(line, call)][..0] == [];
  }

  /** After a printable first entry: where the loop stands, and the calls it has made. */
  lemma ReadsEntry(h: Handler, ending: Ending, st: State, t: Tree, more: string) returns (mid: State)
    requires Accepting(h) && Printable(t) && (t.DirT? ==> AllPrintable(t.kids))
    requires st.mtime == 0 && st.atime == 0
    requires st.rest == if t.FileT? then Opening(t).bytes + "\0" + more
                        else Opening(t).bytes + (Print(t.kids).bytes + ("E\n" + more))
    ensures mid.mtime == 0 && mid.atime == 0 && mid.rest == more
    ensures Run(h, ending, st) == Run(h, ending, mid)
    ensures Faces(Calls(mid.log)) == Faces(Calls(st.log)) + FacesOf([t])
  {
    hide Run, Print, Opening, Printable, Join, Clean, Events, MadeFor, EntryItem, TimeItems, Items;
    hide AcksFor, Calls, Faces, FacesOf;
    var head := TimeItems(t.meta) + [EntryItem(st.path, t)];
    EntryCalls(st.path, t);
    MadeShowsFace(st.path, t);
    if t.FileT? {
      ReadsFile(h, ending, st, t, more);
      mid := Advance(st, st.path, head, more);
      CallsConcat(st.log, head);
      FacesConcat(Calls(st.log), [MadeFor(st.path, t)]);
      FacesOfOne(t);
      assert [FaceOf(t)] + [] == [FaceOf(t)];
    } else {
      mid := ReadsWholeDir(h, ending, st, t, more);
      var inner := Join(st.path, t.meta.name);
      var kids := Items(inner, t.kids) + [EndItem];
      CallsConcat(st.log, head + kids);
      CallsConcat(head, kids);
      CallsSnoc(Items(inner, t.kids), EndItem);
      EndMakesNoCall();
      assert Calls(Items(inner, t.kids)) + [] == Calls(Items(inner, t.kids));
      CallsOfItems(inner, t.kids);
      FacesOfEvents(inner, t.kids);
      FacesConcat(Calls(st.log), [MadeFor(st.path, t)] + Events(inner, t.kids));
      FacesConcat([MadeFor(st.path, t)], Events(inner, t.kids));
      FacesOfOne(t);
    }
  }

  lemma EndMakesNoCall()
    ensures Calls([EndItem]) == []
  {
    assert [EndItem][..0] == [];
  }

  lemma MadeShowsFace(dir: string, t: Tree)
    ensures Faces([MadeFor(dir, t)]) == [FaceOf(t)]
  {
    hide Join;
  }

  lemma FacesOfOne(t: Tree)
    ensures FacesOf([t]) == [FaceOf(t)] + (if t.DirT? then FacesOf(t.kids) else [])
  {
    assert [t][1..] == [];
    assert FacesOf([]) == [];
    var all := [FaceOf(t)] + (if t.DirT? then FacesOf(t.kids) else []);
    assert all + [] == all;
  }

  lemma FacesOfHead(ts: seq<Tree>)
    requires ts != []
    ensures FacesOf(ts) == FacesOf([ts[0]]) + FacesOf(ts[1..])
    ensures [FaceOf(ts[0])] <= FacesOf([ts[0]]) <= FacesOf(ts)
    ensures ts[0].DirT? ==> [FaceOf(ts[0])] + FacesOf(ts[0].kids) <= FacesOf(ts)
  {
    FacesOfOne(ts[0]);
  }

  /** Up to its first unprintable entry a forest is read as it should be; there the run stops or
      goes wrong for good. */
  lemma {:induction false} UnprintableShows(h: Handler, ending: Ending, st: State, ts: seq<Tree>, rest: string)
    requires Accepting(h) && Print(ts).ok && !AllPrintable(ts)
    requires st.mtime == 0 && st.atime == 0 && st.rest == Print(ts).bytes + rest
    ensures FailsOrDiffers(Run(h, ending, st), Faces(Calls(st.log)) + FacesOf(ts))
    decreases ts
  {
    hide Run, Print, Opening, Printable, Calls, Faces, FacesOf, FailsOrDiffers, FaceOf, Join;
    var t, more, o := ts[0], Print(ts[1..]).bytes + rest, Run(h, ending, st);
    var f := Faces(Calls(st.log));
    PrintedBytes(ts, rest);
    FacesOfHead(ts);
    if !Printable(t) {
      var after := if t.FileT? then "\0" + more else Print(t.kids).bytes + ("E\n" + more);
      assert Opening(t).bytes + "\0" + more == Opening(t).bytes + ("\0" + more);
      UnprintableEntry(h, ending, st, t, after);
      DiffersFurther(o, f + [FaceOf(t)], f + FacesOf(ts));
    } else if t.DirT? && !AllPrintable(t.kids) {
      var mid := ReadsIntoDir(h, ending, st, t, Print(t.kids).bytes + ("E\n" + more));
      UnprintableShows(h, ending, mid, t.kids, "E\n" + more);
      assert (f + [FaceOf(t)]) + FacesOf(t.kids) == f + ([FaceOf(t)] + FacesOf(t.kids));
      DiffersFurther(o, f + ([FaceOf(t)] + FacesOf(t.kids)), f + FacesOf(ts));
    } else {
      var mid := ReadsEntry(h, ending, st, t, more);
      UnprintableShows(h, ending, mid, ts[1..], rest);
      assert (f + FacesOf([t])) + FacesOf(ts[1..]) == f + (FacesOf([t]) + FacesOf(ts[1..]));
    }
  }

  lemma ReadsIntoDir(h: Handler, ending: Ending, st: State, t: Tree, after: string) returns (mid: State)
    requires Accepting(h) && t.DirT? && Printable(t)
    requires st.mtime == 0 && st.atime == 0 && st.rest == Opening(t).bytes + after
    ensures mid.mtime == 0 && mid.atime == 0 && mid.rest == after
    ensures Run(h, ending, st) == Run(h, ending, mid)
    ensures Faces(Calls(mid.log)) == Faces(Calls(st.log)) + [FaceOf(t)]
  {
    hide Run, Opening, Printable, Join, MadeFor, EntryItem, TimeItems, AcksFor, Calls, Faces;
    var head := TimeItems(t.meta) + [EntryItem(st.path, t)];
    ReadsDir(h, ending, st, t, after);
    mid := Advance(st, Join(st.path, t.meta.name), head, after);
    EntryCalls(st.path, t);
    MadeShowsFace(st.path, t);
    CallsConcat(st.log, head);
    FacesConcat(Calls(st.log), [MadeFor(st.path, t)]);
  }

  /** The exact domain: a forest printed to an accepting receiver arrives, all of it and nothing
      else, if and only if every entry is printable. */
  lemma ExactDomain(h: Handler, target: string, ts: seq<Tree>)
    requires Accepting(h)
    ensures var o := Run(h, Eof, Start(target, Print(ts).bytes));
            Print(ts).ok && o.Done? && AllMade(o) == Events(target, ts) <==> AllPrintable(ts)
  {
    hide Run, Print, Events, Printable, Faces, FacesOf, Items, AcksFor, PathAfter;
    var st := Start(target, Print(ts).bytes);
    if AllPrintable(ts) {
      PrintedRun(h, target, ts);
    } else if Print(ts).ok {
      assert Print(ts).bytes + "" == Print(ts).bytes;
      UnprintableShows(h, Eof, st, ts, "");
      FacesOfEvents(target, ts);
      assert Calls([]) == [] && Faces([]) == [] by {
        NothingShown();
      }
      assert [] + FacesOf(ts) == FacesOf(ts);
    }
  }

  lemma NothingShown()
    ensures Calls([]) == [] && Faces([]) == []
  {}
}
