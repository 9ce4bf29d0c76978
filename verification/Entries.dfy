/** The entry tree on the heap: directories that are appended to in place, and printing. */
module Entries {
  import opened Paths
  import opened Headers
  import opened Trees

  datatype FileEntry = FileEntry(meta: Meta, size: int, content: string, broken: bool)

  datatype Entry = FileE(file: FileEntry) | DirE(dir: DirEntry)

  // ---- Writing to a client that may go away ----

  /** A connection that takes `room` more bytes and then fails; it also keeps a journal of what
      the session did, in order. */
  datatype Act = Put | Closed(id: nat)

  class Writer {
    var out: string
    var room: nat
    var journal: seq<Act>

    constructor (room: nat)
      ensures out == "" && this.room == room && journal == []
    {
      out, journal := "", [];
      this.room := room;
    }

    method Write(p: string) returns (ok: bool)
      modifies this
      ensures Wrote(old(out), old(room), Emitted(p, true), out, room, ok)
      ensures journal == old(journal) + [Put]
    {
      var n := if |p| <= room then |p| else room;
      ok := |p| <= room;
      out := out + p[..n];
      room := room - n;
      journal := journal + [Put];
    }

    method Close(id: nat)
      modifies this`journal
      ensures journal == old(journal) + [Closed(id)]
    {
      journal := journal + [Closed(id)];
    }
  }

  /** What printing `e` does to a connection: all of it arrives, or the part that fits. */
  predicate Wrote(before: string, room: nat, e: Emitted, after: string, left: nat, ok: bool) {
    var n := if |e.bytes| <= room then |e.bytes| else room;
    after == before + e.bytes[..n] && left == room - n && (ok <==> e.ok && |e.bytes| <= room)
  }

  lemma WroteThen(b: string, r: nat, e: Emitted, m: string, s: nat, f: Emitted, a: string, t: nat, ok: bool)
    requires Wrote(b, r, e, m, s, true) && Wrote(m, s, f, a, t, ok)
    ensures Wrote(b, r, Then(e, f), a, t, ok)
  {
    var n := if |f.bytes| <= s then |f.bytes| else s;
    assert (e.bytes + f.bytes)[..|e.bytes| + n] == e.bytes + f.bytes[..n];
    assert e.bytes[..|e.bytes|] == e.bytes;
    assert (b + e.bytes) + f.bytes[..n] == b + (e.bytes + f.bytes[..n]);
  }

  lemma WroteStops(b: string, r: nat, e: Emitted, m: string, s: nat, f: Emitted)
    requires Wrote(b, r, e, m, s, false)
    ensures Wrote(b, r, Then(e, f), m, s, false)
  {
    if e.ok {
      assert (e.bytes + f.bytes)[..r] == e.bytes[..r];
    }
  }

  lemma WroteNothing(b: string, r: nat)
    ensures Wrote(b, r, Emitted("", true), b, r, true)
  {
    assert b + "" == b;
  }

  ghost predicate Puts(acts: seq<Act>) {
    forall i | 0 <= i < |acts| :: acts[i] == Put
  }

  /** The journal went on with writes only. */
  ghost predicate OnlyPuts(before: seq<Act>, after: seq<Act>) {
    before <= after && Puts(after[|before|..])
  }

  // ---- Validity ----

  function FileView(f: FileEntry): Tree {
    FileT(f.meta, f.size, f.content, f.broken)
  }

  ghost function EntryView(e: Entry): Tree
    reads if e.DirE? then {e.dir} else {}
  {
    if e.FileE? then FileView(e.file) else e.dir.view
  }

  ghost function EntryRepr(e: Entry): set<DirEntry>
    reads if e.DirE? then {e.dir} else {}
  {
    if e.FileE? then {} else e.dir.repr
  }

  ghost predicate EntryValid(e: Entry)
    reads if e.DirE? then {e.dir} + e.dir.repr else {}
  {
    e.DirE? ==> e.dir.Valid()
  }

  /** Siblings own disjoint parts of `repr` and stand for `views`. */
  ghost predicate ListValid(es: seq<Entry>, views: seq<Tree>, repr: set<DirEntry>)
    reads repr
    decreases repr, 1
  {
    && |es| == |views|
    && (forall i | 0 <= i < |es| && es[i].FileE? :: views[i] == FileView(es[i].file))
    && (forall i | 0 <= i < |es| && es[i].DirE? ::
          && es[i].dir in repr && es[i].dir.repr <= repr
          && es[i].dir.Valid() && views[i] == es[i].dir.view)
    && (forall i, j | 0 <= i < j < |es| && es[i].DirE? && es[j].DirE? :: es[i].dir.repr !! es[j].dir.repr)
  }

  class DirEntry {
    const meta: Meta
    var children: seq<Entry>
    /** The tree this object stands for, and the objects it is made of. */
    ghost var view: Tree
    ghost var repr: set<DirEntry>

    ghost predicate Valid()
      reads this, repr
      decreases repr, 0
    {
      && this in repr
      && view.DirT? && view.meta == meta
      && ListValid(children, view.kids, repr - {this})
    }

    constructor (meta: Meta)
      ensures Valid() && fresh(repr) && view == DirT(meta, []) && repr == {this}
    {
      this.meta := meta;
      children := [];
      view := DirT(meta, []);
      repr := {this};
    }

    /** dir.Children = append(dir.Children, entry) */
    method Add(e: Entry)
      requires Valid() && EntryValid(e) && EntryRepr(e) !! repr
      modifies this
      ensures Valid() && repr == old(repr) + EntryRepr(e)
      ensures view == DirT(meta, old(view).kids + [EntryView(e)])
      ensures EntryValid(e) && EntryRepr(e) == old(EntryRepr(e)) && EntryView(e) == old(EntryView(e))
    {
      ghost var before, inner := view.kids, repr - {this};
      Snoc(children, before, inner, e);
      children := children + [e];
      view := DirT(meta, before + [EntryView(e)]);
      repr := repr + EntryRepr(e);
      assert repr - {this} == inner + EntryRepr(e);
    }

    /** Append puts the entry where the function on values puts it. */
    method Append(e: Entry)
      requires Valid() && EntryValid(e) && EntryRepr(e) !! repr
      modifies repr
      ensures Valid() && repr == old(repr) + EntryRepr(e)
      ensures view == DirT(meta, Trees.Append(old(view).kids, EntryView(e)))
      ensures EntryValid(e) && EntryRepr(e) == old(EntryRepr(e)) && EntryView(e) == old(EntryView(e))
      decreases repr, 0
    {
      hide AppendAt, Clean, Dir;
      ghost var before, inner := view.kids, repr - {this};
      var parent := Clean(Dir(PathOf(e)));
      var placed := PlaceInChild(children, e, parent, before, inner);
      if placed {
        view := DirT(meta, AppendAt(before, EntryView(e), parent));
        repr := repr + EntryRepr(e);
        assert repr - {this} == inner + EntryRepr(e);
      } else {
        Add(e);
      }
    }

    /** What a capturing directory does with an entry. */
    method Take(e: Entry, parent: string)
      requires Valid() && EntryValid(e) && EntryRepr(e) !! repr && parent == ParentOf(EntryView(e))
      modifies repr
      ensures Valid() && repr == old(repr) + EntryRepr(e)
      ensures view == DirT(meta, if meta.path == parent then old(view).kids + [EntryView(e)]
                                 else AppendAt(old(view).kids, EntryView(e), parent))
      ensures EntryValid(e) && EntryRepr(e) == old(EntryRepr(e)) && EntryView(e) == old(EntryView(e))
      decreases repr, 1
    {
      hide AppendAt, Clean, Dir;
      if meta.path == parent {
        Add(e);
      } else {
        Append(e);
      }
    }

    /** Printing sends what the function on values says, or as much of it as fits. */
    method Write(w: Writer) returns (ok: bool)
      requires Valid()
      modifies w
      ensures Wrote(old(w.out), old(w.room), Print([view]), w.out, w.room, ok)
      ensures OnlyPuts(old(w.journal), w.journal)
      decreases repr, 0
    {
      hide Wrote, Then, Print, TimeLine, DirLine;
      ghost var b, r, j := w.out, w.room, w.journal;
      ghost var inside := Print(view.kids);
      PrintDir(view);
      OpeningOfDir(view);
      ok := WriteOpening(w, meta, DirLine(meta.mode, meta.name) + "\n");
      ghost var m, s := w.out, w.room;
      ghost var opening := Opening(view);
      if !ok {
        WroteStops(b, r, opening, w.out, w.room, Then(inside, Emitted("E\n", true)));
        return;
      }
      ok := WriteAll(children, w, view.kids, repr - {this});
      if ok {
        ghost var n, t := w.out, w.room;
        ok := w.Write("E\n");
        WroteThen(m, s, inside, n, t, Emitted("E\n", true), w.out, w.room, ok);
      } else {
        WroteStops(m, s, inside, w.out, w.room, Emitted("E\n", true));
      }
      WroteThen(b, r, opening, m, s, Then(inside, Emitted("E\n", true)), w.out, w.room, ok);
    }
  }

  function PathOf(e: Entry): string {
    if e.FileE? then e.file.meta.path else e.dir.meta.path
  }

  /** Adding one more sibling to a valid list. */
  lemma Snoc(es: seq<Entry>, views: seq<Tree>, repr: set<DirEntry>, e: Entry)
    requires ListValid(es, views, repr) && EntryValid(e) && EntryRepr(e) !! repr
    ensures ListValid(es + [e], views + [EntryView(e)], repr + EntryRepr(e))
  {}

  lemma {:induction false} AppendAtIndex(views: seq<Tree>, i: nat, e: Tree, parent: string)
    requires i < |views| && Captures(views[i], parent)
    requires forall j | 0 <= j < i :: !Captures(views[j], parent)
    ensures AppendAt(views, e, parent) ==
            views[i := DirT(views[i].meta, if views[i].meta.path == parent then views[i].kids + [e]
                                           else AppendAt(views[i].kids, e, parent))]
    decreases i
  {
    if i > 0 {
      AppendAtIndex(views[1..], i - 1, e, parent);
      assert views == [views[0]] + views[1..];
    }
  }

  /** The loop of Append: the first sibling directory that captures the parent, if any. */
  method FindCaptor(es: seq<Entry>, parent: string, ghost views: seq<Tree>, ghost repr: set<DirEntry>)
    returns (i: nat)
    requires ListValid(es, views, repr)
    ensures i <= |es| && (forall j | 0 <= j < i :: !Captures(views[j], parent))
    ensures i < |es| ==> es[i].DirE? && Captures(views[i], parent)
  {
    hide Clean, Dir;
    i := 0;
    while i < |es|
      invariant i <= |es| && forall j | 0 <= j < i :: !Captures(views[j], parent)
    {
      if es[i].DirE? {
        var dir := es[i].dir;
        if dir.meta.path == parent || Clean(dir.meta.path) <= parent {
          return;
        }
      }
      i := i + 1;
    }
  }

  lemma ListAt(es: seq<Entry>, views: seq<Tree>, repr: set<DirEntry>, i: nat)
    requires ListValid(es, views, repr) && i < |es| && es[i].DirE?
    ensures es[i].dir in repr && es[i].dir.repr <= repr && es[i].dir.Valid()
    ensures |views| == |es| && views[i] == es[i].dir.view && views[i].DirT? && views[i].meta == es[i].dir.meta
  {}

  /** The captor takes the entry, directly if its path is the parent. */
  method PlaceInChild(es: seq<Entry>, e: Entry, parent: string, ghost views: seq<Tree>, ghost repr: set<DirEntry>)
    returns (placed: bool)
    requires ListValid(es, views, repr) && EntryValid(e) && EntryRepr(e) !! repr
    requires parent == ParentOf(EntryView(e))
    modifies repr
    ensures EntryValid(e) && EntryRepr(e) == old(EntryRepr(e)) && EntryView(e) == old(EntryView(e))
    ensures placed ==> ListValid(es, AppendAt(views, EntryView(e), parent), repr + EntryRepr(e))
    ensures !placed ==> unchanged(repr) && AppendAt(views, EntryView(e), parent) == views + [EntryView(e)]
    decreases repr, 2
  {
    hide Clean, Dir, AppendAt;
    var i := FindCaptor(es, parent, views, repr);
    if i < |es| {
      ListAt(es, views, repr, i);
      AppendAtIndex(views, i, EntryView(e), parent);
      var dir := es[i].dir;
      dir.Take(e, parent);
      ghost var now := AppendAt(views, EntryView(e), parent);
      forall j | 0 <= j < |es| && es[j].DirE? && j != i
        ensures es[j].dir.Valid() && es[j].dir.repr == old(es[j].dir.repr) && es[j].dir.view == views[j]
      {
        assert old(es[j].dir.repr !! es[i].dir.repr);
      }
      assert ListValid(es, now, repr + EntryRepr(e));
      return true;
    }
    AppendNowhere(es, views, repr, EntryView(e), parent);
    return false;
  }

  lemma AppendNowhere(es: seq<Entry>, views: seq<Tree>, repr: set<DirEntry>, e: Tree, parent: string)
    requires ListValid(es, views, repr) && forall j | 0 <= j < |es| :: !Captures(views[j], parent)
    ensures AppendAt(views, e, parent) == views + [e]
  {
    AppendPasses(views, [], e, parent);
    AppendToNone(e, parent);
    assert views + [] == views;
  }

  lemma AppendToNone(e: Tree, parent: string)
    ensures AppendAt([], e, parent) == [e]
  {}

  // ---- Printing ----

  lemma PrintDir(t: Tree)
    requires t.DirT?
    ensures Print([t]) == Then(Opening(t), Then(Print(t.kids), Emitted("E\n", true)))
  {
    assert [t][1..] == [];
    ThenAssoc(Opening(t), Print(t.kids), Closing(t));
    var all := Then(Opening(t), Then(Print(t.kids), Closing(t)));
    assert all.bytes + "" == all.bytes;
  }

  lemma PrintFile(f: Tree)
    requires f.FileT?
    ensures Print([f]) == Then(Opening(f), Emitted("\0", true))
  {
    assert [f][1..] == [];
    var o := Opening(f);
    assert Then(o, Emitted("", true)) == o by {
      assert o.bytes + "" == o.bytes;
    }
    var all := Then(o, Closing(f));
    assert all.bytes + "" == all.bytes;
  }

  /** The T line, if both times are positive, and the line after it. */
  method WriteOpening(w: Writer, m: Meta, line: string) returns (ok: bool)
    modifies w
    ensures Wrote(old(w.out), old(w.room), Emitted(TimePrefix(m) + line, true), w.out, w.room, ok)
    ensures OnlyPuts(old(w.journal), w.journal)
  {
    hide TimeLine, Wrote;
    ghost var b, r := w.out, w.room;
    WroteNothing(b, r);
    if m.mtime > 0 && m.atime > 0 {
      ok := w.Write(TimeLine(m.mtime, m.atime) + "\n");
      if !ok {
        WroteStops(b, r, Emitted(TimePrefix(m), true), w.out, w.room, Emitted(line, true));
        return;
      }
    }
    ghost var c, s := w.out, w.room;
    ok := w.Write(line);
    WroteThen(b, r, Emitted(TimePrefix(m), true), c, s, Emitted(line, true), w.out, w.room, ok);
  }

  /** FileEntry.Write: the header, the content as far as its reader goes, and a NUL. */
  method WriteFile(f: FileEntry, w: Writer) returns (ok: bool)
    modifies w
    ensures Wrote(old(w.out), old(w.room), Print([FileView(f)]), w.out, w.room, ok)
    ensures OnlyPuts(old(w.journal), w.journal)
  {
    hide TimePrefix, FileLine, Wrote, Print, Then;
    ghost var b, r, t := w.out, w.room, FileView(f);
    var line := FileLine(f.meta.mode, f.size, f.meta.name) + "\n";
    ghost var header := Emitted(TimePrefix(f.meta) + line, true);
    ghost var content := Emitted(f.content, !f.broken);
    PrintFile(t);
    OpeningOfFile(f);
    ok := WriteOpening(w, f.meta, line);
    if !ok {
      WroteStops(b, r, header, w.out, w.room, content);
      WroteStops(b, r, Opening(t), w.out, w.room, Emitted("\0", true));
      return;
    }
    ghost var c, s := w.out, w.room;
    ok := w.Write(f.content);
    CopyFails(c, s, f, w.out, w.room, ok);
    ok := ok && !f.broken;
    WroteThen(b, r, header, c, s, content, w.out, w.room, ok);
    if !ok {
      WroteStops(b, r, Opening(t), w.out, w.room, Emitted("\0", true));
      return;
    }
    ghost var d, q := w.out, w.room;
    ok := w.Write("\0");
    WroteThen(b, r, Opening(t), d, q, Emitted("\0", true), w.out, w.room, ok);
  }

  lemma CopyFails(b: string, r: nat, f: FileEntry, a: string, s: nat, ok: bool)
    requires Wrote(b, r, Emitted(f.content, true), a, s, ok)
    ensures Wrote(b, r, Emitted(f.content, !f.broken), a, s, ok && !f.broken)
  {}

  lemma OpeningOfDir(t: Tree)
    requires t.DirT?
    ensures Opening(t) == Emitted(TimePrefix(t.meta) + (DirLine(t.meta.mode, t.meta.name) + "\n"), true)
  {}

  lemma OpeningOfFile(f: FileEntry)
    ensures var line := FileLine(f.meta.mode, f.size, f.meta.name) + "\n";
            Opening(FileView(f)) == Then(Emitted(TimePrefix(f.meta) + line, true), Emitted(f.content, !f.broken))
  {
    var line := FileLine(f.meta.mode, f.size, f.meta.name);
    assert TimePrefix(f.meta) + line + "\n" + f.content == (TimePrefix(f.meta) + (line + "\n")) + f.content;
  }

  /** The loop over children: it stops at the first that fails. */
  method WriteAll(es: seq<Entry>, w: Writer, ghost views: seq<Tree>, ghost repr: set<DirEntry>) returns (ok: bool)
    requires ListValid(es, views, repr)
    modifies w
    ensures Wrote(old(w.out), old(w.room), Print(views), w.out, w.room, ok)
    ensures OnlyPuts(old(w.journal), w.journal)
    decreases repr, 1
  {
    hide Wrote, Print, Then, FileView;
    WroteNothing(w.out, w.room);
    PrintNothing();
    assert views[..0] == [];
    for i := 0 to |es|
      invariant Wrote(old(w.out), old(w.room), Print(views[..i]), w.out, w.room, true)
      invariant OnlyPuts(old(w.journal), w.journal)
    {
      ghost var b, r := w.out, w.room;
      if es[i].FileE? {
        ok := WriteFile(es[i].file, w);
      } else {
        ok := es[i].dir.Write(w);
      }
      assert views[..i + 1] == views[..i] + [views[i]];
      PrintConcat(views[..i], [views[i]]);
      WroteThen(old(w.out), old(w.room), Print(views[..i]), b, r, Print([views[i]]), w.out, w.room, ok);
      if !ok {
        assert views == views[..i + 1] + views[i + 1..];
        PrintConcat(views[..i + 1], views[i + 1..]);
        WroteStops(old(w.out), old(w.room), Print(views[..i + 1]), w.out, w.room, Print(views[i + 1..]));
        return;
      }
    }
    assert views[..|es|] == views;
    ok := true;
  }

  lemma PrintNothing()
    ensures Print([]) == Emitted("", true)
  {}

  // ---- The root ----

  class RootEntry {
    var entries: seq<Entry>
    ghost var views: seq<Tree>
    ghost var repr: set<DirEntry>

    ghost predicate Valid()
      reads this, repr
    {
      ListValid(entries, views, repr)
    }

    constructor ()
      ensures Valid() && views == [] && repr == {}
    {
      entries := [];
      views, repr := [], {};
    }

    method Append(e: Entry)
      requires Valid() && EntryValid(e) && EntryRepr(e) !! repr
      modifies this, repr
      ensures Valid() && repr == old(repr) + EntryRepr(e)
      ensures views == Trees.Append(old(views), EntryView(e))
      ensures EntryValid(e) && EntryRepr(e) == old(EntryRepr(e)) && EntryView(e) == old(EntryView(e))
    {
      hide AppendAt, Clean, Dir;
      var parent := Clean(Dir(PathOf(e)));
      var placed := PlaceInChild(entries, e, parent, views, repr);
      if !placed {
        Snoc(entries, views, repr, e);
        entries := entries + [e];
      }
      views := AppendAt(views, EntryView(e), parent);
      repr := repr + EntryRepr(e);
    }

    method Write(w: Writer) returns (ok: bool)
      requires Valid()
      modifies w
      ensures Wrote(old(w.out), old(w.room), Print(views), w.out, w.room, ok)
      ensures OnlyPuts(old(w.journal), w.journal)
    {
      ok := WriteAll(entries, w, views, repr);
    }
  }
}
