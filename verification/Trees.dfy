/** Entry trees as values: what the heap objects of module Entries stand for. A forest is a list
    of siblings, the children of a directory or the contents of a root entry. */
module Trees {
  import opened Text
  import opened Paths
  import opened Headers

  datatype Meta = Meta(name: string, path: string, mode: nat, mtime: int, atime: int)

  /** A file carries the bytes its reader yields, and whether the reader then fails. */
  datatype Tree =
    | FileT(meta: Meta, size: int, content: string, broken: bool)
    | DirT(meta: Meta, kids: seq<Tree>)

  // ---- Printing ----

  /** Bytes sent, and whether the printer got to the end of what it was printing. */
  datatype Emitted = Emitted(bytes: string, ok: bool)

  function Then(first: Emitted, second: Emitted): Emitted {
    if first.ok then Emitted(first.bytes + second.bytes, second.ok) else first
  }

  function TimePrefix(m: Meta): string {
    if m.mtime > 0 && m.atime > 0 then TimeLine(m.mtime, m.atime) + "\n" else ""
  }

  function Opening(t: Tree): Emitted {
    match t
    case FileT(m, size, content, broken) =>
      Emitted(TimePrefix(m) + FileLine(m.mode, size, m.name) + "\n" + content, !broken)
    case DirT(m, _) =>
      Emitted(TimePrefix(m) + DirLine(m.mode, m.name) + "\n", true)
  }

  function Closing(t: Tree): Emitted {
    Emitted(if t.FileT? then "\0" else "E\n", true)
  }

  function Print(ts: seq<Tree>): Emitted {
    if ts == [] then Emitted("", true)
    else
      var inside := if ts[0].DirT? then Print(ts[0].kids) else Emitted("", true);
      Then(Then(Then(Opening(ts[0]), inside), Closing(ts[0])), Print(ts[1..]))
  }

  lemma ThenAssoc(a: Emitted, b: Emitted, c: Emitted)
    ensures Then(Then(a, b), c) == Then(a, Then(b, c))
  {
    assert (a.bytes + b.bytes) + c.bytes == a.bytes + (b.bytes + c.bytes);
  }

  /** Siblings are printed one after the other, up to the first that fails. */
  lemma {:induction false} PrintConcat(a: seq<Tree>, b: seq<Tree>)
    ensures Print(a + b) == Then(Print(a), Print(b))
    ensures Print(a + b).bytes == Print(a).bytes + (if Print(a).ok then Print(b).bytes else "")
    ensures Print(a + b).ok <==> Print(a).ok && Print(b).ok
    decreases |a|
  {
    if a == [] {
      assert a + b == b;
    } else {
      assert (a + b)[1..] == a[1..] + b;
      PrintConcat(a[1..], b);
      var inside := if a[0].DirT? then Print(a[0].kids) else Emitted("", true);
      ThenAssoc(Then(Then(Opening(a[0]), inside), Closing(a[0])), Print(a[1..]), Print(b));
    }
  }

  // ---- The format ----

  function TimeText(m: Meta): string {
    if m.mtime > 0 && m.atime > 0 then "T" + FormatInt(m.mtime) + " 0 " + FormatInt(m.atime) + " 0\n" else ""
  }

  /** A file on the wire: its times if both are known, its permissions, size and name, its content
      and a NUL, or what its reader gave before it failed. */
  lemma FileFormat(f: Tree, high: nat, owner: nat, group: nat, others: nat)
    requires f.FileT? && f.meta.mode == 0x200 * high + 64 * owner + 8 * group + others
    requires 0 < owner < 8 && group < 8 && others < 8
    ensures Print([f]) ==
            Emitted(TimeText(f.meta) + "C0" + [OctalDigit(owner), OctalDigit(group), OctalDigit(others)] + " "
                    + FormatInt(f.size) + " " + f.meta.name + "\n" + f.content + (if f.broken then "" else "\0"),
                    !f.broken)
  {
    hide FileLine, FormatInt, OctalDigit, TimePrefix, TimeText, Print;
    LinesShow(high, owner, group, others, f.size, f.meta.name);
    TimeShows(f.meta);
    PrintOne(f);
    var line, body := FileLine(f.meta.mode, f.size, f.meta.name), f.content + (if f.broken then "" else "\0");
    assert Print([f]).bytes == TimePrefix(f.meta) + line + "\n" + body;
    assert line == "C0" + [OctalDigit(owner), OctalDigit(group), OctalDigit(others)]
                   + " " + FormatInt(f.size) + " " + f.meta.name;
  }

  lemma TimeShows(m: Meta)
    ensures TimePrefix(m) == TimeText(m)
  {
    hide FormatInt;
  }

  lemma PrintOne(t: Tree)
    ensures Print([t]) ==
            Then(Then(Opening(t), if t.DirT? then Print(t.kids) else Emitted("", true)), Closing(t))
  {
    hide Opening, Closing;
    assert [t][1..] == [];
    var all := Then(Then(Opening(t), if t.DirT? then Print(t.kids) else Emitted("", true)), Closing(t));
    assert all.bytes + "" == all.bytes;
  }

  /** A directory on the wire: its own line, what is in it, and its end. */
  lemma DirFormat(d: Tree, high: nat, owner: nat, group: nat, others: nat)
    requires d.DirT? && d.meta.mode == 0x200 * high + 64 * owner + 8 * group + others
    requires 0 < owner < 8 && group < 8 && others < 8
    ensures Print([d]) ==
            Emitted(TimeText(d.meta) + "D0" + [OctalDigit(owner), OctalDigit(group), OctalDigit(others)] + " 0 "
                    + d.meta.name + "\n" + Print(d.kids).bytes + (if Print(d.kids).ok then "E\n" else ""),
                    Print(d.kids).ok)
  {
    hide DirLine, FormatInt, OctalDigit, TimePrefix, TimeText, Print;
    LinesShow(high, owner, group, others, 0, d.meta.name);
    TimeShows(d.meta);
    PrintOne(d);
    var line, body := DirLine(d.meta.mode, d.meta.name), Print(d.kids).bytes + (if Print(d.kids).ok then "E\n" else "");
    assert Print([d]).bytes == TimePrefix(d.meta) + line + "\n" + body;
    assert line == "D0" + [OctalDigit(owner), OctalDigit(group), OctalDigit(others)] + " 0 " + d.meta.name;
  }

  // ---- Walking ----

  /** A walk announces a directory before, and apart from, what is in it. */
  function Shell(t: Tree): Tree {
    if t.FileT? then t else DirT(t.meta, [])
  }

  function Preorder(ts: seq<Tree>): seq<Tree> {
    if ts == [] then []
    else [Shell(ts[0])] + (if ts[0].DirT? then Preorder(ts[0].kids) else []) + Preorder(ts[1..])
  }

  // ---- Appending ----

  /** The directory an entry belongs in: normalizePath(filepath.Dir(path)). */
  function ParentOf(t: Tree): string {
    Clean(Dir(t.meta.path))
  }

  /** The tests by which a directory takes an entry whose parent is `parent`: equality, or a
      raw string prefix. */
  predicate Captures(t: Tree, parent: string) {
    t.DirT? && (t.meta.path == parent || Clean(t.meta.path) <= parent)
  }

  function AppendAt(ts: seq<Tree>, e: Tree, parent: string): seq<Tree> {
    if ts == [] then [e]
    else if ts[0].DirT? && ts[0].meta.path == parent then
      [DirT(ts[0].meta, ts[0].kids + [e])] + ts[1..]
    else if ts[0].DirT? && Clean(ts[0].meta.path) <= parent then
      [DirT(ts[0].meta, AppendAt(ts[0].kids, e, parent))] + ts[1..]
    else
      [ts[0]] + AppendAt(ts[1..], e, parent)
  }

  function Append(ts: seq<Tree>, e: Tree): seq<Tree> {
    AppendAt(ts, e, ParentOf(e))
  }

  function AppendAll(ts: seq<Tree>, es: seq<Tree>): seq<Tree>
    decreases |es|
  {
    if es == [] then ts else AppendAll(Append(ts, es[0]), es[1..])
  }

  lemma {:induction false} AppendAllConcat(ts: seq<Tree>, a: seq<Tree>, b: seq<Tree>)
    ensures AppendAll(ts, a + b) == AppendAll(AppendAll(ts, a), b)
    decreases |a|
  {
    if a == [] {
      assert a + b == b;
    } else {
      assert (a + b)[1..] == a[1..] + b;
      AppendAllConcat(Append(ts, a[0]), a[1..], b);
    }
  }

  /** Siblings that do not capture the parent are passed over. */
  lemma {:induction false} AppendPasses(done: seq<Tree>, more: seq<Tree>, e: Tree, parent: string)
    requires forall i | 0 <= i < |done| :: !Captures(done[i], parent)
    ensures AppendAt(done + more, e, parent) == done + AppendAt(more, e, parent)
    decreases |done|
  {
    if done == [] {
      assert done + more == more;
    } else {
      assert (done + more)[1..] == done[1..] + more;
      AppendPasses(done[1..], more, e, parent);
    }
  }

  /** A directory whose path is the entry's parent takes it as its last child, whatever its other
      children are, unless a sibling before it captures the parent. */
  lemma AppendTakes(before: seq<Tree>, d: Tree, after: seq<Tree>, e: Tree)
    requires d.DirT? && d.meta.path == ParentOf(e)
    requires forall i | 0 <= i < |before| :: !Captures(before[i], ParentOf(e))
    ensures Append(before + ([d] + after), e) == before + ([DirT(d.meta, d.kids + [e])] + after)
  {
    hide ParentOf;
    AppendPasses(before, [d] + after, e, ParentOf(e));
    assert ([d] + after)[1..] == after;
  }

  // ---- What Append keeps ----

  /** An address names a child list: the indices of the directories to go through. */
  predicate IsAddress(ts: seq<Tree>, addr: seq<nat>)
    decreases |addr|
  {
    addr == [] || (addr[0] < |ts| && ts[addr[0]].DirT? && IsAddress(ts[addr[0]].kids, addr[1..]))
  }

  function ListAt(ts: seq<Tree>, addr: seq<nat>): seq<Tree>
    requires IsAddress(ts, addr)
    decreases |addr|
  {
    if addr == [] then ts else ListAt(ts[addr[0]].kids, addr[1..])
  }

  /** The forest with e added at the end of one child list and nothing else changed. */
  function InsertAt(ts: seq<Tree>, addr: seq<nat>, e: Tree): seq<Tree>
    requires IsAddress(ts, addr)
    decreases |addr|
  {
    if addr == [] then ts + [e]
    else
      var d := ts[addr[0]];
      ts[addr[0] := DirT(d.meta, InsertAt(d.kids, addr[1..], e))]
  }

  /** Where Append puts an entry: into the first capturing sibling, level by level, and no
      deeper than a directory whose path is exactly the parent. */
  function Address(ts: seq<Tree>, parent: string): seq<nat> {
    if ts == [] then []
    else if ts[0].DirT? && ts[0].meta.path == parent then [0]
    else if Captures(ts[0], parent) then [0] + Address(ts[0].kids, parent)
    else
      var addr := Address(ts[1..], parent);
      if addr == [] then [] else [addr[0] + 1] + addr[1..]
  }

  /** Append adds the entry at the end of exactly one child list, for any forest and entry. */
  lemma {:induction false} AppendInserts(ts: seq<Tree>, e: Tree, parent: string)
    ensures IsAddress(ts, Address(ts, parent))
    ensures AppendAt(ts, e, parent) == InsertAt(ts, Address(ts, parent), e)
  {
    if ts != [] {
      var addr := Address(ts, parent);
      if ts[0].DirT? && ts[0].meta.path == parent {
        assert addr[1..] == [];
        assert InsertAt(ts[0].kids, addr[1..], e) == ts[0].kids + [e];
      } else if Captures(ts[0], parent) {
        AppendInserts(ts[0].kids, e, parent);
        assert addr[1..] == Address(ts[0].kids, parent);
      } else {
        AppendInserts(ts[1..], e, parent);
        var there := Address(ts[1..], parent);
        assert ts == [ts[0]] + ts[1..];
        if there != [] {
          assert addr[1..] == there[1..];
          assert ts[addr[0]] == ts[1..][there[0]];
        }
      }
    }
  }

  /** The new entry stands at the end of its list; every child list that was there is still
      there, holding the same entries in the same order, so every entry keeps its parent. */
  lemma {:induction false} InsertKeepsLists(ts: seq<Tree>, addr: seq<nat>, e: Tree, other: seq<nat>)
    requires IsAddress(ts, addr) && IsAddress(ts, other)
    ensures IsAddress(InsertAt(ts, addr, e), other)
    ensures var before, after := ListAt(ts, other), ListAt(InsertAt(ts, addr, e), other);
            && |after| == |before| + (if other == addr then 1 else 0)
            && (forall i | 0 <= i < |before| :: Shell(after[i]) == Shell(before[i]))
            && (other == addr ==> after[|before|] == e)
    decreases |addr|
  {
    if addr != [] && other != [] {
      if addr[0] == other[0] {
        assert addr == other <==> addr[1..] == other[1..];
        InsertKeepsLists(ts[addr[0]].kids, addr[1..], e, other[1..]);
      }
    }
  }

  lemma {:induction false} PreorderConcat(a: seq<Tree>, b: seq<Tree>)
    ensures Preorder(a + b) == Preorder(a) + Preorder(b)
    decreases |a|
  {
    if a == [] {
      assert a + b == b;
    } else {
      assert (a + b)[1..] == a[1..] + b;
      PreorderConcat(a[1..], b);
    }
  }

  lemma PreorderHead(t: Tree, rest: seq<Tree>)
    ensures Preorder([t] + rest) == [Shell(t)] + (if t.DirT? then Preorder(t.kids) else []) + Preorder(rest)
  {
    assert ([t] + rest)[1..] == rest;
  }

  lemma SpliceBelow(t: Tree, rest: seq<Tree>, inner: seq<Tree>, before: seq<Tree>, added: seq<Tree>, after: seq<Tree>)
    requires t.DirT? && Preorder(t.kids) == before + after && Preorder(inner) == before + added + after
    ensures Preorder([t] + rest) == ([Shell(t)] + before) + (after + Preorder(rest))
    ensures Preorder([DirT(t.meta, inner)] + rest) == ([Shell(t)] + before) + added + (after + Preorder(rest))
  {
    PreorderHead(t, rest);
    PreorderHead(DirT(t.meta, inner), rest);
    Regroup([Shell(t)], before, added, after, Preorder(rest));
  }

  lemma Regroup<T>(h: seq<T>, b: seq<T>, n: seq<T>, a: seq<T>, r: seq<T>)
    ensures h + (b + n + a) + r == (h + b) + n + (a + r)
    ensures h + (b + a) + r == (h + b) + (a + r)
    ensures h + (b + n + a) == (h + b) + n + a
    ensures h + (b + a) == (h + b) + a
  {}

  lemma SpliceBehind(t: Tree, rest: seq<Tree>, more: seq<Tree>, before: seq<Tree>, added: seq<Tree>, after: seq<Tree>)
    requires Preorder(rest) == before + after && Preorder(more) == before + added + after
    ensures Preorder([t] + rest) == (Preorder([t]) + before) + after
    ensures Preorder([t] + more) == (Preorder([t]) + before) + added + after
  {
    PreorderConcat([t], rest);
    PreorderConcat([t], more);
    Regroup(Preorder([t]), before, added, after, []);
  }

  /** Append conserves the walk: the new entry's own walk is spliced in at one place. */
  lemma {:induction false} AppendSplices(ts: seq<Tree>, e: Tree, parent: string)
    returns (before: seq<Tree>, after: seq<Tree>)
    ensures Preorder(ts) == before + after
    ensures Preorder(AppendAt(ts, e, parent)) == before + Preorder([e]) + after
  {
    if ts == [] {
      return [], [];
    }
    var t, rest := ts[0], ts[1..];
    assert ts == [t] + rest;
    if t.DirT? && t.meta.path == parent {
      PreorderConcat(t.kids, [e]);
      SpliceBelow(t, rest, t.kids + [e], Preorder(t.kids), Preorder([e]), []);
      return [Shell(t)] + Preorder(t.kids), [] + Preorder(rest);
    } else if Captures(t, parent) {
      before, after := AppendSplices(t.kids, e, parent);
      SpliceBelow(t, rest, AppendAt(t.kids, e, parent), before, Preorder([e]), after);
      return [Shell(t)] + before, after + Preorder(rest);
    } else {
      before, after := AppendSplices(rest, e, parent);
      SpliceBehind(t, rest, AppendAt(rest, e, parent), before, Preorder([e]), after);
      return Preorder([t]) + before, after;
    }
  }
}
