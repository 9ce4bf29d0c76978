/** copyToClient: from a glob through the walks to one tree, one stream, and closed files. */
module Sender {
  import opened Text
  import opened Trees
  import opened Entries

  // ---- The handler on the sending side ----

  /** The answer to NewFileEntry: no entry stands for an error; a closer may come with either. */
  datatype FileReply = FileReply(entry: Option<FileEntry>, closer: Option<nat>)

  datatype WalkItem = WalkItem(path: string, isDir: bool, failed: bool)

  /** The callbacks a walk makes if none of them fails, and whether it then fails itself. */
  datatype Walk = Walk(items: seq<WalkItem>, failed: bool)

  /** `newFile` is given the number of files opened before, so that every opening may bring a
      closer of its own. */
  datatype Source = Source(
    glob: string -> Option<seq<string>>,
    walk: string -> Walk,
    newDir: string -> Option<Meta>,
    newFile: (nat, string) -> FileReply)

  // ---- What is gathered, on values ----

  datatype Gathered = Gathered(entries: seq<Tree>, replies: seq<FileReply>, ok: bool)

  function VisitFile(src: Source, g: Gathered, path: string): Gathered {
    var r := src.newFile(|g.replies|, path);
    if r.entry.None? then Gathered(g.entries, g.replies + [r], false)
    else Gathered(g.entries + [FileView(r.entry.value)], g.replies + [r], g.ok)
  }

  function VisitItem(src: Source, g: Gathered, item: WalkItem): Gathered {
    if item.failed then g.(ok := false)
    else if !item.isDir then VisitFile(src, g, item.path)
    else if src.newDir(item.path).None? then g.(ok := false)
    else g.(entries := g.entries + [DirT(src.newDir(item.path).value, [])])
  }

  function VisitItems(src: Source, g: Gathered, items: seq<WalkItem>): Gathered
    decreases |items|
  {
    if items == [] || !g.ok then g else VisitItems(src, VisitItem(src, g, items[0]), items[1..])
  }

  function VisitMatch(src: Source, recursive: bool, g: Gathered, name: string): Gathered {
    if !recursive then VisitFile(src, g, name)
    else
      var walked := VisitItems(src, g, src.walk(name).items);
      walked.(ok := walked.ok && !src.walk(name).failed)
  }

  function VisitMatches(src: Source, recursive: bool, g: Gathered, names: seq<string>): Gathered
    decreases |names|
  {
    if names == [] || !g.ok then g
    else VisitMatches(src, recursive, VisitMatch(src, recursive, g, names[0]), names[1..])
  }

  function Gather(src: Source, recursive: bool, names: seq<string>): Gathered {
    VisitMatches(src, recursive, Gathered([], [], true), names)
  }

  /** The closers that are kept: in a walk only those of files that were opened. */
  function Kept(recursive: bool, replies: seq<FileReply>): seq<Option<nat>> {
    if replies == [] then []
    else
      var last := replies[|replies| - 1];
      Kept(recursive, replies[..|replies| - 1])
      + if recursive && last.entry.None? then [] else [last.closer]
  }

  function NonNil(closers: seq<Option<nat>>): seq<nat> {
    if closers == [] then []
    else
      var last := closers[|closers| - 1];
      NonNil(closers[..|closers| - 1]) + if last.Some? then [last.value] else []
  }

  /** The closer that came with opening n is to be called: one that came with an error is not, in
      a walk. */
  predicate Called(recursive: bool, replies: seq<FileReply>, n: nat)
    requires n < |replies|
  {
    replies[n].closer.Some? && (replies[n].entry.Some? || !recursive)
  }

  /** How many closers of the first n openings are to be called. */
  function CalledBefore(recursive: bool, replies: seq<FileReply>, n: nat): nat
    requires n <= |replies|
  {
    |set i | 0 <= i < n && Called(recursive, replies, i)|
  }

  /** The closers to be called, each in its place and no others. */
  predicate ClosedInOrder(recursive: bool, replies: seq<FileReply>, ids: seq<nat>) {
    && |ids| == CalledBefore(recursive, replies, |replies|)
    && forall n | 0 <= n < |replies| && Called(recursive, replies, n) ::
         CalledBefore(recursive, replies, n) < |ids|
         && ids[CalledBefore(recursive, replies, n)] == replies[n].closer.value
  }

  function Closings(ids: seq<nat>): seq<Act> {
    seq(|ids|, i requires 0 <= i < |ids| => Closed(ids[i]))
  }

  lemma CalledFront(recursive: bool, front: seq<FileReply>, last: FileReply, n: nat)
    requires n <= |front|
    ensures CalledBefore(recursive, front + [last], n) == CalledBefore(recursive, front, n)
  {
    var all := front + [last];
    assert (set i | 0 <= i < n && Called(recursive, all, i)) == (set i | 0 <= i < n && Called(recursive, front, i));
  }

  lemma CalledNext(recursive: bool, replies: seq<FileReply>, n: nat)
    requires n < |replies|
    ensures CalledBefore(recursive, replies, n + 1)
            == CalledBefore(recursive, replies, n) + if Called(recursive, replies, n) then 1 else 0
  {
    hide Called;
    var before := set i | 0 <= i < n && Called(recursive, replies, i);
    var after := set i | 0 <= i < n + 1 && Called(recursive, replies, i);
    assert after == before + if Called(recursive, replies, n) then {n} else {};
  }

  lemma {:induction false} CalledGrows(recursive: bool, replies: seq<FileReply>, m: nat, n: nat)
    requires m <= n <= |replies|
    ensures CalledBefore(recursive, replies, m) <= CalledBefore(recursive, replies, n)
    decreases n
  {
    hide CalledBefore, Called;
    if m < n {
      CalledGrows(recursive, replies, m, n - 1);
      CalledNext(recursive, replies, n - 1);
    }
  }

  lemma CalledNone(recursive: bool, replies: seq<FileReply>)
    ensures CalledBefore(recursive, replies, 0) == 0
  {}

  /** The kept closers that are not nil are those to be called. */
  lemma {:induction false} KeptInOrder(recursive: bool, replies: seq<FileReply>)
    ensures ClosedInOrder(recursive, replies, NonNil(Kept(recursive, replies)))
    decreases |replies|
  {
    hide CalledBefore;
    CalledNone(recursive, replies);
    if replies != [] {
      var n := |replies| - 1;
      var front, last := replies[..n], replies[n];
      assert replies == front + [last];
      var kept := Kept(recursive, front);
      KeptInOrder(recursive, front);
      NonNilSnoc(kept, last.closer);
      assert kept + [] == kept;
      InOrderSnoc(recursive, front, last, NonNil(kept));
    }
  }

  lemma InOrderSnoc(recursive: bool, front: seq<FileReply>, last: FileReply, ids: seq<nat>)
    requires ClosedInOrder(recursive, front, ids)
    ensures var all := front + [last];
            ClosedInOrder(recursive, all,
                          ids + if Called(recursive, all, |front|) then [last.closer.value] else [])
  {
    hide CalledBefore;
    var n, all := |front|, front + [last];
    CalledFront(recursive, front, last, n);
    CalledNext(recursive, all, n);
    forall m | 0 <= m < n && Called(recursive, all, m)
      ensures CalledBefore(recursive, all, m) < |ids| && ids[CalledBefore(recursive, all, m)] == all[m].closer.value
    {
      CalledFront(recursive, front, last, m);
      assert Called(recursive, front, m);
    }
  }

  lemma NonNilSnoc(closers: seq<Option<nat>>, last: Option<nat>)
    ensures NonNil(closers + [last]) == NonNil(closers) + if last.Some? then [last.value] else []
  {
    assert (closers + [last])[..|closers|] == closers;
  }

  lemma AppendAllSnoc(es: seq<Tree>, e: Tree)
    ensures AppendAll([], es + [e]) == Trees.Append(AppendAll([], es), e)
  {
    AppendAllConcat([], es, [e]);
    var ts := AppendAll([], es);
    assert [e][1..] == [];
    assert AppendAll(Trees.Append(ts, e), []) == Trees.Append(ts, e);
  }

  // ---- The loops ----

  /** What the loops build from what was gathered. */
  ghost predicate Built(g: Gathered, recursive: bool, root: RootEntry, closers: seq<Option<nat>>)
    reads root, root.repr
  {
    root.Valid() && root.views == AppendAll([], g.entries) && closers == Kept(recursive, g.replies)
  }

  method OpenFile(src: Source, recursive: bool, path: string, root: RootEntry, closers: seq<Option<nat>>,
                  count: nat, ghost g: Gathered)
    returns (ok: bool, closers': seq<Option<nat>>)
    requires g.ok && Built(g, recursive, root, closers) && count == |g.replies|
    modifies root, root.repr
    ensures Built(VisitFile(src, g, path), recursive, root, closers') && ok == VisitFile(src, g, path).ok
    ensures root.repr == old(root.repr)
  {
    hide AppendAll;
    var r := src.newFile(count, path);
    assert (g.replies + [r])[..|g.replies|] == g.replies;
    if !recursive {
      closers' := closers + [r.closer];
    } else {
      closers' := closers;
    }
    if r.entry.None? {
      return false, closers';
    }
    if recursive {
      closers' := closers + [r.closer];
    }
    AppendAllSnoc(g.entries, FileView(r.entry.value));
    root.Append(FileE(r.entry.value));
    ok := true;
  }

  method VisitWalk(src: Source, walk: Walk, root: RootEntry, closers: seq<Option<nat>>, count: nat, ghost g: Gathered)
    returns (ok: bool, closers': seq<Option<nat>>, count': nat)
    requires g.ok && Built(g, true, root, closers) && count == |g.replies|
    modifies root, root.repr
    ensures var walked := VisitItems(src, g, walk.items);
            && Built(walked, true, root, closers') && count' == |walked.replies|
            && ok == (walked.ok && !walk.failed)
    ensures fresh(root.repr - old(root.repr))
  {
    hide AppendAll;
    ghost var now := g;
    ghost var end := VisitItems(src, g, walk.items);
    closers', count' := closers, count;
    assert walk.items[0..] == walk.items;
    for i := 0 to |walk.items|
      invariant now.ok && Built(now, true, root, closers') && count' == |now.replies|
      invariant VisitItems(src, now, walk.items[i..]) == end
      invariant fresh(root.repr - old(root.repr))
    {
      var item := walk.items[i];
      ghost var next := VisitItem(src, now, item);
      assert walk.items[i..][1..] == walk.items[i + 1..];
      if item.failed {
        return false, closers', count';
      }
      if item.isDir {
        var m := src.newDir(item.path);
        if m.None? {
          return false, closers', count';
        }
        AppendAllSnoc(now.entries, DirT(m.value, []));
        var dir := new DirEntry(m.value);
        root.Append(DirE(dir));
      } else {
        var opens;
        opens, closers' := OpenFile(src, true, item.path, root, closers', count', now);
        count' := count' + 1;
        if !opens {
          return false, closers', count';
        }
      }
      now := next;
    }
    ok := !walk.failed;
  }

  method Build(src: Source, recursive: bool, names: seq<string>, root: RootEntry)
    returns (ok: bool, closers: seq<Option<nat>>)
    requires root.Valid() && root.views == [] && root.repr == {}
    modifies root
    ensures var g := Gather(src, recursive, names);
            && Built(g, recursive, root, closers) && ok == g.ok
            && ClosedInOrder(recursive, g.replies, NonNil(closers))
    ensures fresh(root.repr)
  {
    hide AppendAll, ClosedInOrder;
    KeptInOrder(recursive, Gather(src, recursive, names).replies);
    ghost var now := Gathered([], [], true);
    ghost var end := Gather(src, recursive, names);
    var count := 0;
    closers := [];
    assert names[0..] == names;
    assert root.views == AppendAll([], []) by {
      AppendNothing();
    }
    for i := 0 to |names|
      invariant now.ok && Built(now, recursive, root, closers) && count == |now.replies|
      invariant VisitMatches(src, recursive, now, names[i..]) == end
      invariant fresh(root.repr)
    {
      ghost var next := VisitMatch(src, recursive, now, names[i]);
      assert names[i..][1..] == names[i + 1..];
      if !recursive {
        ok, closers := OpenFile(src, false, names[i], root, closers, count, now);
        count := count + 1;
      } else {
        ok, closers, count := VisitWalk(src, src.walk(names[i]), root, closers, count, now);
      }
      if !ok {
        return;
      }
      now := next;
    }
    ok := true;
  }

  lemma AppendNothing()
    ensures AppendAll([], []) == []
  {}

  lemma ClosingsSnoc(ids: seq<nat>, id: nat)
    ensures Closings(ids + [id]) == Closings(ids) + [Closed(id)]
  {}

  /** closeAll: every closer that is not nil, in order, once. */
  method CloseAll(w: Writer, closers: seq<Option<nat>>)
    modifies w`journal
    ensures w.journal == old(w.journal) + Closings(NonNil(closers))
  {
    assert closers[..0] == [];
    assert w.journal == w.journal + Closings([]);
    for i := 0 to |closers|
      invariant w.journal == old(w.journal) + Closings(NonNil(closers[..i]))
    {
      assert closers[..i + 1][..i] == closers[..i];
      if closers[i].Some? {
        ClosingsSnoc(NonNil(closers[..i]), closers[i].value);
        w.Close(closers[i].value);
      }
    }
    assert closers[..|closers|] == closers;
  }

  /** Nothing is sent unless everything could be gathered; then the printed tree is sent, or as
      much of it as the connection takes. On every way out the closers that are to be called are
      called, each once, in order, after the last byte. */
  method CopyToClient(w: Writer, src: Source, recursive: bool, path: string)
    returns (ok: bool, ghost puts: seq<Act>, ghost ids: seq<nat>)
    modifies w
    ensures var names := src.glob(path);
            if names.None? || names.value == [] then !ok && unchanged(w)
            else
              var g := Gather(src, recursive, names.value);
              && Puts(puts)
              && w.journal == old(w.journal) + puts + Closings(ids)
              && ClosedInOrder(recursive, g.replies, ids)
              && (if g.ok
                  then Wrote(old(w.out), old(w.room), Print(AppendAll([], g.entries)), w.out, w.room, ok)
                  else !ok && puts == [] && w.out == old(w.out) && w.room == old(w.room))
  {
    hide AppendAll, Print, Wrote, Gather, ClosedInOrder;
    puts, ids := [], [];
    var names := src.glob(path);
    if names.None? || names.value == [] {
      return false, [], [];
    }
    var root := new RootEntry();
    var built, closers := Build(src, recursive, names.value, root);
    if built {
      ok := root.Write(w);
      puts := w.journal[|old(w.journal)|..];
    } else {
      ok := false;
    }
    assert w.journal == old(w.journal) + puts;
    ids := NonNil(closers);
    CloseAll(w, closers);
  }

  // ---- What the closers are ----

  predicate AllOpened(replies: seq<FileReply>) {
    forall i | 0 <= i < |replies| :: replies[i].entry.Some?
  }

  /** In a gathering only the last answer can be an error, and then the gathering failed. */
  predicate LastMayFail(g: Gathered) {
    if g.ok then AllOpened(g.replies)
    else g.replies == [] || AllOpened(g.replies[..|g.replies| - 1])
  }

  lemma VisitFileLast(src: Source, g: Gathered, path: string)
    requires g.ok && LastMayFail(g)
    ensures LastMayFail(VisitFile(src, g, path))
  {
    var now := VisitFile(src, g, path);
    assert now.replies[..|g.replies|] == g.replies;
  }

  lemma {:induction false} VisitItemsLast(src: Source, g: Gathered, items: seq<WalkItem>)
    requires LastMayFail(g)
    ensures LastMayFail(VisitItems(src, g, items))
    decreases |items|
  {
    if items != [] && g.ok {
      VisitFileLast(src, g, items[0].path);
      VisitItemsLast(src, VisitItem(src, g, items[0]), items[1..]);
    }
  }

  lemma {:induction false} VisitMatchesLast(src: Source, recursive: bool, g: Gathered, names: seq<string>)
    requires LastMayFail(g)
    ensures LastMayFail(VisitMatches(src, recursive, g, names))
    decreases |names|
  {
    if names != [] && g.ok {
      VisitFileLast(src, g, names[0]);
      VisitItemsLast(src, g, src.walk(names[0]).items);
      VisitMatchesLast(src, recursive, VisitMatch(src, recursive, g, names[0]), names[1..]);
    }
  }

  /** Every opening brings a closer of its own. */
  ghost predicate Numbered(src: Source) {
    forall n: nat, path: string :: src.newFile(n, path).closer == Some(n)
  }

  predicate NumberedReplies(replies: seq<FileReply>) {
    forall i | 0 <= i < |replies| :: replies[i].closer == Some(i)
  }

  lemma {:induction false} VisitItemsNumber(src: Source, g: Gathered, items: seq<WalkItem>)
    requires Numbered(src) && NumberedReplies(g.replies)
    ensures NumberedReplies(VisitItems(src, g, items).replies)
    decreases |items|
  {
    if items != [] && g.ok {
      VisitItemsNumber(src, VisitItem(src, g, items[0]), items[1..]);
    }
  }

  lemma {:induction false} VisitMatchesNumber(src: Source, recursive: bool, g: Gathered, names: seq<string>)
    requires Numbered(src) && NumberedReplies(g.replies)
    ensures NumberedReplies(VisitMatches(src, recursive, g, names).replies)
    decreases |names|
  {
    if names != [] && g.ok {
      VisitItemsNumber(src, g, src.walk(names[0]).items);
      VisitMatchesNumber(src, recursive, VisitMatch(src, recursive, g, names[0]), names[1..]);
    }
  }

  /** Each place of the list of called closers belongs to one opening. */
  lemma {:induction false} CallOfPlace(recursive: bool, replies: seq<FileReply>, m: nat, j: nat) returns (n: nat)
    requires m <= |replies| && j < CalledBefore(recursive, replies, m)
    ensures n < m && Called(recursive, replies, n) && CalledBefore(recursive, replies, n) == j
    decreases m
  {
    hide CalledBefore, Called;
    CalledNone(recursive, replies);
    CalledNext(recursive, replies, m - 1);
    if j < CalledBefore(recursive, replies, m - 1) {
      n := CallOfPlace(recursive, replies, m - 1, j);
    } else {
      n := m - 1;
    }
  }

  lemma OccursOnce<T>(s: seq<T>, x: T, i: nat)
    requires i < |s| && s[i] == x && forall j | 0 <= j < |s| && j != i :: s[j] != x
    ensures multiset(s)[x] == 1
  {
    var front, rest := s[..i], s[i + 1..];
    assert s == front + [x] + rest;
    assert x !in front && x !in rest;
    assert multiset(front)[x] == 0 && multiset(rest)[x] == 0;
  }

  /** If every opening brings a closer of its own, each of them is called once or never: once if
      the file was opened, and without -r also if it was not. */
  lemma ClosedOnce(recursive: bool, replies: seq<FileReply>, ids: seq<nat>, n: nat)
    requires NumberedReplies(replies) && ClosedInOrder(recursive, replies, ids)
    ensures multiset(ids)[n] == if n < |replies| && (replies[n].entry.Some? || !recursive) then 1 else 0
  {
    forall j | 0 <= j < |ids|
      ensures var m := ids[j]; m < |replies| && Called(recursive, replies, m) && CalledBefore(recursive, replies, m) == j
    {
      var m := CallOfPlace(recursive, replies, |replies|, j);
    }
    if n < |replies| && Called(recursive, replies, n) {
      OccursOnce(ids, n, CalledBefore(recursive, replies, n));
    } else {
      assert n !in ids;
      assert multiset(ids)[n] == 0;
    }
  }

  lemma {:induction false} ClosingsCount(puts: seq<Act>, ids: seq<nat>, n: nat)
    requires Puts(puts)
    ensures multiset(puts + Closings(ids))[Closed(n)] == multiset(ids)[n]
    decreases |ids|
  {
    if ids == [] {
      assert puts + Closings(ids) == puts && Closed(n) !in puts;
    } else {
      var front, last := ids[..|ids| - 1], ids[|ids| - 1];
      assert ids == front + [last];
      ClosingsCount(puts, front, n);
      ClosingsSnoc(front, last);
      assert puts + Closings(ids) == (puts + Closings(front)) + [Closed(last)];
    }
  }

  /** What a session does, if every opening brings a closer of its own: that of an opened file is
      called exactly once, that of a failed opening once without -r and never in a walk. Only the
      last opening can have failed. */
  lemma ClosedExactlyOnce(src: Source, recursive: bool, names: seq<string>, puts: seq<Act>, ids: seq<nat>, n: nat)
    requires Numbered(src) && Puts(puts) && ClosedInOrder(recursive, Gather(src, recursive, names).replies, ids)
    ensures var g := Gather(src, recursive, names);
            && LastMayFail(g)
            && multiset(puts + Closings(ids))[Closed(n)]
               == if n < |g.replies| && (g.replies[n].entry.Some? || !recursive) then 1 else 0
  {
    hide ClosedInOrder, Called, Closings;
    var start := Gathered([], [], true);
    VisitMatchesLast(src, recursive, start, names);
    VisitMatchesNumber(src, recursive, start, names);
    ClosedOnce(recursive, Gather(src, recursive, names).replies, ids, n);
    ClosingsCount(puts, ids, n);
  }

  // ---- Walking a tree ----

  function Announced(e: Tree): WalkItem {
    WalkItem(e.meta.path, e.DirT?, false)
  }

  function AnnouncedAll(es: seq<Tree>): seq<WalkItem> {
    seq(|es|, i requires 0 <= i < |es| => Announced(es[i]))
  }

  /** The handler opens what a walked entry stands for. */
  ghost predicate Opens(src: Source, e: Tree) {
    if e.DirT? then src.newDir(e.meta.path) == Some(e.meta)
    else forall n: nat :: src.newFile(n, e.meta.path).entry == Some(FileEntry(e.meta, e.size, e.content, e.broken))
  }

  /** The handler's walk of `name` is the pre-order walk of the forest. */
  ghost predicate Describes(src: Source, name: string, ts: seq<Tree>) {
    && src.walk(name) == Walk(AnnouncedAll(Preorder(ts)), false)
    && forall i | 0 <= i < |Preorder(ts)| :: Opens(src, Preorder(ts)[i])
  }

  lemma {:induction false} VisitAnnounced(src: Source, g: Gathered, es: seq<Tree>)
    requires g.ok && forall i | 0 <= i < |es| :: Opens(src, es[i]) && es[i] == Shell(es[i])
    ensures VisitItems(src, g, AnnouncedAll(es)).ok
    ensures VisitItems(src, g, AnnouncedAll(es)).entries == g.entries + es
    decreases |es|
  {
    if es != [] {
      assert Opens(src, es[0]) && es[0] == Shell(es[0]);
      var next := VisitItem(src, g, Announced(es[0]));
      assert next.ok && next.entries == g.entries + [es[0]];
      assert AnnouncedAll(es)[1..] == AnnouncedAll(es[1..]);
      VisitAnnounced(src, next, es[1..]);
      assert (g.entries + [es[0]]) + es[1..] == g.entries + es;
    }
  }

  lemma WalkIsGathered(src: Source, name: string, ts: seq<Tree>)
    requires Describes(src, name, ts) && forall i | 0 <= i < |Preorder(ts)| :: Preorder(ts)[i] == Shell(Preorder(ts)[i])
    ensures Gather(src, true, [name]).ok && Gather(src, true, [name]).entries == Preorder(ts)
  {
    var start := Gathered([], [], true);
    VisitAnnounced(src, start, Preorder(ts));
    assert [] + Preorder(ts) == Preorder(ts);
    assert [name][1..] == [];
    var g := VisitMatch(src, true, start, name);
    assert VisitMatches(src, true, g, []) == g;
  }
}
