/** What the sender gathers and closes, told from the answers of its handler alone. */
module GatherLaws {
  import opened Trees
  import opened Sender

  // ---- One list of jobs ----

  /** Everything the sender is asked to visit, in order: the matches themselves, or with -r what
      their walks announce. A walk that fails in the end counts as one more item that failed. */
  function Jobs(src: Source, recursive: bool, names: seq<string>): seq<WalkItem>
    decreases |names|
  {
    if names == [] then []
    else JobsOf(src, recursive, names[0]) + Jobs(src, recursive, names[1..])
  }

  function JobsOf(src: Source, recursive: bool, name: string): seq<WalkItem> {
    if !recursive then [WalkItem(name, false, false)]
    else src.walk(name).items + (if src.walk(name).failed then [WalkItem(name, false, true)] else [])
  }

  /** How many of the first p jobs open a file. */
  function Openings(jobs: seq<WalkItem>, p: nat): nat
    requires p <= |jobs|
  {
    |set i | 0 <= i < p && !jobs[i].isDir && !jobs[i].failed|
  }

  /** The handler's answer to the opening that job p asks for. */
  function AnswerTo(src: Source, jobs: seq<WalkItem>, p: nat): FileReply
    requires p < |jobs|
  {
    src.newFile(Openings(jobs, p), jobs[p].path)
  }

  predicate Succeeds(src: Source, jobs: seq<WalkItem>, p: nat)
    requires p < |jobs|
  {
    !jobs[p].failed && if jobs[p].isDir then src.newDir(jobs[p].path).Some? else AnswerTo(src, jobs, p).entry.Some?
  }

  /** The entry job p brings. */
  function EntryFor(src: Source, jobs: seq<WalkItem>, p: nat): Tree
    requires p < |jobs| && Succeeds(src, jobs, p)
  {
    if jobs[p].isDir then DirT(src.newDir(jobs[p].path).value, [])
    else
      var f := AnswerTo(src, jobs, p).entry.value;
      FileT(f.meta, f.size, f.content, f.broken)
  }

  // ---- Visiting the jobs ----

  lemma {:induction false} VisitConcat(src: Source, g: Gathered, a: seq<WalkItem>, b: seq<WalkItem>)
    ensures VisitItems(src, g, a + b) == VisitItems(src, VisitItems(src, g, a), b)
    decreases |a|
  {
    hide VisitItem;
    if a == [] {
      assert a + b == b;
    } else if g.ok {
      assert (a + b)[1..] == a[1..] + b;
      VisitConcat(src, VisitItem(src, g, a[0]), a[1..], b);
    }
  }

  lemma VisitOne(src: Source, g: Gathered, item: WalkItem)
    requires g.ok
    ensures VisitItems(src, g, [item]) == VisitItem(src, g, item)
  {
    assert VisitItems(src, VisitItem(src, g, item), [item][1..]) == VisitItem(src, g, item);
  }

  lemma MatchIsJobs(src: Source, recursive: bool, g: Gathered, name: string)
    requires g.ok
    ensures VisitMatch(src, recursive, g, name) == VisitItems(src, g, JobsOf(src, recursive, name))
  {
    if !recursive {
      VisitOne(src, g, WalkItem(name, false, false));
    } else {
      var items, last := src.walk(name).items, WalkItem(name, false, true);
      if src.walk(name).failed {
        VisitConcat(src, g, items, [last]);
        if VisitItems(src, g, items).ok {
          VisitOne(src, VisitItems(src, g, items), last);
        }
      } else {
        assert items + [] == items;
      }
    }
  }

  lemma {:induction false} MatchesAreJobs(src: Source, recursive: bool, g: Gathered, names: seq<string>)
    ensures VisitMatches(src, recursive, g, names) == VisitItems(src, g, Jobs(src, recursive, names))
    decreases |names|
  {
    hide VisitMatch, JobsOf, VisitItem;
    if names != [] && g.ok {
      MatchIsJobs(src, recursive, g, names[0]);
      VisitConcat(src, g, JobsOf(src, recursive, names[0]), Jobs(src, recursive, names[1..]));
      MatchesAreJobs(src, recursive, VisitMatch(src, recursive, g, names[0]), names[1..]);
    }
  }

  // ---- What has been gathered after some jobs ----

  lemma OpeningsSnoc(jobs: seq<WalkItem>, p: nat)
    requires p < |jobs|
    ensures Openings(jobs, 0) == 0
    ensures Openings(jobs, p + 1) == Openings(jobs, p) + if !jobs[p].isDir && !jobs[p].failed then 1 else 0
  {
    var before := set i | 0 <= i < p && !jobs[i].isDir && !jobs[i].failed;
    var after := set i | 0 <= i < p + 1 && !jobs[i].isDir && !jobs[i].failed;
    assert after == before + if !jobs[p].isDir && !jobs[p].failed then {p} else {};
  }

  /** The jobs before p succeeded and brought these entries and answers. */
  predicate Holds(src: Source, jobs: seq<WalkItem>, g: Gathered, p: nat)
    requires p <= |jobs|
  {
    && |g.entries| == p
    && (forall i | 0 <= i < p :: Succeeds(src, jobs, i) && g.entries[i] == EntryFor(src, jobs, i))
    && Openings(jobs, p) <= |g.replies|
    && (forall i | 0 <= i < p && !jobs[i].isDir ::
          Openings(jobs, i) < Openings(jobs, p) && g.replies[Openings(jobs, i)] == AnswerTo(src, jobs, i))
  }

  /** Either all jobs are done, or the first one that did not succeed ended the gathering. */
  predicate Ended(src: Source, jobs: seq<WalkItem>, g: Gathered) {
    var p := |g.entries|;
    && p <= |jobs| && Holds(src, jobs, g, p)
    && (g.ok <==> p == |jobs|)
    && (g.ok ==> |g.replies| == Openings(jobs, p))
    && (!g.ok ==>
          && !Succeeds(src, jobs, p)
          && (if jobs[p].isDir || jobs[p].failed then |g.replies| == Openings(jobs, p)
              else |g.replies| == Openings(jobs, p) + 1 && g.replies[Openings(jobs, p)] == AnswerTo(src, jobs, p)))
  }

  lemma HoldsNext(src: Source, jobs: seq<WalkItem>, g: Gathered, p: nat)
    requires g.ok && p < |jobs| && Holds(src, jobs, g, p) && |g.replies| == Openings(jobs, p)
    ensures var next := VisitItem(src, g, jobs[p]);
            if next.ok then Holds(src, jobs, next, p + 1) && |next.replies| == Openings(jobs, p + 1)
            else Ended(src, jobs, next)
  {
    hide Openings;
    OpeningsSnoc(jobs, p);
  }

  lemma {:induction false} VisitEnds(src: Source, jobs: seq<WalkItem>, g: Gathered, p: nat)
    requires g.ok && p <= |jobs| && Holds(src, jobs, g, p) && |g.replies| == Openings(jobs, p)
    ensures Ended(src, jobs, VisitItems(src, g, jobs[p..]))
    decreases |jobs| - p
  {
    hide Holds, VisitItem, Openings, Succeeds;
    if p < |jobs| {
      HoldsNext(src, jobs, g, p);
      var next := VisitItem(src, g, jobs[p]);
      assert jobs[p..][1..] == jobs[p + 1..];
      if next.ok {
        VisitEnds(src, jobs, next, p + 1);
      } else {
        assert VisitItems(src, next, jobs[p + 1..]) == next;
      }
    } else {
      AllDone(src, jobs, g);
    }
  }

  lemma AllDone(src: Source, jobs: seq<WalkItem>, g: Gathered)
    requires g.ok && Holds(src, jobs, g, |jobs|) && |g.replies| == Openings(jobs, |jobs|)
    ensures Ended(src, jobs, g)
  {}

  /** With and without -r: the entries gathered are those of the first jobs, one each, in order;
      the gathering fails exactly at the first job that does not succeed; and the answers kept
      are those to the openings it came to, in order. */
  lemma GathersJobs(src: Source, recursive: bool, names: seq<string>)
    ensures var jobs, g := Jobs(src, recursive, names), Gather(src, recursive, names);
            && Ended(src, jobs, g)
            && (g.ok <==> forall p | 0 <= p < |jobs| :: Succeeds(src, jobs, p))
  {
    hide VisitItems, VisitMatches, Succeeds, Openings;
    var jobs, start := Jobs(src, recursive, names), Gathered([], [], true);
    OpeningsNone(jobs);
    MatchesAreJobs(src, recursive, start, names);
    assert Holds(src, jobs, start, 0);
    assert jobs[0..] == jobs;
    VisitEnds(src, jobs, start, 0);
  }

  lemma OpeningsNone(jobs: seq<WalkItem>)
    ensures Openings(jobs, 0) == 0
  {}
}
