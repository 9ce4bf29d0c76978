/** What a receiver does on a truncated stream is a prefix of what it does on the whole. */
module Streaming {
  import opened Text
  import opened Paths
  import opened Headers
  import opened Parser
  import opened RunLaws

  predicate Comparable(a: string, b: string) {
    a <= b || b <= a
  }

  /** A handler that never reports more bytes than its reader could deliver. */
  ghost predicate Modest(h: Handler) {
    forall made: seq<Made>, call: Call, window: string ::
      var r := h.write(made, call, window);
      !r.failed ==> r.written <= |window|
  }

  /** The handler took the whole content that was announced. */
  predicate TookAll(m: Made) {
    m.call.WriteCall? && |m.content| == m.call.size
  }

  /** The truncated run's last call saw only part of its content and was turned down. What it took
      and what the same call took in the whole run are parts of one content; if the latter took
      all of it, the former took a prefix. */
  predicate CutOff(cut: Outcome, full: Outcome) {
    && cut.Failed? && |cut.refused| == 1 && cut.refused[0].call.WriteCall?
    && (cut.error.ShortWrite? || cut.error.WriteFailed?)
    && var before := Calls(cut.state.log);
       && |AllMade(full)| > |before|
       && AllMade(full)[..|before|] == before
       && AllMade(full)[|before|].call == cut.refused[0].call
       && Comparable(cut.refused[0].content, AllMade(full)[|before|].content)
       && (TookAll(AllMade(full)[|before|]) ==> cut.refused[0].content <= AllMade(full)[|before|].content)
  }

  predicate Continues(cut: Outcome, full: Outcome) {
    AllMade(cut) <= AllMade(full) || CutOff(cut, full)
  }

  /** The two runs stand at the same place; the truncated one has n bytes left. */
  predicate Lockstep(cut: State, full: State, n: nat) {
    && n <= |full.rest| && cut.rest == full.rest[..n]
    && cut.path == full.path && cut.mtime == full.mtime && cut.atime == full.atime
    && Calls(cut.log) == Calls(full.log)
  }

  /** The call a file header leads to, with the content the handler takes. */
  function MadeBy(h: Handler, st: State, after: string, mode: nat, size: nat, name: string): Made {
    var call := WriteCall(name, Join(st.path, name), mode, size, st.mtime, st.atime);
    var window := Window(after, size);
    Made(call, Taken(h.write(Calls(st.log), call, window), window))
  }

  lemma FileStepMakes(h: Handler, st: State, line: string, after: string, mode: nat, size: nat, name: string)
    ensures var p := FileStep(h, st, line, after, mode, size, name);
            var made := MadeBy(h, st, after, mode, size, name);
            match p
            case More(next) => Calls(next.log) == Calls(st.log) + [made]
            case Stop(o) => o.Failed? && o.state.log == st.log && o.refused == [made]
                            && (o.error.ShortWrite? || o.error.WriteFailed?)
    ensures MadeBy(h, st, after, mode, size, name).call.WriteCall?
  {
    var p := FileStep(h, st, line, after, mode, size, name);
    if p.More? {
      var item := p.state.log[|st.log|];
      CallsSnoc(st.log, item);
      assert Calls([item][..0]) == [];
    }
  }

  lemma LineStepCalls(h: Handler, st: State, line: string, after: string)
    requires LineStep(h, st, line, after).More?
    ensures Calls(st.log) <= Calls(LineStep(h, st, line, after).state.log)
  {
    match ParseLine(line)
    case BadHeader(_) =>
    case FileHeader(mode, size, name) => FileStepMakes(h, st, line, after, mode, size, name);
    case _ => CallsSnoc(st.log, LineStep(h, st, line, after).state.log[|st.log|]);
  }

  lemma {:induction false} CallsGrow(h: Handler, ending: Ending, st: State)
    ensures Calls(st.log) <= AllMade(Run(h, ending, st))
    decreases |st.rest|
  {
    hide ParseLine, Join, Dir, Window, Taken, Calls;
    var p := Step(h, ending, st);
    if p.More? {
      CallsGrow(h, ending, p.state);
      var k := LineEnd(st.rest);
      LineStepCalls(h, st, st.rest[..k], st.rest[k + 1..]);
    }
  }

  lemma TruncatedLine(s: string, n: nat)
    requires n <= |s|
    ensures LineEnd(s[..n]) == Min(n, LineEnd(s))
  {
    var k, m := LineEnd(s), LineEnd(s[..n]);
    assert forall i | 0 <= i < n :: s[..n][i] == s[i];
    assert forall i | 0 <= i < k :: s[..k][i] == s[i] != '\n';
    assert forall i | 0 <= i < m :: s[..n][..m][i] == s[i] != '\n';
  }

  lemma WindowOfTruncated(after: string, n: nat, size: nat)
    requires n <= |after|
    ensures var cut, full := Window(after[..n], size), Window(after, size);
            cut <= full && (cut == full || (cut == after[..n] && |cut| < size))
  {}

  /** A file whose content both runs can deliver alike. */
  lemma FileInBoth(h: Handler, cut: State, full: State, line: string,
                   after: string, n: nat, mode: nat, size: nat, name: string)
    requires n <= |after| && Lockstep(cut.(rest := ""), full, 0)
    requires Window(after[..n], size) == Window(after, size)
    ensures var c := FileStep(h, cut, line, after[..n], mode, size, name);
            var f := FileStep(h, full, line, after, mode, size, name);
            if c.More? then f.More? && Lockstep(c.state, f.state, |c.state.rest|)
            else f.Stop? && AllMade(c.outcome) == AllMade(f.outcome)
  {
    var c := FileStep(h, cut, line, after[..n], mode, size, name);
    var f := FileStep(h, full, line, after, mode, size, name);
    FileStepMakes(h, cut, line, after[..n], mode, size, name);
    FileStepMakes(h, full, line, after, mode, size, name);
    if c.More? {
      var taken := |MadeBy(h, full, after, mode, size, name).content|;
      assert after[..n][taken..] == after[taken..][..n - taken];
    }
  }

  /** A file whose content the truncation cut short: the handler reports a short count. */
  lemma FileCutShort(h: Handler, cut: State, full: State, line: string,
                     after: string, n: nat, mode: nat, size: nat, name: string)
    requires Modest(h) && n <= |after| && Lockstep(cut.(rest := ""), full, 0)
    requires Window(after[..n], size) != Window(after, size)
    ensures FileStep(h, cut, line, after[..n], mode, size, name).Stop?
    ensures var c, f := MadeBy(h, cut, after[..n], mode, size, name), MadeBy(h, full, after, mode, size, name);
            c.call == f.call && Comparable(c.content, f.content) && (TookAll(f) ==> c.content <= f.content)
  {
    WindowOfTruncated(after, n, size);
    var call, wc := MadeBy(h, full, after, mode, size, name).call, Window(after[..n], size);
    var r := h.write(Calls(cut.log), call, wc);
    assert r.failed || r.written <= |wc|;
  }

  /** Nothing but an unfinished line is left. */
  lemma RunsDry(h: Handler, ending: Ending, st: State)
    requires LineEnd(st.rest) == |st.rest|
    ensures AllMade(Run(h, ending, st)) == Calls(st.log)
  {}

  lemma SameLine(h: Handler, early: Ending, ending: Ending, cut: State, full: State, n: nat)
    requires Lockstep(cut, full, n) && LineEnd(full.rest) < n
    ensures var k := LineEnd(full.rest);
            var line, after := full.rest[..k], full.rest[k + 1..];
            && Step(h, early, cut) == LineStep(h, cut, line, after[..n - k - 1])
            && Step(h, ending, full) == LineStep(h, full, line, after)
  {
    hide LineStep, LineEnd;
    var k := LineEnd(full.rest);
    TruncatedLine(full.rest, n);
    assert cut.rest[..k] == full.rest[..k];
    assert cut.rest[k + 1..] == full.rest[k + 1..][..n - k - 1];
  }

  lemma {:induction false} StreamingFrom(h: Handler, early: Ending, ending: Ending, cut: State, full: State, n: nat)
    requires Modest(h) && Lockstep(cut, full, n)
    ensures Continues(Run(h, early, cut), Run(h, ending, full))
    decreases |full.rest|, 1
  {
    hide ParseLine, LineStep, Step, Calls, AllMade, CutOff;
    var k := LineEnd(full.rest);
    if k < n {
      var line, after, m := full.rest[..k], full.rest[k + 1..], n - k - 1;
      SameLine(h, early, ending, cut, full, n);
      if ParseLine(line).FileHeader? {
        StreamingFile(h, early, ending, cut, full, line, after, m);
      } else {
        OtherInBoth(h, cut, full, line, after, m);
        var p, q := LineStep(h, cut, line, after[..m]), LineStep(h, full, line, after);
        if p.More? {
          StreamingFrom(h, early, ending, p.state, q.state, m);
        }
      }
    } else {
      TruncatedLine(full.rest, n);
      RunsDry(h, early, cut);
      CallsGrow(h, ending, full);
    }
  }

  /** A line other than a C line does the same in both runs. */
  lemma OtherInBoth(h: Handler, cut: State, full: State, line: string, after: string, n: nat)
    requires n <= |after| && Lockstep(cut.(rest := ""), full, 0) && !ParseLine(line).FileHeader?
    ensures var c, f := LineStep(h, cut, line, after[..n]), LineStep(h, full, line, after);
            if c.More? then f.More? && Lockstep(c.state, f.state, n) && f.state.rest == after
            else f.Stop? && AllMade(c.outcome) == AllMade(f.outcome)
  {
    hide ParseLine, Join, Dir, FileStep, Calls, DirStep;
    match ParseLine(line)
    case TimeHeader(_, _) => PlainInBoth(cut, full, TimeItem(line));
    case DirHeader(mode, name) => DirInBoth(h, cut, full, line, after, n, mode, name);
    case EndHeader => PlainInBoth(cut, full, EndItem);
    case _ =>
  }

  lemma PlainInBoth(cut: State, full: State, item: Item)
    requires Calls(cut.log) == Calls(full.log)
    ensures Calls(cut.log + [item]) == Calls(full.log + [item])
  {
    CallsSnoc(cut.log, item);
    CallsSnoc(full.log, item);
  }

  lemma DirInBoth(h: Handler, cut: State, full: State, line: string, after: string, n: nat, mode: nat, name: string)
    requires n <= |after| && Lockstep(cut.(rest := ""), full, 0)
    ensures var c, f := DirStep(h, cut, line, after[..n], mode, name), DirStep(h, full, line, after, mode, name);
            if c.More? then f.More? && Lockstep(c.state, f.state, n) && f.state.rest == after
            else f.Stop? && AllMade(c.outcome) == AllMade(f.outcome)
  {
    hide Join, Calls;
    PlainInBoth(cut, full, DirItem(line, MkdirCall(name, Join(cut.path, name), mode, cut.mtime, cut.atime)));
  }

  lemma {:induction false} StreamingFile(h: Handler, early: Ending, ending: Ending, cut: State, full: State,
                                         line: string, after: string, m: nat)
    requires Modest(h) && Lockstep(cut.(rest := ""), full, 0) && m <= |after| && |after| < |full.rest|
    requires Step(h, early, cut) == LineStep(h, cut, line, after[..m])
    requires Step(h, ending, full) == LineStep(h, full, line, after)
    requires ParseLine(line).FileHeader?
    ensures Continues(Run(h, early, cut), Run(h, ending, full))
    decreases |full.rest|, 0
  {
    hide ParseLine, Join, Dir, FileStep, DirStep, MadeBy, Window;
    var FileHeader(mode, size, name) := ParseLine(line);
    var p, q := LineStep(h, cut, line, after[..m]), LineStep(h, full, line, after);
    FileStepMakes(h, cut, line, after[..m], mode, size, name);
    FileStepMakes(h, full, line, after, mode, size, name);
    if Window(after[..m], size) == Window(after, size) {
      FileInBoth(h, cut, full, line, after, m, mode, size, name);
      if p.More? {
        StreamingFrom(h, early, ending, p.state, q.state, |p.state.rest|);
      }
    } else {
      FileCutShort(h, cut, full, line, after, m, mode, size, name);
      if q.More? {
        CallsGrow(h, ending, q.state);
      }
      var before, made := Calls(full.log), MadeBy(h, full, after, mode, size, name);
      var all := AllMade(Run(h, ending, full));
      assert before + [made] <= all;
      assert all[..|before|] == before && all[|before|] == (before + [made])[|before|];
    }
  }

  /** For any stream, any point at which it is cut, and however the two end, the calls made on the
      part are a prefix of those made on the whole, except that the last Write may see less of its
      content, and then is an error. */
  lemma TruncationIsPrefix(h: Handler, early: Ending, ending: Ending, base: string, data: string, n: nat)
    requires Modest(h) && n <= |data|
    ensures Continues(Run(h, early, Start(base, data[..n])), Run(h, ending, Start(base, data)))
  {
    StreamingFrom(h, early, ending, Start(base, data[..n]), Start(base, data), n);
  }

  /** A handler that never reports more bytes than it took. */
  ghost predicate Honest(h: Handler) {
    forall made: seq<Made>, call: Call, window: string ::
      var r := h.write(made, call, window);
      !r.failed ==> r.written <= |Taken(r, window)|
  }

  /** With an honest handler, a content that the whole run accepted begins with what the truncated
      run took of it. */
  lemma TruncationOfAccepted(h: Handler, early: Ending, ending: Ending, base: string, data: string, n: nat)
    requires Honest(h) && n <= |data|
    ensures var cut, full := Run(h, early, Start(base, data[..n])), Run(h, ending, Start(base, data));
            || AllMade(cut) <= AllMade(full)
            || (CutOff(cut, full)
                && (|Calls(cut.state.log)| < |Calls(full.state.log)| ==>
                      cut.refused[0].content <= AllMade(full)[|Calls(cut.state.log)|].content))
  {
    hide Run, ParseLine, Join, Behind;
    HonestIsModest(h);
    var cut, full := Run(h, early, Start(base, data[..n])), Run(h, ending, Start(base, data));
    TruncationIsPrefix(h, early, ending, base, data, n);
    RunFrames(h, ending, base, data);
    var k := |Calls(cut.state.log)|;
    if k < |Calls(full.state.log)| && CutOff(cut, full) {
      AcceptedTookAll(h, base, data, full.state.log, k);
    }
  }

  lemma HonestIsModest(h: Handler)
    requires Honest(h)
    ensures Modest(h)
  {
    forall made: seq<Made>, call: Call, window: string
      ensures !h.write(made, call, window).failed ==> h.write(made, call, window).written <= |window|
    {
      assert |Taken(h.write(made, call, window), window)| <= |window|;
    }
  }

  lemma AcceptedTookAll(h: Handler, base: string, data: string, log: seq<Item>, k: nat)
    requires Honest(h) && Legal(h, base, data, log) && k < |Calls(log)|
    ensures Calls(log)[k].call.WriteCall? ==> TookAll(Calls(log)[k])
  {
    hide ParseLine, Join, Behind, PathAt, Pending, Raw;
    PlaceFacts(log, k);
    var i := Place(log, k);
    assert LegalItem(h, base, Behind(data, log[..i]), log[..i], log[i]);
    if log[i].FileItem? {
      var r := h.write(Calls(log[..i]), log[i].call, Offer(Behind(data, log[..i]), log[i].line, log[i].call.size));
      assert r.written <= |Taken(r, Offer(Behind(data, log[..i]), log[i].line, log[i].call.size))|;
    }
  }
}
