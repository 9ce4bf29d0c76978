/** The receiving loop: it works on the shared stream and its own registers, and does what
    module Parser says. */
module Receiver {
  import opened Text
  import opened Paths
  import opened Headers
  import opened Parser
  import opened Streams

  function Nuls(n: nat): string {
    seq(n, i => '\0')
  }

  /** The writing side of a session. */
  class Session {
    var out: string

    constructor ()
      ensures out == ""
    {
      out := "";
    }

    method Ack()
      modifies this
      ensures out == old(out) + "\0"
    {
      out := out + "\0";
    }
  }

  /** r.ReadString and strings.TrimSuffix. */
  method NextLine(r: Reader) returns (line: string, err: ReadError)
    requires r.Valid()
    modifies r`pos
    ensures r.Valid()
    ensures var k := LineEnd(old(r.Rest()));
            if k < |old(r.Rest())|
            then err == NoError && line == old(r.Rest())[..k] && r.Rest() == old(r.Rest())[k + 1..]
            else err == r.EndError()
  {
    line, err := r.ReadString();
    if err == NoError {
      line := line[..|line| - 1];
    }
  }

  /** A handler at work on one file: it reads as many bytes as it wants from the limited reader
      and reports what it says it wrote. */
  method Serve(h: Handler, made: seq<Made>, call: Call, limited: LimitReader)
    returns (content: string, written: int, failed: bool)
    requires limited.r.Valid() && limited.left >= 0
    modifies limited`left, limited.r`pos
    ensures limited.r.Valid()
    ensures var window := Window(old(limited.r.Rest()), old(limited.left));
            var reply := h.write(made, call, window);
            && content == Taken(reply, window) && written == reply.written && failed == reply.failed
            && |content| <= |old(limited.r.Rest())|
            && limited.r.Rest() == old(limited.r.Rest())[|content|..]
  {
    hide ReadStep;
    ghost var all := limited.r.Rest();
    var window := Window(limited.r.Rest(), limited.left);
    var reply := h.write(made, call, window);
    var want := Min(reply.taken, |window|);
    var b := new char[0x8000];
    content := "";
    assert all[0..] == all;
    while |content| < want
      invariant limited.r.Valid() && fresh(b) && b.Length == 0x8000
      invariant |content| <= want && content == all[..|content|] && limited.r.Rest() == all[|content|..]
      invariant limited.left == old(limited.left) - |content|
    {
      ghost var before, offered, room := |content|, limited.r.Offered(), Min(want - |content|, 0x8000);
      var k, e := limited.Read(b, Min(want - |content|, 0x8000));
      StepFacts(all, before, old(limited.left) - before, room, offered);
      assert b[..k] == b[..][..k] == all[before..before + k];
      content := content + b[..k];
    }
    written, failed := reply.written, reply.failed;
  }

  /** handleNewFile: one turn of the loop for a C line. */
  method HandleNewFile(s: Session, r: Reader, h: Handler, ghost st: State, made: seq<Made>, path: string,
                       line: string, mode: nat, size: nat, name: string, mtime: nat, atime: nat)
    returns (item: Item, error: Option<Error>)
    requires r.Valid()
    requires st.path == path && st.mtime == mtime && st.atime == atime && Calls(st.log) == made
    modifies s, r`pos
    ensures r.Valid()
    ensures var p := FileStep(h, st, line, old(r.Rest()), mode, size, name);
            && item.FileItem?
            && (if error.None?
                then p == More(State(path, 0, 0, r.Rest(), st.log + [item], st.acks + 2))
                     && s.out == old(s.out) + "\0\0" && |r.Rest()| <= |old(r.Rest())|
                else p == Stop(Failed(st.(acks := st.acks + 1), error.value, [Made(item.call, item.content)]))
                     && s.out == old(s.out) + "\0")
  {
    hide Join, Window, Taken, Calls;
    ghost var after := r.Rest();
    var call := WriteCall(name, Join(path, name), mode, size, mtime, atime);
    s.Ack();
    var limited := new LimitReader(r, size);
    var content, written, failed := Serve(h, made, call, limited);
    item := FileItem(line, call, content, "");
    if failed {
      return item, Some(WriteFailed(name));
    }
    if written != size {
      return item, Some(ShortWrite(name, written, size));
    }
    ghost var left := after[|content|..];
    var c := r.ReadByte();
    if c.Some? {
      item := FileItem(line, call, content, [c.value]);
      assert left[..1] == [c.value];
    }
    s.Ack();
    error := None;
  }

  lemma MoreNuls(sent: string, n: nat)
    ensures sent + Nuls(n) + "\0" == sent + Nuls(n + 1)
    ensures sent + Nuls(n) + "\0\0" == sent + Nuls(n + 2)
    ensures sent + Nuls(0) == sent
  {
    assert Nuls(n) + "\0" == Nuls(n + 1) && Nuls(n) + "\0\0" == Nuls(n + 2);
    assert Nuls(0) == "";
  }

  /** copyFromClient: for every handler and every stream, however its bytes arrive, the loop's
      log, answers and result are those of Run. */
  method CopyFromClient(s: Session, r: Reader, target: string, h: Handler)
    returns (log: seq<Item>, error: Option<Error>, refused: seq<Made>)
    requires r.Valid()
    modifies s, r`pos
    ensures var o := Run(h, r.ending, Start(target, old(r.Rest())));
            && log == o.state.log
            && s.out == old(s.out) + Nuls(o.state.acks)
            && (o.Done? ==> error == None && refused == [])
            && (o.Failed? ==> error == Some(o.error) && refused == o.refused)
  {
    hide Run, Step, ParseLine, FileStep, Join, Dir, Calls, Nuls, LineEnd;
    s.Ack();
    var path, mtime, atime := target, 0, 0;
    log, refused := [], [];
    ghost var st := Start(target, r.Rest());
    ghost var o := Run(h, r.ending, st);
    MoreNuls(old(s.out), 0);
    while true
      invariant r.Valid() && st == State(path, mtime, atime, r.Rest(), log, st.acks)
      invariant Run(h, r.ending, st) == o
      invariant s.out == old(s.out) + Nuls(st.acks)
      invariant refused == []
      decreases |r.Rest()|
    {
      MoreNuls(old(s.out), st.acks);
      RunTurn(h, r.ending, st);
      var line, err := NextLine(r);
      if err != NoError {
        if err == EofError {
          break;
        }
        return log, Some(ReadLine), [];
      }
      var header := ParseLine(line);
      match header {
        case TimeHeader(m, a) =>
          mtime, atime := m, a;
          s.Ack();
          log := log + [TimeItem(line)];
          st := State(path, mtime, atime, r.Rest(), log, st.acks + 1);
        case FileHeader(mode, size, name) =>
          var item, failure := HandleNewFile(s, r, h, st, Calls(log), path, line, mode, size, name, mtime, atime);
          if failure.Some? {
            return log, failure, [Made(item.call, item.content)];
          }
          mtime, atime := 0, 0;
          log := log + [item];
          st := State(path, 0, 0, r.Rest(), log, st.acks + 2);
        case DirHeader(mode, name) =>
          path := Join(path, name);
          var call := MkdirCall(name, path, mode, mtime, atime);
          if !h.mkdir(Calls(log), call) {
            return log, Some(MkdirFailed(name)), [Made(call, "")];
          }
          mtime, atime := 0, 0;
          s.Ack();
          log := log + [DirItem(line, call)];
          st := State(path, 0, 0, r.Rest(), log, st.acks + 1);
        case EndHeader =>
          path := Dir(path);
          s.Ack();
          log := log + [EndItem];
          st := State(path, mtime, atime, r.Rest(), log, st.acks + 1);
        case BadHeader(e) =>
          return log, Some(e), [];
      }
    }
    s.Ack();
    error := None;
  }
}
