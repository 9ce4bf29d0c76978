/** Both ends together, on the heap. */
module Transfer {
  import opened Text
  import opened Headers
  import opened Trees
  import opened Rebuild
  import opened Parser
  import opened RoundTrip
  import opened EndToEnd
  import opened Entries
  import opened Streams
  import Sender
  import Receiver

  /** A server sends the walk of a directory, and another one receives the bytes, however they
      are split on the way. Both succeed, and the receiver makes exactly the calls that recreate
      the directory if and only if no directory's name is a string prefix of that of a later,
      non-empty sibling. */
  method CopyDirectory(src: Sender.Source, path: string, name: string, ghost base: string, ghost ts: seq<Tree>,
                       target: string, h: Handler, room: nat, chunk: nat -> nat, eager: bool)
    returns (sent: bool, log: seq<Item>, error: Option<Error>)
    requires src.glob(path) == Some([name]) && Sender.Describes(src, name, ts)
    requires WellPathed(ts) && SameParent(ts, base) && AllPrintable(ts)
    requires Accepting(h)
    ensures sent <==> |Print(AppendAll([], Preorder(ts))).bytes| <= room
    ensures sent ==> error == None
    ensures sent ==> (Calls(log) == Events(target, ts) <==> NamesSeparate(ts))
    ensures sent && NamesSeparate(ts) ==> RecreatesAll(base, target, Preorder(ts), Calls(log))
  {
    hide Print, AppendAll, Preorder, Run, Events, Recreates, NamesSeparate, Separate, Sender.Gather;
    PreorderShells(ts);
    Sender.WalkIsGathered(src, name, ts);
    ghost var wire := Print(AppendAll([], Preorder(ts)));
    CopyIsFaithful(h, target, ts);
    CopyOfDirectory(h, base, target, ts);

    var w := new Writer(room);
    ghost var puts, ids;
    sent, puts, ids := Sender.CopyToClient(w, src, true, path);
    assert "" + wire.bytes[..|wire.bytes|] == wire.bytes;
    var session := new Receiver.Session();
    var r := new Reader(w.out, Eof, chunk, eager);
    var refused;
    log, error, refused := Receiver.CopyFromClient(session, r, target, h);
    if sent {
      assert w.out == wire.bytes;
      ghost var o := Run(h, Eof, Start(target, wire.bytes));
      assert o.Done?;
      assert Calls(log) + [] == Calls(log);
      assert AllMade(o) == Calls(log);
    }
  }
}
