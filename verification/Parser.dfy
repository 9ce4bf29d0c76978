/** The receiving side as a state machine: what copyFromClient does with a byte stream and an
    arbitrary handler. Module Receiver holds the loop itself. */
module Parser {
  import opened Text
  import opened Paths
  import opened Headers

  // ---- Handlers ----

  datatype Call =
    | MkdirCall(name: string, path: string, mode: nat, mtime: nat, atime: nat)
    | WriteCall(name: string, path: string, mode: nat, size: nat, mtime: nat, atime: nat)

  /** A handler call as it was made, with the content the handler took from its reader. */
  datatype Made = Made(call: Call, content: string)

  datatype Reply = Reply(taken: nat, written: int, failed: bool)

  /** A handler may keep state, so it answers from the calls made so far. A Write is answered
      from the bytes its reader can deliver; `taken` says how many of them it reads. */
  datatype Handler = Handler(
    mkdir: (seq<Made>, Call) -> bool,
    write: (seq<Made>, Call, string) -> Reply)

  // ---- The log of a run ----

  /** One accepted piece of the stream: its header line and, for a file, the content its handler
      took and the byte skipped after it (none if the stream ends there). */
  datatype Item =
    | TimeItem(line: string)
    | FileItem(line: string, call: Call, content: string, tail: string)
    | DirItem(line: string, call: Call)
    | EndItem

  function Raw(item: Item): string {
    match item
    case TimeItem(line) => line + "\n"
    case FileItem(line, _, content, tail) => line + "\n" + content + tail
    case DirItem(line, _) => line + "\n"
    case EndItem => "E\n"
  }

  function Raws(log: seq<Item>): string {
    if log == [] then "" else Raws(log[..|log| - 1]) + Raw(log[|log| - 1])
  }

  /** The handler calls of a log, in order. */
  function Calls(log: seq<Item>): seq<Made> {
    if log == [] then []
    else
      var front := Calls(log[..|log| - 1]);
      match log[|log| - 1]
      case FileItem(_, call, content, _) => front + [Made(call, content)]
      case DirItem(_, call) => front + [Made(call, "")]
      case _ => front
  }

  // ---- The machine ----

  /** How the stream ends: cleanly, or with a read error. */
  datatype Ending = Eof | Broken

  datatype State = State(path: string, mtime: nat, atime: nat, rest: string, log: seq<Item>, acks: nat)

  /** A run ends well, or with an error and at most one call the handler refused; `state.rest`
      then starts at the line that was not accepted. */
  datatype Outcome =
    | Done(state: State)
    | Failed(state: State, error: Error, refused: seq<Made>)

  datatype Progress = More(state: State) | Stop(outcome: Outcome)

  function Min(a: nat, b: nat): nat {
    if a <= b then a else b
  }

  /** What the limited reader can deliver to a handler that was promised `size` bytes. */
  function Window(after: string, size: nat): string {
    after[..Min(size, |after|)]
  }

  function Taken(r: Reply, window: string): string {
    window[..Min(r.taken, |window|)]
  }

  function FileStep(h: Handler, st: State, line: string, after: string, mode: nat, size: nat, name: string): Progress {
    var call := WriteCall(name, Join(st.path, name), mode, size, st.mtime, st.atime);
    var window := Window(after, size);
    var r := h.write(Calls(st.log), call, window);
    var content := Taken(r, window);
    if r.failed then
      Stop(Failed(st.(acks := st.acks + 1), WriteFailed(name), [Made(call, content)]))
    else if r.written != size then
      Stop(Failed(st.(acks := st.acks + 1), ShortWrite(name, r.written, size), [Made(call, content)]))
    else
      var left := after[|content|..];
      var tail := left[..Min(1, |left|)];
      More(State(st.path, 0, 0, left[|tail|..], st.log + [FileItem(line, call, content, tail)], st.acks + 2))
  }

  function DirStep(h: Handler, st: State, line: string, after: string, mode: nat, name: string): Progress {
    var path := Join(st.path, name);
    var call := MkdirCall(name, path, mode, st.mtime, st.atime);
    if !h.mkdir(Calls(st.log), call) then Stop(Failed(st, MkdirFailed(name), [Made(call, "")]))
    else More(State(path, 0, 0, after, st.log + [DirItem(line, call)], st.acks + 1))
  }

  function LineStep(h: Handler, st: State, line: string, after: string): Progress {
    match ParseLine(line)
    case TimeHeader(m, a) => More(State(st.path, m, a, after, st.log + [TimeItem(line)], st.acks + 1))
    case FileHeader(mode, size, name) => FileStep(h, st, line, after, mode, size, name)
    case DirHeader(mode, name) => DirStep(h, st, line, after, mode, name)
    case EndHeader => More(State(Dir(st.path), st.mtime, st.atime, after, st.log + [EndItem], st.acks + 1))
    case BadHeader(error) => Stop(Failed(st, error, []))
  }

  /** One turn of the reading loop. A last line without a newline is dropped. */
  function Step(h: Handler, ending: Ending, st: State): (p: Progress)
    ensures p.More? ==> |p.state.rest| < |st.rest|
  {
    var k := LineEnd(st.rest);
    if k < |st.rest| then LineStep(h, st, st.rest[..k], st.rest[k + 1..])
    else if ending.Broken? then Stop(Failed(st, ReadLine, []))
    else Stop(Done(st.(acks := st.acks + 1)))
  }

  function Run(h: Handler, ending: Ending, st: State): Outcome
    decreases |st.rest|
  {
    match Step(h, ending, st)
    case More(next) => Run(h, ending, next)
    case Stop(outcome) => outcome
  }

  /** The state in which the loop starts, one acknowledgement already sent. */
  function Start(path: string, data: string): State {
    State(path, 0, 0, data, [], 1)
  }

  /** Every call the handler saw, the refused one included. */
  function AllMade(o: Outcome): seq<Made> {
    Calls(o.state.log) + (if o.Failed? then o.refused else [])
  }

  lemma StepOfLine(h: Handler, ending: Ending, st: State, line: string, after: string)
    requires st.rest == line + "\n" + after && '\n' !in line
    ensures Step(h, ending, st) == LineStep(h, st, line, after)
  {
    LineEndIs(line, after);
    assert st.rest[..|line|] == line;
    assert st.rest[|line| + 1..] == after;
  }

  /** One turn, unfolded. */
  lemma RunTurn(h: Handler, ending: Ending, st: State)
    ensures var k := LineEnd(st.rest);
            Run(h, ending, st) ==
            if k < |st.rest| then
              var p := LineStep(h, st, st.rest[..k], st.rest[k + 1..]);
              if p.More? then Run(h, ending, p.state) else p.outcome
            else if ending.Broken? then Failed(st, ReadLine, [])
            else Done(st.(acks := st.acks + 1))
  {
    hide LineStep;
  }

  lemma RunOfLine(h: Handler, ending: Ending, st: State, line: string, after: string)
    requires st.rest == line + "\n" + after && '\n' !in line
    ensures var p := LineStep(h, st, line, after);
            Run(h, ending, st) == if p.More? then Run(h, ending, p.state) else p.outcome
  {
    hide LineStep;
    StepOfLine(h, ending, st, line, after);
  }

  lemma CallsSnoc(log: seq<Item>, item: Item)
    ensures Calls(log + [item]) == Calls(log) + Calls([item])
    ensures Raws(log + [item]) == Raws(log) + Raw(item)
  {
    assert (log + [item])[..|log|] == log;
    assert Calls([item][..0]) == [];
  }

  lemma {:induction false} CallsConcat(a: seq<Item>, b: seq<Item>)
    ensures Calls(a + b) == Calls(a) + Calls(b)
    decreases |b|
  {
    if b == [] {
      assert a + b == a;
    } else {
      var front, last := b[..|b| - 1], b[|b| - 1];
      assert a + b == (a + front) + [last];
      assert b == front + [last];
      CallsConcat(a, front);
      CallsSnoc(a + front, last);
      CallsSnoc(front, last);
    }
  }
}
