/** The buffered stream that header lines and file contents share, and the reader that frames
    a file's content in it. */
module Streams {
  import opened Text
  import opened Parser

  datatype ReadError = NoError | EofError | StreamError

  // ---- Reading, on values ----

  /** What a limited reader stands on: the bytes to come, and how many it may still hand out. */
  datatype Limited = Limited(rest: string, left: int)

  /** One Read into a buffer of n bytes, when the source offers at most `offered` at once. */
  function ReadStep(s: Limited, n: nat, offered: nat): (string, Limited) {
    if s.left <= 0 then ("", s)
    else
      var k := Min(Min(n, s.left), Min(offered, |s.rest|));
      (s.rest[..k], Limited(s.rest[k..], s.left - k))
  }

  /** Any sequence of Reads, with any buffer sizes and any short reads of the source. */
  function ReadSteps(s: Limited, turns: seq<(nat, nat)>): (string, Limited)
    decreases |turns|
  {
    if turns == [] then ("", s)
    else
      var (got, next) := ReadStep(s, turns[0].0, turns[0].1);
      var (more, last) := ReadSteps(next, turns[1..]);
      (got + more, last)
  }

  lemma ReadStaysInside(s: Limited, n: nat, offered: nat)
    requires s.left >= 0
    ensures var (got, next) := ReadStep(s, n, offered);
            s.rest == got + next.rest && |got| + next.left == s.left && next.left >= 0
  {}

  /** A read in the middle of a stream hands out the next bytes of it. */
  lemma StepFacts(all: string, at: nat, left: int, n: nat, offered: nat)
    requires at <= |all|
    ensures var (got, next) := ReadStep(Limited(all[at..], left), n, offered);
            && at + |got| <= |all|
            && got == all[at..at + |got|] && all[..at] + got == all[..at + |got|]
            && next == Limited(all[at + |got|..], left - |got|)
            && |got| == (if left <= 0 then 0 else Min(Min(n, left), Min(offered, |all| - at)))
  {}

  lemma Prefixes(a: string, b: string, c: string)
    ensures a + (b + c) == (a + b) + c
  {}

  /** Over any run the bytes handed out are a prefix of the stream, never past the limit, and
      bytes handed out and bytes left add up to the limit. */
  lemma {:induction false} ReadsStayInside(s: Limited, turns: seq<(nat, nat)>)
    requires s.left >= 0
    ensures ReadSteps(s, turns).0 + ReadSteps(s, turns).1.rest == s.rest
    ensures |ReadSteps(s, turns).0| + ReadSteps(s, turns).1.left == s.left
    ensures 0 <= ReadSteps(s, turns).1.left
    decreases |turns|
  {
    hide ReadStep;
    if turns == [] {
      assert "" + s.rest == s.rest;
    } else {
      var (n, offered) := turns[0];
      var got, next := ReadStep(s, n, offered).0, ReadStep(s, n, offered).1;
      ReadStaysInside(s, n, offered);
      ReadsStayInside(next, turns[1..]);
      Prefixes(got, ReadSteps(next, turns[1..]).0, ReadSteps(next, turns[1..]).1.rest);
    }
  }

  /** A Read that had room and an offer but returned nothing marks the end: by then the run has
      handed out all there was, up to the limit. */
  lemma ReadsUntilEnd(s: Limited, turns: seq<(nat, nat)>, n: nat, offered: nat)
    requires s.left >= 0 && n > 0 && offered > 0
    requires ReadStep(ReadSteps(s, turns).1, n, offered).0 == ""
    ensures |ReadSteps(s, turns).0| == Min(s.left, |s.rest|)
  {
    ReadsStayInside(s, turns);
  }

  // ---- The buffered stream ----

  class Reader {
    const data: string
    const ending: Ending
    /** The most bytes a Read that starts at a position returns. */
    const chunk: nat -> nat
    /** Whether the last bytes come together with the error that ends the stream. */
    const eager: bool
    var pos: nat

    constructor (data: string, ending: Ending, chunk: nat -> nat, eager: bool)
      ensures Valid() && Rest() == data && this.data == data && this.ending == ending
    {
      this.data := data;
      this.ending := ending;
      this.chunk := chunk;
      this.eager := eager;
      pos := 0;
    }

    ghost predicate Valid()
      reads this
    {
      pos <= |data|
    }

    function Rest(): string
      requires Valid()
      reads this
    {
      data[pos..]
    }

    function EndError(): ReadError {
      if ending.Eof? then EofError else StreamError
    }

    function Offered(): nat
      reads this
    {
      if chunk(pos) == 0 then 1 else chunk(pos)
    }

    /** A line and its newline, or all that is left and the error that ended the stream. */
    method ReadString() returns (line: string, err: ReadError)
      requires Valid()
      modifies this`pos
      ensures Valid()
      ensures var k := LineEnd(old(Rest()));
              if k < |old(Rest())|
              then line == old(Rest())[..k] + "\n" && err == NoError && Rest() == old(Rest())[k + 1..]
              else line == old(Rest()) && err == EndError() && Rest() == ""
    {
      var k := LineEnd(Rest());
      if k < |Rest()| {
        assert Rest()[..k + 1] == Rest()[..k] + "\n";
        line, err := Rest()[..k + 1], NoError;
        assert data[pos + k + 1..] == data[pos..][k + 1..];
        pos := pos + k + 1;
      } else {
        line, err := Rest(), EndError();
        pos := |data|;
      }
    }

    method ReadByte() returns (c: Option<char>)
      requires Valid()
      modifies this`pos
      ensures Valid()
      ensures if old(Rest()) == "" then c == None && Rest() == ""
              else c == Some(old(Rest())[0]) && Rest() == old(Rest())[1..]
    {
      if pos == |data| {
        return None;
      }
      assert data[pos + 1..] == data[pos..][1..];
      c := Some(data[pos]);
      pos := pos + 1;
    }

    /** Fills the first bytes of the slice b[..n]. */
    method Read(b: array<char>, n: nat) returns (k: nat, err: ReadError)
      requires Valid() && n <= b.Length
      modifies this`pos, b
      ensures Valid()
      ensures k == Min(n, Min(old(Offered()), |old(Rest())|))
      ensures b[..] == old(Rest())[..k] + old(b[k..]) && Rest() == old(Rest())[k..]
      ensures err == NoError || (err == EndError() && Rest() == "")
      ensures n > 0 && k == 0 ==> err != NoError
    {
      k := Min(n, Min(Offered(), |Rest()|));
      ghost var was := b[..];
      var from := pos;
      forall i | 0 <= i < k {
        b[i] := data[from + i];
      }
      assert b[..] == data[from..][..k] + was[k..];
      assert data[pos + k..] == data[pos..][k..];
      pos := pos + k;
      err := if pos == |data| && (eager || (n > 0 && k == 0)) then EndError() else NoError;
    }
  }

  // ---- The limited reader ----

  class LimitReader {
    const r: Reader
    var left: int

    constructor (r: Reader, limit: int)
      ensures this.r == r && left == limit
    {
      this.r := r;
      left := limit;
    }

    ghost function View(): Limited
      requires r.Valid()
      reads this, r
    {
      Limited(r.Rest(), left)
    }

    /** One step of the value model; the rest of the buffer is untouched. */
    method Read(b: array<char>, n: nat) returns (k: nat, err: ReadError)
      requires r.Valid() && n <= b.Length
      modifies this`left, r`pos, b
      ensures r.Valid()
      ensures var (got, next) := ReadStep(old(View()), n, old(r.Offered()));
              k == |got| && b[..] == got + old(b[k..]) && View() == next
      ensures old(left) <= 0 ==> err == EofError
      ensures old(left) > 0 ==> err == NoError || (err == r.EndError() && r.Rest() == "")
      ensures n > 0 && k == 0 ==> err != NoError
    {
      if left <= 0 {
        assert b[..] == b[0..];
        return 0, EofError;
      }
      var room := n;
      if room > left {
        room := left;
      }
      k, err := r.Read(b, room);
      left := left - k;
    }

    /** io.Copy: reads into a buffer until the end. What arrives is what the stream holds, up to
        the limit; the stream is left right behind it. A broken stream is reported, unless the
        limit was reached first. */
    method Drain(size: nat) returns (got: string, err: ReadError)
      requires r.Valid() && size > 0
      modifies this`left, r`pos
      ensures r.Valid()
      ensures var n := if old(left) < 0 then 0 else Min(old(left), |old(r.Rest())|);
              && got == old(r.Rest())[..n] && r.Rest() == old(r.Rest())[n..]
              && left == old(left) - n
      ensures err == NoError || err == StreamError
      ensures err == StreamError ==> r.ending.Broken? && r.Rest() == ""
      ensures r.ending.Broken? && old(left) > |old(r.Rest())| ==> err == StreamError
    {
      hide ReadStep;
      var b := new char[size];
      ghost var all := r.Rest();
      got := "";
      assert all[0..] == all;
      while true
        invariant r.Valid() && fresh(b) && b.Length == size
        invariant |got| <= |all| && got == all[..|got|] && r.Rest() == all[|got|..]
        invariant left == old(left) - |got| && (old(left) >= 0 ==> left >= 0)
        invariant old(left) < 0 ==> got == ""
        decreases |r.Rest()|, left
      {
        ghost var before, offered := |got|, r.Offered();
        var k, e := Read(b, size);
        StepFacts(all, before, old(left) - before, size, offered);
        assert b[..k] == b[..][..k] == all[before..before + k];
        got := got + b[..k];
        if e != NoError {
          return got, if e == EofError then NoError else e;
        }
      }
    }
  }
}
