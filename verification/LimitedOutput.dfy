/** limitedOutput, executor.go: the head and a rolling tail of a stream within a byte
    budget. Its state after any sequence of writes depends only on the bytes written. */
module LimitedOutput {
  import opened Sequences
  import opened Bytes

  // What a budget of headMax + tailMax bytes keeps of a whole stream s.

  function KeptHead(s: seq<Byte>, headMax: nat): seq<Byte> { s[..Min(headMax, |s|)] }

  function Dropped(s: seq<Byte>, headMax: nat, tailMax: nat): nat {
    if |s| > headMax + tailMax then |s| - headMax - tailMax else 0
  }

  function KeptTail(s: seq<Byte>, headMax: nat, tailMax: nat): seq<Byte> {
    s[Min(headMax, |s|) + Dropped(s, headMax, tailMax)..]
  }

  lemma {:induction false} SplitCount(s: seq<Byte>)
    ensures |Split(s, NEWLINE)| == Count(s, NEWLINE) + 1
    ensures var parts := Split(s, NEWLINE); parts[|parts| - 1] == [] <==> s == [] || s[|s| - 1] == NEWLINE
  {
    if s != [] {
      SplitCount(s[1..]);
    }
  }

  function Taken(s: seq<Byte>, p: seq<Byte>, headMax: nat): nat {
    if |s| < headMax then Min(headMax - |s|, |p|) else 0
  }

  lemma HeadAfter(s: seq<Byte>, p: seq<Byte>, headMax: nat)
    ensures KeptHead(s + p, headMax) == KeptHead(s, headMax) + p[..Taken(s, p, headMax)]
  {
  }

  /** The rolling tail after q more bytes, and how many bytes fall out. */
  function Rolled(tail: seq<Byte>, q: seq<Byte>, tailMax: nat): seq<Byte> {
    if |q| >= tailMax then q[|q| - tailMax..]
    else if |tail| + |q| > tailMax then (tail + q)[|tail| + |q| - tailMax..]
    else tail + q
  }

  function FallenOut(tail: seq<Byte>, q: seq<Byte>, tailMax: nat): nat {
    if |tail| + |q| > tailMax then |tail| + |q| - tailMax else 0
  }

  /** A rolled tail is the end of everything it has seen. */
  lemma RolledIsSuffix(tail: seq<Byte>, q: seq<Byte>, tailMax: nat)
    ensures Rolled(tail, q, tailMax) == (tail + q)[FallenOut(tail, q, tailMax)..]
  {
  }

  lemma SuffixJoins(s: seq<Byte>, p: seq<Byte>, i: nat, j: nat)
    requires i <= |s| && j <= |p| && (j == 0 || i == |s|)
    ensures (s + p)[i + j..] == s[i..] + p[j..]
  {
  }

  lemma KeptTailAfter(s: seq<Byte>, p: seq<Byte>, headMax: nat, tailMax: nat)
    ensures var q := p[Taken(s, p, headMax)..];
            var tail, t := KeptTail(s, headMax, tailMax), s + p;
            && Dropped(t, headMax, tailMax) == Dropped(s, headMax, tailMax) + FallenOut(tail, q, tailMax)
            && KeptTail(t, headMax, tailMax) == (tail + q)[FallenOut(tail, q, tailMax)..]
  {
    var i, j := Min(headMax, |s|) + Dropped(s, headMax, tailMax), Taken(s, p, headMax);
    SuffixJoins(s, p, i, j);
    DropDrop(s + p, i + j, FallenOut(s[i..], p[j..], tailMax));
  }

  class Output {
    const headMax: nat
    const tailMax: nat
    var head: seq<Byte>
    var tail: seq<Byte>
    var omitted: nat
    var newlines: nat
    var lastByte: Byte
    var wroteAny: bool
    ghost var stream: seq<Byte> // everything written so far

    ghost predicate Valid()
      reads this
    {
      && head == KeptHead(stream, headMax)
      && tail == KeptTail(stream, headMax, tailMax)
      && omitted == Dropped(stream, headMax, tailMax)
      && newlines == Count(stream, NEWLINE)
      && (wroteAny <==> stream != [])
      && (wroteAny ==> lastByte == stream[|stream| - 1])
    }

    constructor (limit: nat)
      ensures Valid() && stream == []
      ensures headMax + tailMax == limit && tailMax == limit / 2
    {
      tailMax := limit / 2;
      headMax := limit - limit / 2;
      head, tail, omitted, newlines, lastByte, wroteAny := [], [], 0, 0, 0, false;
      stream := [];
    }

    method Write(p0: seq<Byte>) returns (n: nat)
      requires Valid()
      modifies this
      ensures Valid() && n == |p0|
      ensures stream == old(stream) + p0
    {
      n := |p0|;
      if n == 0 {
        assert stream + p0 == stream;
        return;
      }
      ghost var s, t := stream, stream + p0;
      HeadAfter(s, p0, headMax);
      KeptTailAfter(s, p0, headMax, tailMax);
      CountLines(p0);
      var p := FillHead(p0, s);
      Roll(p);
      stream := t;
    }

    /** The part of Write that fills the head, and what is left for the tail. */
    method FillHead(p0: seq<Byte>, ghost s: seq<Byte>) returns (p: seq<Byte>)
      requires head == KeptHead(s, headMax)
      modifies this`head
      ensures head == old(head) + p0[..Taken(s, p0, headMax)] && p == p0[Taken(s, p0, headMax)..]
    {
      p := p0;
      WholeAndNothing(head);
      var room := headMax - |head|;
      if room > 0 {
        var take := if room > |p| then |p| else room;
        head := head + p[..take];
        p := p[take..];
      }
    }

    method CountLines(p: seq<Byte>)
      requires p != [] && newlines == Count(stream, NEWLINE)
      modifies this`wroteAny, this`newlines, this`lastByte
      ensures wroteAny && newlines == Count(stream + p, NEWLINE)
      ensures lastByte == (stream + p)[|stream + p| - 1]
    {
      wroteAny := true;
      CountConcat(stream, p, NEWLINE);
      newlines := newlines + Count(p, NEWLINE);
      lastByte := p[|p| - 1];
    }

    /** The part of Write past the head. */
    method Roll(p: seq<Byte>)
      modifies this`tail, this`omitted
      requires |tail| <= tailMax
      ensures tail == (old(tail) + p)[FallenOut(old(tail), p, tailMax)..]
      ensures omitted == old(omitted) + FallenOut(old(tail), p, tailMax)
    {
      RolledIsSuffix(tail, p, tailMax);
      if |p| == 0 { return; }
      if |p| >= tailMax {
        omitted := omitted + |tail| + |p| - tailMax;
        tail := p[|p| - tailMax..];
        return;
      }
      tail := tail + p;
      var over := |tail| - tailMax;
      if over > 0 {
        omitted := omitted + over;
        tail := tail[over..];
      }
    }

    /** Any chunking of a stream ends in the state of one write of the whole stream. */
    method WriteAll(chunks: seq<seq<Byte>>)
      requires Valid()
      modifies this
      ensures Valid() && stream == old(stream) + Flat(chunks)
    {
      assert old(stream) + [] == old(stream);
      for i := 0 to |chunks|
        invariant Valid()
        invariant stream + Flat(chunks[i..]) == old(stream) + Flat(chunks)
      {
        DropDrop(chunks, i, 1);
        Assoc(stream, chunks[i], Flat(chunks[i + 1..]));
        var _ := Write(chunks[i]);
      }
      assert Flat(chunks[|chunks|..]) == [];
    }

    method Head() returns (out: seq<Byte>)
      requires Valid()
      ensures omitted == 0 ==> out == stream
      ensures omitted > 0 ==> out == stream[..headMax]
    {
      if omitted == 0 && |tail| > 0 {
        out := head + tail;
      } else {
        out := head;
      }
    }

    /** The kept tail, None when nothing was dropped; head, dropped bytes and tail make up the stream. */
    method Tail() returns (out: Option<seq<Byte>>)
      requires Valid()
      ensures omitted == 0 <==> out.None?
      ensures omitted == 0 <==> |stream| <= headMax + tailMax
      ensures out.Some? ==>
                && |out.value| == tailMax
                && headMax + omitted + tailMax == |stream|
                && stream == stream[..headMax] + stream[headMax..headMax + omitted] + out.value
    {
      if omitted == 0 { return None; }
      out := Some(tail);
    }

    method LineCount() returns (n: nat)
      requires Valid()
      ensures n == |Lines(stream)|
    {
      SplitCount(stream);
      if !wroteAny { return 0; }
      if lastByte == NEWLINE { return newlines; }
      n := newlines + 1;
    }
  }
}
