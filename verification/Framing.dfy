/** Stream reassembly of server/src/protocol/frame-decoder.js. */
module Framing {
  import opened Bytes
  import opened Escape

  /** The default frame limit of server/src/config/index.js. */
  const DEFAULT_MAX_FRAME_LENGTH: nat := 4096

  datatype GarbageReason = BeforeFirstDelimiter | OversizeWithoutDelimiter

  datatype Item = Frame(data: seq<byte>) | Garbage(data: seq<byte>, reason: GarbageReason)

  datatype State = State(buffer: seq<byte>, synced: bool)

  datatype Outcome = Outcome(items: seq<Item>, state: State)

  const Fresh := State([], false)

  /** What holds of the decoder between two pushes. */
  predicate Settled(max: nat, st: State)
  {
    FLAG !in st.buffer && |st.buffer| <= max
  }

  // ---------- one byte at a time ----------

  /** What the buffer becomes when a delimiter closes it. */
  function Closed(st: State): seq<Item>
  {
    if st.buffer == [] then []
    else if st.synced then [Frame(st.buffer)]
    else [Garbage(st.buffer, BeforeFirstDelimiter)]
  }

  /** The decoder without its limit, a byte at a time. */
  function Feed(st: State, bytes: seq<byte>): Outcome
    decreases bytes
  {
    if bytes == [] then Outcome([], st)
    else if bytes[0] == FLAG then
      var rest := Feed(State([], true), bytes[1..]);
      Outcome(Closed(st) + rest.items, rest.state)
    else
      Feed(st.(buffer := st.buffer + [bytes[0]]), bytes[1..])
  }

  /** The limit, which a push tests once, on what is left over at its end. */
  function Limit(max: nat, r: Outcome): Outcome
  {
    if |r.state.buffer| > max
    then Outcome(r.items + [Garbage(r.state.buffer, OversizeWithoutDelimiter)], Fresh)
    else r
  }

  function Pushed(max: nat, st: State, chunk: seq<byte>): Outcome
  {
    Limit(max, Feed(st, chunk))
  }

  /** A whole connection: the chunks in the order TCP delivers them. */
  function PushedAll(max: nat, st: State, chunks: seq<seq<byte>>): Outcome
    decreases chunks
  {
    if chunks == [] then Outcome([], st)
    else
      var first := Pushed(max, st, chunks[0]);
      var rest := PushedAll(max, first.state, chunks[1..]);
      Outcome(first.items + rest.items, rest.state)
  }

  function Join(chunks: seq<seq<byte>>): seq<byte>
  {
    if chunks == [] then [] else chunks[0] + Join(chunks[1..])
  }

  // ---------- the class of the source ----------

  lemma {:induction false} FeedAppend(st: State, a: seq<byte>, b: seq<byte>)
    ensures
      var first := Feed(st, a);
      var second := Feed(first.state, b);
      Feed(st, a + b) == Outcome(first.items + second.items, second.state)
    decreases a
  {
    if a == [] {
      assert a + b == b;
    } else {
      assert (a + b)[1..] == a[1..] + b;
      if a[0] == FLAG {
        FeedAppend(State([], true), a[1..], b);
      } else {
        FeedAppend(st.(buffer := st.buffer + [a[0]]), a[1..], b);
      }
    }
  }

  lemma {:induction false} FeedPlain(st: State, bytes: seq<byte>)
    requires FLAG !in bytes
    ensures Feed(st, bytes) == Outcome([], st.(buffer := st.buffer + bytes))
    decreases bytes
  {
    if bytes == [] {
      assert st.buffer + bytes == st.buffer;
    } else {
      FeedPlain(st.(buffer := st.buffer + [bytes[0]]), bytes[1..]);
      assert st.buffer + [bytes[0]] + bytes[1..] == st.buffer + bytes;
    }
  }

  /** Feeding a segment and its delimiter. */
  lemma FeedSegment(synced: bool, segment: seq<byte>, rest: seq<byte>)
    requires FLAG !in segment
    ensures
      var after := Feed(State([], true), rest);
      Feed(State([], synced), segment + [FLAG] + rest)
        == Outcome(Closed(State(segment, synced)) + after.items, after.state)
  {
    FeedPlain(State([], synced), segment);
    assert [] + segment == segment;
    FeedAppend(State([], synced), segment, [FLAG] + rest);
    assert segment + [FLAG] + rest == segment + ([FLAG] + rest);
    assert ([FLAG] + rest)[1..] == rest;
  }

  /** Items already out, followed by everything the remaining bytes still yield. */
  function Continued(out: seq<Item>, st: State, bytes: seq<byte>): Outcome
  {
    var rest := Feed(st, bytes);
    Outcome(out + rest.items, rest.state)
  }

  lemma CutSegment(out: seq<Item>, synced: bool, segment: seq<byte>, rest: seq<byte>)
    requires FLAG !in segment
    ensures Continued(out, State([], synced), segment + [FLAG] + rest)
         == Continued(out + Closed(State(segment, synced)), State([], true), rest)
  {
    FeedSegment(synced, segment, rest);
    var after := Feed(State([], true), rest);
    assert out + (Closed(State(segment, synced)) + after.items) == out + Closed(State(segment, synced)) + after.items;
  }

  lemma StartScan(st: State, chunk: seq<byte>)
    requires FLAG !in st.buffer
    ensures Continued([], State([], st.synced), st.buffer + chunk) == Feed(st, chunk)
  {
    FeedPlain(State([], st.synced), st.buffer);
    assert [] + st.buffer == st.buffer;
    FeedAppend(State([], st.synced), st.buffer, chunk);
  }

  lemma EndScan(out: seq<Item>, st: State)
    requires FLAG !in st.buffer
    ensures Continued(out, State([], st.synced), st.buffer) == Outcome(out, st)
  {
    FeedPlain(State([], st.synced), st.buffer);
    assert [] + st.buffer == st.buffer && out + [] == out;
  }

  lemma {:induction false} FeedSettles(st: State, bytes: seq<byte>)
    requires FLAG !in st.buffer
    ensures FLAG !in Feed(st, bytes).state.buffer
    decreases bytes
  {
    if bytes != [] {
      if bytes[0] == FLAG {
        FeedSettles(State([], true), bytes[1..]);
      } else {
        FeedSettles(st.(buffer := st.buffer + [bytes[0]]), bytes[1..]);
      }
    }
  }

  class FrameDecoder {
    const maxFrameLength: nat
    var buffer: seq<byte>
    var synced: bool

    constructor (maxFrameLength: nat)
      ensures this.maxFrameLength == maxFrameLength && View() == Fresh && Valid()
    {
      this.maxFrameLength := maxFrameLength;
      buffer := [];
      synced := false;
    }

    function View(): State
      reads this
    {
      State(buffer, synced)
    }

    predicate Valid()
      reads this
    {
      Settled(maxFrameLength, View())
    }

    /** push: cuts the collected bytes at every delimiter, then discards an oversize remainder. */
    method Push(chunk: seq<byte>) returns (out: seq<Item>)
      requires Valid()
      modifies this
      ensures Valid()
      ensures Outcome(out, View()) == Pushed(maxFrameLength, old(View()), chunk)
    {
      hide Feed, Continued;
      out := [];
      ghost var target := Feed(View(), chunk);
      StartScan(View(), chunk);
      buffer := buffer + chunk;
      var idx := IndexOfFlag(buffer);
      while idx != -1
        invariant -1 <= idx < |buffer|
        invariant idx == -1 ==> FLAG !in buffer
        invariant idx >= 0 ==> buffer[idx] == FLAG && FLAG !in buffer[..idx]
        invariant Continued(out, State([], synced), buffer) == target
        decreases |buffer|
      {
        var segment := buffer[..idx];
        ghost var next := out + Closed(State(segment, synced));
        CutSegment(out, synced, segment, buffer[idx + 1..]);
        assert buffer == segment + [FLAG] + buffer[idx + 1..];
        if !synced {
          if |segment| > 0 {
            out := out + [Garbage(segment, BeforeFirstDelimiter)];
          }
          synced := true;
        } else if |segment| > 0 {
          out := out + [Frame(segment)];
        }
        assert out == next;
        buffer := buffer[idx + 1..];
        idx := IndexOfFlag(buffer);
      }
      EndScan(out, View());
      if |buffer| > maxFrameLength {
        out := out + [Garbage(buffer, OversizeWithoutDelimiter)];
        buffer := [];
        synced := false;
      }
    }
  }

  /** Buffer.indexOf(0x7E). */
  method IndexOfFlag(buffer: seq<byte>) returns (idx: int)
    ensures -1 <= idx < |buffer|
    ensures idx == -1 <==> FLAG !in buffer
    ensures idx >= 0 ==> buffer[idx] == FLAG && FLAG !in buffer[..idx]
  {
    for i := 0 to |buffer|
      invariant FLAG !in buffer[..i]
    {
      if buffer[i] == FLAG {
        return i;
      }
    }
    return -1;
  }
}
