/** What the stream decoder guarantees over a whole connection, for every way TCP may cut the stream into chunks. */
module FramingLaws {
  import opened Bytes
  import opened Escape
  import opened Framing

  // ---------- conservation ----------

  function WithoutFlags(bytes: seq<byte>): seq<byte>
  {
    if bytes == [] then []
    else (if bytes[0] == FLAG then [] else [bytes[0]]) + WithoutFlags(bytes[1..])
  }

  function ItemBytes(items: seq<Item>): seq<byte>
  {
    if items == [] then [] else items[0].data + ItemBytes(items[1..])
  }

  lemma {:induction false} ItemBytesAppend(a: seq<Item>, b: seq<Item>)
    ensures ItemBytes(a + b) == ItemBytes(a) + ItemBytes(b)
  {
    if a == [] {
      assert a + b == b;
    } else {
      assert (a + b)[1..] == a[1..] + b;
      ItemBytesAppend(a[1..], b);
    }
  }

  lemma {:induction false} WithoutFlagsAppend(a: seq<byte>, b: seq<byte>)
    ensures WithoutFlags(a + b) == WithoutFlags(a) + WithoutFlags(b)
  {
    if a == [] {
      assert a + b == b;
    } else {
      assert (a + b)[1..] == a[1..] + b;
      WithoutFlagsAppend(a[1..], b);
    }
  }

  lemma {:induction false} FeedConserves(st: State, bytes: seq<byte>)
    ensures
      var r := Feed(st, bytes);
      ItemBytes(r.items) + r.state.buffer == st.buffer + WithoutFlags(bytes)
    decreases bytes
  {
    if bytes != [] {
      if bytes[0] == FLAG {
        var rest := Feed(State([], true), bytes[1..]);
        FeedConserves(State([], true), bytes[1..]);
        ItemBytesAppend(Closed(st), rest.items);
        assert ItemBytes(Closed(st)) == st.buffer;
      } else {
        FeedConserves(st.(buffer := st.buffer + [bytes[0]]), bytes[1..]);
        assert st.buffer + [bytes[0]] + WithoutFlags(bytes[1..]) == st.buffer + WithoutFlags(bytes);
      }
    }
  }

  lemma PushConserves(max: nat, st: State, chunk: seq<byte>)
    ensures
      var r := Pushed(max, st, chunk);
      ItemBytes(r.items) + r.state.buffer == st.buffer + WithoutFlags(chunk)
  {
    FeedConserves(st, chunk);
    var r := Feed(st, chunk);
    var tail := [Garbage(r.state.buffer, OversizeWithoutDelimiter)];
    ItemBytesAppend(r.items, tail);
    assert tail[1..] == [];
    assert ItemBytes(tail) == r.state.buffer;
  }

  lemma Telescope(i: seq<byte>, b: seq<byte>, j: seq<byte>, c: seq<byte>, s: seq<byte>, w: seq<byte>, v: seq<byte>)
    requires i + b == s + w && j + c == b + v
    ensures i + j + c == s + (w + v)
  {
    assert i + j + c == i + (j + c);
    assert i + (b + v) == (i + b) + v;
    assert (s + w) + v == s + (w + v);
  }

  /** No byte is lost, invented or reordered, oversize input included: over any chunks the input without its
      delimiters is what was emitted, in order, followed by what is still buffered. */
  lemma {:induction false} DecoderConserves(max: nat, st: State, chunks: seq<seq<byte>>)
    ensures
      var r := PushedAll(max, st, chunks);
      ItemBytes(r.items) + r.state.buffer == st.buffer + WithoutFlags(Join(chunks))
    decreases chunks
  {
    if chunks == [] {
      assert st.buffer + [] == st.buffer;
    } else {
      var first := Pushed(max, st, chunks[0]);
      var rest := PushedAll(max, first.state, chunks[1..]);
      PushConserves(max, st, chunks[0]);
      DecoderConserves(max, first.state, chunks[1..]);
      ItemBytesAppend(first.items, rest.items);
      WithoutFlagsAppend(chunks[0], Join(chunks[1..]));
      Telescope(ItemBytes(first.items), first.state.buffer, ItemBytes(rest.items), rest.state.buffer,
                st.buffer, WithoutFlags(chunks[0]), WithoutFlags(Join(chunks[1..])));
    }
  }

  // ---------- chunk invariance ----------

  /** No delimiter-free run, counting the `pending` bytes carried in, exceeds `max` before its last byte arrives. */
  predicate Fits(max: nat, pending: nat, bytes: seq<byte>)
    decreases bytes
  {
    bytes != [] ==> pending <= max && Fits(max, if bytes[0] == FLAG then 0 else pending + 1, bytes[1..])
  }

  lemma {:induction false} FitsAppend(max: nat, st: State, a: seq<byte>, b: seq<byte>)
    requires Fits(max, |st.buffer|, a + b)
    ensures Fits(max, |st.buffer|, a)
    ensures Fits(max, |Feed(st, a).state.buffer|, b)
    decreases a
  {
    if a == [] {
      assert a + b == b;
    } else {
      assert (a + b)[1..] == a[1..] + b;
      if a[0] == FLAG {
        FitsAppend(max, State([], true), a[1..], b);
      } else {
        FitsAppend(max, st.(buffer := st.buffer + [a[0]]), a[1..], b);
      }
    }
  }

  /** Every push leaves the decoder settled. */
  lemma PushSettles(max: nat, st: State, chunk: seq<byte>)
    requires FLAG !in st.buffer
    ensures Settled(max, Pushed(max, st, chunk).state)
  {
    FeedSettles(st, chunk);
  }

  lemma {:induction false} EmptyChunks(max: nat, st: State, chunks: seq<seq<byte>>)
    requires Settled(max, st) && Join(chunks) == []
    ensures PushedAll(max, st, chunks) == Outcome([], st)
    decreases chunks
  {
    if chunks != [] {
      assert chunks[0] == [] && Join(chunks[1..]) == [];
      EmptyChunks(max, st, chunks[1..]);
    }
  }

  /** Within the limit, any chunking is as good as a single push. */
  lemma {:induction false} AsOnePush(max: nat, st: State, chunks: seq<seq<byte>>)
    requires Settled(max, st) && Fits(max, |st.buffer|, Join(chunks))
    ensures PushedAll(max, st, chunks) == Pushed(max, st, Join(chunks))
    decreases chunks
  {
    if chunks != [] {
      var a, b := chunks[0], Join(chunks[1..]);
      PushSettles(max, st, a);
      var first := Pushed(max, st, a);
      if b == [] {
        EmptyChunks(max, first.state, chunks[1..]);
        assert a + b == a;
        assert first.items + [] == first.items;
      } else {
        FitsAppend(max, st, a, b);
        assert first == Feed(st, a);
        AsOnePush(max, first.state, chunks[1..]);
        FeedAppend(st, a, b);
        var second := Feed(first.state, b);
        var tail := [Garbage(second.state.buffer, OversizeWithoutDelimiter)];
        assert first.items + (second.items + tail) == first.items + second.items + tail;
      }
    }
  }

  /** The prefix after which the buffer first exceeds the limit although more bytes follow. */
  lemma {:induction false} Overflow(max: nat, st: State, bytes: seq<byte>) returns (a: seq<byte>, b: seq<byte>)
    requires !Fits(max, |st.buffer|, bytes)
    ensures bytes == a + b && b != []
    ensures |Feed(st, a).state.buffer| > max
    decreases bytes
  {
    if |st.buffer| > max {
      a, b := [], bytes;
    } else {
      if bytes[0] == FLAG {
        a, b := Overflow(max, State([], true), bytes[1..]);
      } else {
        a, b := Overflow(max, st.(buffer := st.buffer + [bytes[0]]), bytes[1..]);
      }
      var tail := a;
      a := [bytes[0]] + a;
      assert a[1..] == tail;
      assert bytes == [bytes[0]] + bytes[1..];
      assert a + b == [bytes[0]] + (tail + b);
    }
  }

  /** What a full buffer turns into when the rest arrives in the same push: never the garbage of just that buffer. */
  lemma {:induction false} FirstItemDiffers(max: nat, st: State, b: seq<byte>)
    requires |st.buffer| > max && b != []
    ensures
      var r := Pushed(max, st, b);
      r.items != [] && r.items[0] != Garbage(st.buffer, OversizeWithoutDelimiter)
    decreases b
  {
    if b[0] != FLAG {
      var grown := st.(buffer := st.buffer + [b[0]]);
      if b[1..] == [] {
        assert Feed(st, b) == Feed(grown, b[1..]);
        assert |grown.buffer| > |st.buffer|;
      } else {
        Grows(max, st, b);
      }
    }
  }

  lemma {:induction false} Grows(max: nat, st: State, b: seq<byte>)
    requires |st.buffer| > max
    ensures
      var r := Pushed(max, st, b);
      && r.items != []
      && (r.items[0].Garbage? && r.items[0].reason.OversizeWithoutDelimiter? ==> |r.items[0].data| == |st.buffer| + |b|)
    decreases b
  {
    if b != [] && b[0] != FLAG {
      Grows(max, st.(buffer := st.buffer + [b[0]]), b[1..]);
      assert Feed(st, b) == Feed(st.(buffer := st.buffer + [b[0]]), b[1..]);
    }
  }

  /** Every two ways to cut the same bytes into chunks give the same items and the same final state. */
  ghost predicate ChunkingIrrelevant(max: nat, st: State, bytes: seq<byte>)
  {
    forall c, d :: Join(c) == bytes && Join(d) == bytes ==> PushedAll(max, st, c) == PushedAll(max, st, d)
  }

  lemma JoinOne(a: seq<byte>)
    ensures Join([a]) == a
  {
    assert [a][1..] == [];
  }

  lemma JoinTwo(a: seq<byte>, b: seq<byte>)
    ensures Join([a, b]) == a + b
  {
    assert [a, b][1..] == [b];
    JoinOne(b);
  }

  lemma PushedOne(max: nat, st: State, a: seq<byte>)
    ensures PushedAll(max, st, [a]) == Pushed(max, st, a)
  {
    assert [a][1..] == [];
    var r := Pushed(max, st, a);
    assert r.items + [] == r.items;
  }

  /** The way TCP cuts a stream is invisible exactly when the stream fits. */
  lemma ChunkInvariance(max: nat, st: State, bytes: seq<byte>)
    requires Settled(max, st)
    ensures ChunkingIrrelevant(max, st, bytes) <==> Fits(max, |st.buffer|, bytes)
  {
    if Fits(max, |st.buffer|, bytes) {
      forall c, d | Join(c) == bytes && Join(d) == bytes
        ensures PushedAll(max, st, c) == PushedAll(max, st, d)
      {
        AsOnePush(max, st, c);
        AsOnePush(max, st, d);
      }
    } else {
      CutMatters(max, st, bytes);
    }
  }

  lemma CutMatters(max: nat, st: State, bytes: seq<byte>)
    requires !Fits(max, |st.buffer|, bytes)
    ensures !ChunkingIrrelevant(max, st, bytes)
  {
    var a, b := Overflow(max, st, bytes);
    JoinOne(bytes);
    JoinTwo(a, b);
    PushedOne(max, st, bytes);
    var full := Feed(st, a);
    Grows(max, full.state, b);
    FirstItemDiffers(max, full.state, b);
    FeedAppend(st, a, b);
    var one := PushedAll(max, st, [bytes]);
    var two := PushedAll(max, st, [a, b]);
    var tail := Feed(full.state, b);
    var mark := [Garbage(full.state.buffer, OversizeWithoutDelimiter)];
    assert Pushed(max, st, a).items == full.items + mark;
    assert two.items[|full.items|] == mark[0];
    var limited := Limit(max, tail);
    assert one.items == full.items + limited.items;
    assert one.items[|full.items|] == limited.items[0];
  }

  function Plain(n: nat): (bytes: seq<byte>)
    ensures |bytes| == n && forall i :: 0 <= i < n ==> bytes[i] == 0x30
  {
    seq(n, _ => 0x30)
  }

  lemma {:induction false} TooLong(max: nat, pending: nat, n: nat)
    requires pending + n > max + 1 && n > 0
    ensures !Fits(max, pending, Plain(n))
    decreases n
  {
    if pending <= max {
      assert Plain(n)[1..] == Plain(n - 1);
      TooLong(max, pending + 1, n - 1);
    }
  }

  /** A stream on which two chunkings disagree at the default limit of 4096: 4098 plain bytes. */
  lemma ChunkingCanMatter()
    ensures !ChunkingIrrelevant(DEFAULT_MAX_FRAME_LENGTH, Fresh, Plain(4098))
  {
    TooLong(DEFAULT_MAX_FRAME_LENGTH, 0, 4098);
    CutMatters(DEFAULT_MAX_FRAME_LENGTH, Fresh, Plain(4098));
  }

  lemma {:induction false} PlainFits(max: nat, pending: nat, payload: seq<byte>, rest: seq<byte>)
    requires FLAG !in payload && pending + |payload| <= max
    requires Fits(max, 0, rest)
    ensures Fits(max, pending, payload + ([FLAG] + rest))
    decreases payload
  {
    var whole := payload + ([FLAG] + rest);
    if payload == [] {
      assert whole == [FLAG] + rest;
      assert whole[1..] == rest;
    } else {
      assert whole[1..] == payload[1..] + ([FLAG] + rest);
      PlainFits(max, pending + 1, payload[1..], rest);
    }
  }

  function Delimited(payload: seq<byte>): seq<byte>
  {
    [FLAG] + payload + [FLAG]
  }

  predicate Sendable(max: nat, payload: seq<byte>)
  {
    payload != [] && FLAG !in payload && |payload| <= max
  }

  lemma FeedDelimited(st: State, payload: seq<byte>, rest: seq<byte>)
    requires payload != [] && FLAG !in payload
    ensures
      var after := Feed(State([], true), rest);
      Feed(st, Delimited(payload) + rest) == Outcome(Closed(st) + ([Frame(payload)] + after.items), after.state)
  {
    var whole := Delimited(payload) + rest;
    assert whole[1..] == payload + [FLAG] + rest;
    FeedSegment(true, payload, rest);
  }

  /** Self-synchronisation: whatever came before, a delimited payload within the limit is delivered as a frame,
      however it is cut; only the bytes already pending are flushed in front of it. */
  lemma Resynchronises(max: nat, st: State, payload: seq<byte>, chunks: seq<seq<byte>>)
    requires Settled(max, st) && Sendable(max, payload)
    requires Join(chunks) == Delimited(payload)
    ensures PushedAll(max, st, chunks) == Outcome(Closed(st) + [Frame(payload)], State([], true))
  {
    assert Delimited(payload)[1..] == payload + ([FLAG] + []);
    PlainFits(max, 0, payload, []);
    AsOnePush(max, st, chunks);
    FeedDelimited(st, payload, []);
    assert Delimited(payload) + [] == Delimited(payload);
    assert [Frame(payload)] + [] == [Frame(payload)];
  }

  function Stream(payloads: seq<seq<byte>>): seq<byte>
  {
    if payloads == [] then [] else Delimited(payloads[0]) + Stream(payloads[1..])
  }

  function Frames(payloads: seq<seq<byte>>): (items: seq<Item>)
    ensures |items| == |payloads|
  {
    seq(|payloads|, i requires 0 <= i < |payloads| => Frame(payloads[i]))
  }

  lemma {:induction false} StreamFits(max: nat, payloads: seq<seq<byte>>)
    requires forall i :: 0 <= i < |payloads| ==> Sendable(max, payloads[i])
    ensures Fits(max, 0, Stream(payloads))
  {
    if payloads != [] {
      StreamFits(max, payloads[1..]);
      var p, rest := payloads[0], Stream(payloads[1..]);
      PlainFits(max, 0, p, rest);
      var whole := Delimited(p) + rest;
      assert whole[1..] == p + ([FLAG] + rest);
    }
  }

  lemma {:induction false} StreamFeeds(synced: bool, payloads: seq<seq<byte>>)
    requires forall i :: 0 <= i < |payloads| ==> payloads[i] != [] && FLAG !in payloads[i]
    ensures Feed(State([], synced), Stream(payloads)) == Outcome(Frames(payloads), State([], synced || payloads != []))
    decreases payloads
  {
    if payloads != [] {
      FeedDelimited(State([], synced), payloads[0], Stream(payloads[1..]));
      StreamFeeds(true, payloads[1..]);
      assert Frames(payloads) == [Frame(payloads[0])] + Frames(payloads[1..]);
    }
  }

  /** Any list of delimited payloads within the limit, cut into chunks in any way, comes out as exactly those frames
      in order, with nothing discarded and nothing left pending. */
  lemma StreamDelivered(max: nat, payloads: seq<seq<byte>>, chunks: seq<seq<byte>>)
    requires forall i :: 0 <= i < |payloads| ==> Sendable(max, payloads[i])
    requires Join(chunks) == Stream(payloads)
    ensures PushedAll(max, Fresh, chunks) == Outcome(Frames(payloads), State([], payloads != []))
  {
    StreamFits(max, payloads);
    AsOnePush(max, Fresh, chunks);
    StreamFeeds(false, payloads);
  }
}
