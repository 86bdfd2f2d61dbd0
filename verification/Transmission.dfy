/** What the transmit loop reads, in which pieces, and when it stops. */
module Transmission {
  import opened Machine
  import opened Sequences
  import opened TransmitterModel

  /** Nothing that is read is lost, repeated or reordered. */
  lemma {:induction false} LoopKeepsInput(blockSize: nat, events: seq<TxEvent>, p: TxProgress)
    ensures var q := TxLoop(blockSize, events, p);
            Concat(q.blocks) + q.unread == Concat(p.blocks) + p.unread
    decreases |events|, |p.unread|
  {
    var q := TxTurn(blockSize, NextEvent(blockSize, events), p);
    TurnKeepsInput(blockSize, NextEvent(blockSize, events), p);
    if GoesOn(q) {
      LoopKeepsInput(blockSize, LaterEvents(events), q);
    }
  }

  lemma TurnKeepsInput(blockSize: nat, e: TxEvent, p: TxProgress)
    ensures var q := TxTurn(blockSize, e, p);
            Concat(q.blocks) + q.unread == Concat(p.blocks) + p.unread
  {
    if e.TxReady? {
      var n := ReadSize(blockSize, e.limit, p.unread);
      assert p.unread == p.unread[..n] + p.unread[n..];
      if n > 0 {
        ConcatAppend(p.blocks, [p.unread[..n]]);
        assert Concat([p.unread[..n]]) == p.unread[..n] + [];
        Associative(Concat(p.blocks), p.unread[..n], p.unread[n..]);
      }
    }
  }

  /** The payloads of the data frames are a prefix of the input, whatever happens. */
  lemma DataIsPrefixOfInput(blockSize: nat, events: seq<TxEvent>, input: seq<byte>)
    ensures var p := TxLoop(blockSize, events, Start(input));
            Concat(p.blocks) + p.unread == input
  {
    LoopKeepsInput(blockSize, events, Start(input));
    assert [] + input == input;
  }

  /** If the loop ends undisturbed, it has come to the end of the input. */
  lemma {:induction false} UndisturbedLoopReadsAll(blockSize: nat, events: seq<TxEvent>, p: TxProgress)
    requires blockSize > 0
    ensures var q := TxLoop(blockSize, events, p);
            q.status == TxNormal && q.activated ==> q.unread == []
    decreases |events|, |p.unread|
  {
    var q := TxTurn(blockSize, NextEvent(blockSize, events), p);
    if GoesOn(q) {
      UndisturbedLoopReadsAll(blockSize, LaterEvents(events), q);
    }
  }

  /** A transmission that reports normal status has sent the whole input. */
  lemma NormalStatusMeansAllSent(blockSize: nat, events: seq<TxEvent>, input: seq<byte>, lateStop: bool)
    requires blockSize > 0
    requires FinalStatus(TxLoop(blockSize, events, Start(input)), lateStop) == TxNormal
    ensures Concat(TxLoop(blockSize, events, Start(input)).blocks) == input
  {
    DataIsPrefixOfInput(blockSize, events, input);
    UndisturbedLoopReadsAll(blockSize, events, Start(input));
    var p := TxLoop(blockSize, events, Start(input));
    assert Concat(p.blocks) + [] == Concat(p.blocks);
  }

  ghost predicate BlocksInRange(blockSize: nat, blocks: seq<seq<byte>>) {
    forall i :: 0 <= i < |blocks| ==> 0 < |blocks[i]| <= blockSize
  }

  lemma {:induction false} LoopBlocksInRange(blockSize: nat, events: seq<TxEvent>, p: TxProgress)
    requires BlocksInRange(blockSize, p.blocks)
    ensures BlocksInRange(blockSize, TxLoop(blockSize, events, p).blocks)
    decreases |events|, |p.unread|
  {
    var q := TxTurn(blockSize, NextEvent(blockSize, events), p);
    if GoesOn(q) {
      LoopBlocksInRange(blockSize, LaterEvents(events), q);
    }
  }

  // ---------- Stop requests ----------

  predicate Stops(e: TxEvent) {
    e.TxTimeout? || e.stop
  }

  /**
   A stop request during turn `k` ends the run with that turn: the run has sent what the same run,
   timed out just before that turn, would have sent, and at most one block more.
   */
  lemma {:induction false} AtMostOneBlockAfterStop(blockSize: nat, events: seq<TxEvent>, k: nat, p: TxProgress)
    requires k < |events| && Stops(events[k])
    ensures var q, cut := TxLoop(blockSize, events, p), TxLoop(blockSize, events[..k] + [TxTimeout], p);
            cut.blocks <= q.blocks && |q.blocks| <= |cut.blocks| + 1
    decreases k
  {
    var turn := TxTurn(blockSize, events[0], p);
    var cutEvents := events[..k] + [TxTimeout];
    if k > 0 {
      assert cutEvents[0] == events[0];
      assert cutEvents[1..] == events[1..][..k - 1] + [TxTimeout];
      if GoesOn(turn) {
        AtMostOneBlockAfterStop(blockSize, events[1..], k - 1, turn);
      }
    } else {
      assert cutEvents == [TxTimeout];
    }
  }

  // ---------- Full reads ----------

  /** The input in blocks of `blockSize`, the last one possibly shorter. */
  function Chunks(blockSize: nat, input: seq<byte>): seq<seq<byte>>
    requires blockSize > 0
    decreases |input|
  {
    if input == [] then []
    else if |input| <= blockSize then [input]
    else [input[..blockSize]] + Chunks(blockSize, input[blockSize..])
  }

  lemma {:induction false} FullReadsMakeChunks(blockSize: nat, p: TxProgress)
    requires blockSize > 0 && p.activated
    ensures var q := TxLoop(blockSize, [], p);
            q.blocks == p.blocks + Chunks(blockSize, p.unread) && q.activated && q.status == p.status
    decreases |p.unread|
  {
    var q := TxTurn(blockSize, NextEvent(blockSize, []), p);
    if p.unread != [] {
      FullReadsMakeChunks(blockSize, q);
      if |p.unread| <= blockSize {
        assert p.unread[..|p.unread|] == p.unread;
        assert q.blocks + [] == q.blocks;
      } else {
        Associative(p.blocks, [p.unread[..blockSize]], Chunks(blockSize, q.unread));
      }
    } else {
      assert p.blocks + [] == p.blocks;
    }
  }

  /** There are as many chunks as the length divided by the block size, rounded up. */
  lemma {:induction false} ChunkCount(blockSize: nat, input: seq<byte>)
    requires blockSize > 0
    ensures |Chunks(blockSize, input)| == (|input| + blockSize - 1) / blockSize
    decreases |input|
  {
    if |input| > blockSize {
      var rest := |input| - blockSize;
      ChunkCount(blockSize, input[blockSize..]);
      CeilStep(rest, blockSize);
    } else if input != [] {
      CeilOne(|input|, blockSize);
    }
  }

  lemma MulAtLeast(k: int, d: int)
    requires k >= 1 && d > 0
    ensures k * d >= d
  {
    assert k * d == d + (k - 1) * d;
  }

  lemma QuotientIsUnique(m: int, q: int, d: int)
    requires d > 0 && q * d <= m < q * d + d
    ensures m / d == q
  {
    var x, r := m / d, m % d;
    assert (x - q) * d == m - r - q * d;
    assert (q - x) * d == -((x - q) * d);
    if x > q {
      MulAtLeast(x - q, d);
    } else if x < q {
      MulAtLeast(q - x, d);
    }
  }

  lemma CeilStep(n: nat, d: nat)
    requires d > 0
    ensures (n + d + d - 1) / d == 1 + (n + d - 1) / d
  {
    var q := (n + d - 1) / d;
    assert q * d <= n + d - 1 < q * d + d;
    assert (q + 1) * d == q * d + d;
    QuotientIsUnique(n + d + d - 1, q + 1, d);
  }

  lemma CeilOne(n: nat, d: nat)
    requires 0 < n <= d
    ensures (n + d - 1) / d == 1
  {
    QuotientIsUnique(n + d - 1, 1, d);
  }

  /** All blocks but the last have the given size, and the last is not empty. */
  ghost predicate FullBlocks(size: nat, blocks: seq<seq<byte>>) {
    && (forall i :: 0 <= i < |blocks| - 1 ==> |blocks[i]| == size)
    && (blocks != [] ==> 0 < |blocks[|blocks| - 1]| <= size)
  }

  lemma FullBlocksCons(size: nat, first: seq<byte>, rest: seq<seq<byte>>)
    requires FullBlocks(size, rest) && |first| == size > 0
    ensures FullBlocks(size, [first] + rest)
  {
  }

  lemma {:induction false} ChunksAreFull(blockSize: nat, input: seq<byte>)
    requires blockSize > 0
    ensures FullBlocks(blockSize, Chunks(blockSize, input)) && Concat(Chunks(blockSize, input)) == input
    decreases |input|
  {
    if |input| > blockSize {
      var rest := Chunks(blockSize, input[blockSize..]);
      ChunksAreFull(blockSize, input[blockSize..]);
      FullBlocksCons(blockSize, input[..blockSize], rest);
      assert input == input[..blockSize] + input[blockSize..];
    } else if input != [] {
      assert Concat([input]) == input + [];
    }
  }
}
