/**
  The rewrite buffer of the append-only file: what was fed since the fork, in blocks of fixed size,
  drained at the front by partial writes to the rewriting child.
 */
module AofBuffer {
  import opened AofCodec

  const BLOCK_SIZE: nat := 1024 * 1024 * 10

  /** An aofrwblock: `buf` are its used bytes. */
  datatype Block = Block(buf: Bytes, free: nat)

  function Contents(blocks: seq<Block>): Bytes {
    if blocks == [] then [] else Contents(blocks[..|blocks| - 1]) + blocks[|blocks| - 1].buf
  }

  ghost predicate Sized(blocks: seq<Block>) {
    forall b <- blocks :: |b.buf| + b.free == BLOCK_SIZE
  }

  lemma {:induction false} ContentsFromFront(blocks: seq<Block>)
    requires blocks != []
    ensures Contents(blocks) == blocks[0].buf + Contents(blocks[1..])
  {
    var n := |blocks| - 1;
    if n > 0 {
      ContentsFromFront(blocks[..n]);
      assert blocks[..n][1..] == blocks[1..][..n - 1];
    }
  }

  lemma LastBlockGrows(blocks: seq<Block>, more: Bytes, b: Block)
    requires blocks != [] && b.buf == blocks[|blocks| - 1].buf + more
    ensures Contents(blocks[|blocks| - 1 := b]) == Contents(blocks) + more
  {
  }

  lemma FirstBlockShrinks(blocks: seq<Block>, b: Block, gone: Bytes)
    requires blocks != [] && blocks[0].buf == gone + b.buf
    ensures Contents(blocks) == gone + Contents(blocks[0 := b])
    ensures b.buf == [] ==> Contents(blocks[0 := b]) == Contents(blocks[1..])
  {
    ContentsFromFront(blocks);
    ContentsFromFront(blocks[0 := b]);
    assert blocks[0 := b][1..] == blocks[1..];
  }

  class DiffBuffer {
    var blocks: seq<Block>

    ghost predicate Valid()
      reads this
    {
      Sized(blocks)
    }

    constructor ()
      ensures Valid() && Contents(blocks) == []
    {
      blocks := [];
    }

    /** aofRewriteBufferReset */
    method Reset()
      modifies this
      ensures Valid() && Contents(blocks) == []
    {
      blocks := [];
    }

    /** aofRewriteBufferSize */
    method Size() returns (size: nat)
      ensures size == |Contents(blocks)|
    {
      size := 0;
      for i := 0 to |blocks|
        invariant size == |Contents(blocks[..i])|
      {
        assert blocks[..i + 1][..i] == blocks[..i];
        size := size + |blocks[i].buf|;
      }
      assert blocks[..|blocks|] == blocks;
    }

    /** Fills the last block as far as it goes, and returns what did not fit. */
    method FillLast(s: Bytes) returns (rest: Bytes)
      requires Valid() && blocks != [] && s != []
      modifies this
      ensures Valid() && blocks != [] && Contents(blocks) + rest == old(Contents(blocks)) + s
      ensures rest != [] ==> blocks[|blocks| - 1].free == 0
      ensures |rest| < |s| || (rest == s && old(blocks)[|old(blocks)| - 1].free == 0)
    {
      var last := blocks[|blocks| - 1];
      var taken := if last.free < |s| then last.free else |s|;
      var b := Block(last.buf + s[..taken], last.free - taken);
      LastBlockGrows(blocks, s[..taken], b);
      rest := s[taken..];
      assert s == s[..taken] + rest;
      blocks := blocks[|blocks| - 1 := b];
    }

    method AddBlock()
      requires Valid()
      modifies this
      ensures Valid() && Contents(blocks) == old(Contents(blocks))
      ensures blocks != [] && blocks[|blocks| - 1].free > 0
    {
      assert (blocks + [Block([], BLOCK_SIZE)])[..|blocks|] == blocks;
      blocks := blocks + [Block([], BLOCK_SIZE)];
    }

    /** aofRewriteBufferAppend: everything fed is stored, in order, in full blocks but for the last. */
    method Append(fed: Bytes)
      requires Valid()
      modifies this
      ensures Valid() && Contents(blocks) == old(Contents(blocks)) + fed
    {
      var rest := fed;
      while rest != []
        invariant Valid() && Contents(blocks) + rest == old(Contents(blocks)) + fed
        decreases |rest|, if blocks == [] || blocks[|blocks| - 1].free == 0 then 1 else 0
      {
        if blocks != [] {
          rest := FillLast(rest);
        }
        if rest != [] {
          AddBlock();
        }
      }
    }

    /** Moves the unsent bytes of the first block to its front, and drops the block once it is empty. */
    method DropFront(n: nat)
      requires Valid() && blocks != [] && n <= |blocks[0].buf|
      modifies this
      ensures Valid() && old(Contents(blocks)) == old(blocks[0].buf[..n]) + Contents(blocks)
      ensures |blocks| == |old(blocks)| - if n == |old(blocks[0].buf)| then 1 else 0
    {
      var b := Block(blocks[0].buf[n..], blocks[0].free + n);
      FirstBlockShrinks(blocks, b, blocks[0].buf[..n]);
      blocks := blocks[0 := b];
      if |b.buf| == 0 {
        blocks := blocks[1..];
      }
    }

    /** aofChildWriteDiffData: `accepted` are the results of the successive writes, then the pipe is full.  What was
        sent is a front part of the contents, and the rest stays; unless told to stop, it goes on until everything is
        sent or a write fails, and never sends more than the writes accepted. */
    method SendDiff(stop: bool, accepted: seq<int>) returns (sent: Bytes)
      requires Valid()
      modifies this
      ensures Valid() && old(Contents(blocks)) == sent + Contents(blocks)
      ensures stop ==> sent == []
      ensures !stop ==> blocks == [] || |sent| >= Successes(accepted)
      ensures |sent| <= Total(accepted, Successes(accepted))
      ensures !stop && Successes(accepted) >= |old(blocks)| && (forall a <- accepted :: a >= BLOCK_SIZE) ==>
                blocks == [] && sent == old(Contents(blocks))
    {
      sent := [];
      var i := 0;
      ghost var was, whole := Contents(blocks), forall a <- accepted :: a >= BLOCK_SIZE;
      while !stop && blocks != []
        invariant Valid() && was == sent + Contents(blocks) && i <= Successes(accepted)
        invariant stop ==> sent == []
        invariant i <= |sent| <= Total(accepted, i)
        invariant whole ==> |blocks| + i <= |old(blocks)|
        decreases |blocks|, |accepted| - i
      {
        FirstFailure(accepted, i);
        if |blocks[0].buf| > 0 && (i == |accepted| || accepted[i] <= 0) {
          return;
        }
        assert i < |accepted| ==> accepted[i] in accepted;
        var gone := SendFront(if |blocks[0].buf| > 0 then accepted[i] else 0);
        i := i + if gone != [] then 1 else 0;
        MovedOver(sent, gone, Contents(blocks));
        sent := sent + gone;
      }
      TotalGrows(accepted, i, Successes(accepted));
    }

    /** One round: the write of an accepted part of the first block, if it is not empty, and its removal once it is. */
    method SendFront(a: int) returns (gone: Bytes)
      requires Valid() && blocks != [] && (a > 0 || blocks[0].buf == [])
      modifies this
      ensures Valid() && old(Contents(blocks)) == gone + Contents(blocks)
      ensures var used := |old(blocks[0].buf)|; |gone| == if used == 0 then 0 else if a < used then a else used
      ensures |blocks| == |old(blocks)| - if |gone| == |old(blocks[0].buf)| then 1 else 0
      ensures a >= BLOCK_SIZE ==> |blocks| == |old(blocks)| - 1
    {
      assert blocks[0] in blocks;
      var n := if |blocks[0].buf| == 0 then 0 else if a < |blocks[0].buf| then a else |blocks[0].buf|;
      gone := blocks[0].buf[..n];
      DropFront(n);
    }

    /** aofRewriteBufferWrite: all contents, exactly when each non-empty block in turn was accepted as a whole; else an
        error and a front part. */
    method WriteTo(accepted: seq<int>) returns (ok: bool, written: Bytes)
      ensures ok <==> AllAccepted(Used(blocks), accepted)
      ensures ok ==> written == Contents(blocks)
      ensures !ok ==> written < Contents(blocks)
    {
      written := [];
      var w := 0;
      for i := 0 to |blocks|
        invariant AllWritten(blocks[..i], accepted, written, w)
      {
        var used := |blocks[i].buf|;
        if used > 0 {
          var n := if w >= |accepted| then 0 else if accepted[w] < used then accepted[w] else used;
          if n != used {
            Refused(blocks, i, accepted, written, w);
            return false, written + blocks[i].buf[..if n < 0 then 0 else n];
          }
        }
        OneMoreWritten(blocks, i, accepted, written, w);
        if used > 0 {
          w := w + 1;
          written := written + blocks[i].buf;
        }
      }
      assert blocks[..|blocks|] == blocks;
      ok := true;
    }
  }

  /** All of the blocks were written, by the first `w` writes. */
  ghost predicate AllWritten(blocks: seq<Block>, accepted: seq<int>, written: Bytes, w: nat) {
    written == Contents(blocks) && w == |Used(blocks)| && AllAccepted(Used(blocks), accepted)
  }

  lemma OneMoreWritten(blocks: seq<Block>, i: nat, accepted: seq<int>, written: Bytes, w: nat)
    requires i < |blocks| && AllWritten(blocks[..i], accepted, written, w)
    requires blocks[i].buf != [] ==> w < |accepted| && accepted[w] >= |blocks[i].buf|
    ensures AllWritten(blocks[..i + 1], accepted, written + blocks[i].buf, if blocks[i].buf != [] then w + 1 else w)
    ensures blocks[i].buf == [] ==> written + blocks[i].buf == written
  {
    assert blocks[..i + 1][..i] == blocks[..i];
  }

  lemma Refused(blocks: seq<Block>, i: nat, accepted: seq<int>, written: Bytes, w: nat)
    requires i < |blocks| && AllWritten(blocks[..i], accepted, written, w)
    requires blocks[i].buf != [] && (w < |accepted| ==> accepted[w] < |blocks[i].buf|)
    ensures !AllAccepted(Used(blocks), accepted) && written + blocks[i].buf <= Contents(blocks)
  {
    assert blocks[..i + 1][..i] == blocks[..i];
    UsedGrows(blocks, i + 1);
    RefusedForGood(Used(blocks[..i]), |blocks[i].buf|, Used(blocks), accepted);
    FrontOf(blocks, i);
  }

  lemma MovedOver(sent: Bytes, gone: Bytes, rest: Bytes)
    ensures sent + (gone + rest) == (sent + gone) + rest
  {
  }

  /** How many writes succeed before the first that does not. */
  ghost function Successes(accepted: seq<int>): (n: nat)
    ensures n <= |accepted|
  {
    if accepted == [] || accepted[0] <= 0 then 0 else 1 + Successes(accepted[1..])
  }

  /** The bytes that the first `n` writes accept. */
  ghost function Total(accepted: seq<int>, n: nat): int
    requires n <= |accepted|
  {
    if n == 0 then 0 else Total(accepted, n - 1) + accepted[n - 1]
  }

  lemma {:induction false} FirstFailure(accepted: seq<int>, i: nat)
    requires i <= Successes(accepted)
    ensures i < Successes(accepted) <==> i < |accepted| && accepted[i] > 0
  {
    if i > 0 {
      FirstFailure(accepted[1..], i - 1);
    }
  }

  lemma {:induction false} TotalGrows(accepted: seq<int>, i: nat, n: nat)
    requires i <= n <= Successes(accepted)
    ensures Total(accepted, i) <= Total(accepted, n)
    decreases n
  {
    if i < n {
      FirstFailure(accepted, n - 1);
      TotalGrows(accepted, i, n - 1);
    }
  }

  /** The sizes of the non-empty blocks. */
  ghost function Used(blocks: seq<Block>): seq<nat> {
    if blocks == [] then []
    else
      var prior, last := Used(blocks[..|blocks| - 1]), |blocks[|blocks| - 1].buf|;
      if last > 0 then prior + [last] else prior
  }

  /** Each of the sizes was accepted by a write of its own. */
  ghost predicate AllAccepted(used: seq<nat>, accepted: seq<int>) {
    |used| <= |accepted| && forall i | 0 <= i < |used| :: accepted[i] >= used[i]
  }

  lemma RefusedForGood(prior: seq<nat>, last: nat, used: seq<nat>, accepted: seq<int>)
    requires prior + [last] <= used && (|prior| < |accepted| ==> accepted[|prior|] < last)
    ensures !AllAccepted(used, accepted)
  {
    if |used| <= |accepted| {
      assert used[|prior|] == last;
    }
  }

  lemma {:induction false} UsedGrows(blocks: seq<Block>, n: nat)
    requires n <= |blocks|
    ensures Used(blocks[..n]) <= Used(blocks)
  {
    if n < |blocks| {
      UsedGrows(blocks[..|blocks| - 1], n);
      assert blocks[..|blocks| - 1][..n] == blocks[..n];
    } else {
      assert blocks[..n] == blocks;
    }
  }

  lemma {:induction false} FrontOf(blocks: seq<Block>, i: nat)
    requires i < |blocks|
    ensures Contents(blocks[..i]) + blocks[i].buf <= Contents(blocks)
  {
    var n := |blocks| - 1;
    if i < n {
      FrontOf(blocks[..n], i);
      assert blocks[..n][..i] == blocks[..i];
    }
  }
}
