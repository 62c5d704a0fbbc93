/** The 32-byte transmit and receive buffers of the RK3x I2C controller, and the chunks a transfer is cut
    into to go through them. */
module I2cChunks {
  import opened Machine32

  const CHUNK: nat := 32

  // ---- the buffer registers ----

  /** A 32-bit buffer register by its four bytes, the lowest first: `val |= byte << (j * 8)` on a register
      still clear there is an update of byte j, and `(val >> (j * 8)) & 0xff` is byte j. */
  type Word = w: seq<byte> | |w| == 4 witness [0, 0, 0, 0]

  const ZERO: Word := [0, 0, 0, 0]

  type Buffer = b: seq<Word> | |b| == 8 witness [ZERO, ZERO, ZERO, ZERO, ZERO, ZERO, ZERO, ZERO]

  /** The first `count` bytes of the buffer, as the controller puts them on the wire. */
  function Held(words: Buffer, count: nat): (r: seq<byte>)
    requires count <= CHUNK
    ensures |r| == count
  {
    seq(count, k requires 0 <= k < count => words[k / 4][k % 4])
  }

  /** Storing register number i, of which the first `n` bytes matter, extends what the buffer holds. */
  lemma HeldGrows(words: Buffer, i: nat, val: Word, n: nat)
    requires i < 8 && n <= 4
    ensures Held(words[i := val], 4 * i + n) == Held(words, 4 * i) + val[..n]
  {
    var a, b := Held(words[i := val], 4 * i + n), Held(words, 4 * i) + val[..n];
    forall k | 0 <= k < |a|
      ensures a[k] == b[k]
    {
      if k < 4 * i {
        assert k / 4 < i;
      } else {
        assert k / 4 == i && k % 4 == k - 4 * i;
      }
    }
  }

  // ---- chunks ----

  function Concat(chunks: seq<seq<byte>>): seq<byte> {
    if chunks == [] then [] else Concat(chunks[..|chunks| - 1]) + chunks[|chunks| - 1]
  }

  lemma ConcatSnoc(chunks: seq<seq<byte>>, c: seq<byte>)
    ensures Concat(chunks + [c]) == Concat(chunks) + c
  {
    assert (chunks + [c])[..|chunks|] == chunks;
  }

  /** `done` bytes of `total` went through in chunks of 1 to 32 bytes, all full but the last one; when all
      have, there were as many chunks as it takes. */
  predicate Chunked(chunks: seq<seq<byte>>, total: nat, done: nat) {
    && |Concat(chunks)| == done <= total
    && (forall c <- chunks :: 1 <= |c| <= CHUNK)
    && (done < total ==> done == CHUNK * |chunks|)
    && (done == total ==> |chunks| == (total + CHUNK - 1) / CHUNK)
  }

  lemma ChunkedSnoc(chunks: seq<seq<byte>>, total: nat, done: nat, c: seq<byte>)
    requires Chunked(chunks, total, done) && done < total
    requires |c| == if total - done > CHUNK then CHUNK else total - done
    ensures Chunked(chunks + [c], total, done + |c|)
  {
    ConcatSnoc(chunks, c);
    CountIs(|chunks|, total, |c|);
  }

  lemma CountIs(n: nat, total: nat, c: nat)
    requires CHUNK * n < total && c == if total - CHUNK * n > CHUNK then CHUNK else total - CHUNK * n
    ensures CHUNK * n + c < total ==> c == CHUNK
    ensures CHUNK * n + c == total ==> (total + CHUNK - 1) / CHUNK == n + 1
  {
  }
}
