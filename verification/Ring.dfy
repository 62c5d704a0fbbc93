/** Index arithmetic of the driver's rings. A ring of `n` elements is walked with `(i + 1) & (n - 1)`,
    n being a power of two, that is with remainders by n; here the wrap is written as a comparison. */
module Ring {
  function Wrap(i: nat, n: nat): (r: nat)
    requires i < 2 * n
    ensures r < n
  {
    if i < n then i else i - n
  }

  function Next(i: nat, n: nat): (r: nat)
    requires i < n
    ensures r < n
  {
    Wrap(i + 1, n)
  }

  /** Elements from `from` up to, not including, `to`. */
  function Count(from: nat, to: nat, n: nat): (r: nat)
    requires from < n && to < n
    ensures r < n && Wrap(from + r, n) == to
  {
    if from <= to then to - from else to + n - from
  }

  /** EMPTY_DESC_REMAINING: one element of the ring always stays free. */
  function EmptyRemaining(begin: nat, index: nat, n: nat): (r: nat)
    requires begin < n && index < n
    ensures r == n - 1 - Count(begin, index, n)
  {
    if begin > index then begin - 1 - index else begin - 1 - index + n
  }

  lemma CountIs(from: nat, k: nat, n: nat)
    requires from < n && k < n
    ensures Count(from, Wrap(from + k, n), n) == k
  {
  }

  /** The masked forms are remainders, the ring sizes in use being powers of two. */
  lemma WrapIsRemainder(i: nat, begin: nat, n: nat)
    requires n == 64 || n == 128 || n == 256 || n == 512 || n == 1024
    requires i < n && begin < n
    ensures Next(i, n) == (i + 1) % n
    ensures EmptyRemaining(begin, i, n) == (begin - 1 - i) % n
  {
  }

  /** The `len` elements of a ring from `start` on. */
  function Slice<T>(s: seq<T>, start: nat, len: nat): (r: seq<T>)
    requires start < |s| && len <= |s|
    ensures |r| == len
  {
    seq(len, i requires 0 <= i < len => s[Wrap(start + i, |s|)])
  }

  lemma SliceAppend<T>(s: seq<T>, start: nat, len: nat, x: T)
    requires start < |s| && len < |s|
    ensures Slice(s[Wrap(start + len, |s|) := x], start, len + 1) == Slice(s, start, len) + [x]
  {
    var t := s[Wrap(start + len, |s|) := x];
    var a, b := Slice(t, start, len + 1), Slice(s, start, len) + [x];
    forall i | 0 <= i < len + 1
      ensures a[i] == b[i]
    {
      assert a[i] == t[Wrap(start + i, |s|)];
      if i < len {
        assert Wrap(start + i, |s|) != Wrap(start + len, |s|);
        assert b[i] == s[Wrap(start + i, |s|)];
      }
    }
  }

  lemma SliceDrop<T>(s: seq<T>, start: nat, k: nat, len: nat)
    requires start < |s| && k <= len <= |s| && k < |s|
    ensures Slice(s, Wrap(start + k, |s|), len - k) == Slice(s, start, len)[k..]
  {
    var a, b := Slice(s, Wrap(start + k, |s|), len - k), Slice(s, start, len)[k..];
    forall i | 0 <= i < len - k
      ensures a[i] == b[i]
    {
      assert Wrap(Wrap(start + k, |s|) + i, |s|) == Wrap(start + (k + i), |s|);
      assert b[i] == Slice(s, start, len)[k + i];
    }
  }

  lemma SliceTake<T>(s: seq<T>, start: nat, k: nat, len: nat)
    requires start < |s| && k <= len <= |s|
    ensures Slice(s, start, len)[..k] == Slice(s, start, k)
  {
  }
}
