/** Moving bytes about in a buffer, whatever the bytes are. */
module Buffer {

  /** Buffer c is b with the n elements at src moved down to dst. */
  ghost predicate MovedDown<T>(b: seq<T>, c: seq<T>, dst: nat, src: nat, n: nat) {
    && |b| == |c| && dst <= src && src + n <= |b|
    && c[..dst] == b[..dst]
    && c[dst..dst + n] == b[src..src + n]
    && c[dst + n..] == b[dst + n..]
  }

  /** memmove towards the start of the buffer. */
  method MoveDown<T>(blob: array<T>, dst: nat, src: nat, n: nat)
    requires dst <= src && src + n <= blob.Length
    modifies blob
    ensures MovedDown(old(blob[..]), blob[..], dst, src, n)
  {
    ghost var b := blob[..];
    var i := 0;
    while i < n
      invariant i <= n
      invariant forall k :: 0 <= k < dst ==> blob[k] == b[k]
      invariant forall k :: dst <= k < dst + i ==> blob[k] == b[k + (src - dst)]
      invariant forall k :: dst + i <= k < blob.Length ==> blob[k] == b[k]
    {
      blob[dst + i] := blob[src + i];
      i := i + 1;
    }
  }

  /** Of the bytes between lo and hi, remove the first n. */
  method CutOut<T>(blob: array<T>, lo: nat, hi: nat, n: nat)
    requires lo + n <= hi <= blob.Length
    modifies blob
    ensures blob[..lo] == old(blob[..lo])
    ensures blob[lo..hi - n] == old(blob[lo..hi])[n..]
    ensures blob[hi..] == old(blob[hi..])
  {
    ghost var b := blob[..];
    MoveDown(blob, lo, lo + n, hi - lo - n);
    Squeezed(b, blob[..], lo, hi, n);
  }

  lemma Squeezed<T>(b: seq<T>, c: seq<T>, lo: nat, hi: nat, n: nat)
    requires lo + n <= hi <= |b| && MovedDown(b, c, lo, lo + n, hi - lo - n)
    ensures c[..lo] == b[..lo] && c[lo..hi - n] == b[lo..hi][n..] && c[hi..] == b[hi..]
  {
    var m := hi - n;
    assert c[hi..] == c[m..][n..] && b[hi..] == b[m..][n..];
    SliceOfSlice(b, lo, hi, n, hi - lo);
  }

  /** The first n input bytes have been written from offset at on. */
  ghost predicate Filled<T>(b: seq<T>, c: seq<T>, at: nat, input: seq<T>, n: nat) {
    && |b| == |c| && n <= |input| && at + n <= |b|
    && c[..at] == b[..at] && c[at..at + n] == input[..n] && c[at + n..] == b[at + n..]
  }

  method CopyIn<T>(blob: array<T>, at: nat, input: seq<T>, n: nat)
    requires n <= |input| && at + n <= blob.Length
    modifies blob
    ensures Filled(old(blob[..]), blob[..], at, input, n)
  {
    ghost var b := blob[..];
    var i := 0;
    while i < n
      invariant i <= n
      invariant forall k :: 0 <= k < at ==> blob[k] == b[k]
      invariant forall k :: at <= k < at + i ==> blob[k] == input[k - at]
      invariant forall k :: at + i <= k < blob.Length ==> blob[k] == b[k]
    {
      blob[at + i] := input[i];
      i := i + 1;
    }
  }

  lemma TailFilled<T>(b: seq<T>, c: seq<T>, rd1: nat, at: nat, input: seq<T>, n: nat)
    requires Filled(b, c, at, input, n) && rd1 <= at
    ensures c[rd1..at + n] == b[rd1..at] + input[..n]
  {
    assert c[rd1..at + n] == c[rd1..at] + c[at..at + n];
    assert c[rd1..at] == c[..at][rd1..] == b[..at][rd1..] == b[rd1..at];
  }

  lemma SliceOfSlice<T>(b: seq<T>, lo: nat, hi: nat, i: nat, j: nat)
    requires lo <= hi <= |b| && i <= j <= hi - lo
    ensures b[lo..hi][i..j] == b[lo + i..lo + j]
  {
    forall k | 0 <= k < j - i ensures b[lo..hi][i..j][k] == b[lo + i..lo + j][k] {
    }
  }

  lemma SameBelow<T>(b: seq<T>, c: seq<T>, m: nat, i: nat, j: nat)
    requires |b| == |c| && m <= |b| && c[..m] == b[..m] && i <= j <= m
    ensures c[i..j] == b[i..j]
  {
    assert c[i..j] == c[..m][i..j] && b[i..j] == b[..m][i..j];
  }

  lemma SameAbove<T>(b: seq<T>, c: seq<T>, m: nat, i: nat, j: nat)
    requires |b| == |c| && m <= |b| && c[m..] == b[m..] && m <= i <= j <= |b|
    ensures c[i..j] == b[i..j]
  {
    forall k | i <= k < j ensures c[k] == b[k] {
      assert c[k] == c[m..][k - m] && b[k] == b[m..][k - m];
    }
  }

  lemma Same<T>(b: seq<T>, c: seq<T>, k: nat)
    requires |b| == |c| && k <= |b| && b[..k] == c[..k] && b[k..] == c[k..]
    ensures b == c
  {
    assert b == b[..k] + b[k..];
  }
}
