/** The behaviour of .NET's `Array.Resize<int>(ref int[] array, int newSize)`,
    which the feature-resize action uses to bring a token-id vector to a fixed
    length. A resized vector keeps the first `newSize` entries of the old one
    and fills every position past the old length with `default(int)`, that is 0.

    `Resized` is the reference definition on sequences, stated one position at
    a time; `ArrayResize` is the array operation, proved against it. */
module Resize {

  /** The value a fresh `int[]` holds in every slot. */
  const Pad: int := 0

  /** `n` copies of the pad value. */
  function Zeros(n: nat): seq<int> {
    seq(n, _ => Pad)
  }

  /** The contents of `s` resized to `n` entries: position by position, the
      old entry while there is one, and the pad value after it. */
  function Resized(s: seq<int>, n: nat): (r: seq<int>)
    ensures |r| == n
  {
    if n == 0 then []
    else if s == [] then [Pad] + Resized([], n - 1)
    else [s[0]] + Resized(s[1..], n - 1)
  }

  /** Every position of a resized vector: the input entry below the input's
      length, the pad value from there on. */
  lemma {:induction false} ResizedAt(s: seq<int>, n: nat)
    ensures forall i :: 0 <= i < n ==> Resized(s, n)[i] == if i < |s| then s[i] else Pad
  {
    if n > 0 {
      if s == [] {
        ResizedAt([], n - 1);
      } else {
        ResizedAt(s[1..], n - 1);
      }
    }
  }

  /** A shorter (or equally long) input survives, in order, as the prefix. */
  lemma {:induction false} ResizedKeepsPrefix(s: seq<int>, n: nat)
    requires |s| <= n
    ensures Resized(s, n)[..|s|] == s
  {
    ResizedAt(s, n);
  }

  /** Every position past a shorter input holds the pad value. */
  lemma {:induction false} ResizedPadsWithZeros(s: seq<int>, n: nat)
    requires |s| < n
    ensures forall i :: |s| <= i < n ==> Resized(s, n)[i] == Pad
  {
    ResizedAt(s, n);
  }

  /** A longer input is cut to its first `n` entries; the tail is dropped. */
  lemma {:induction false} ResizedTruncates(s: seq<int>, n: nat)
    requires n <= |s|
    ensures Resized(s, n) == s[..n]
  {
    ResizedAt(s, n);
  }

  /** The whole result at once: the prefix of a longer input, or a shorter
      input followed by as many zeros as are missing. */
  lemma {:induction false} ResizedClosedForm(s: seq<int>, n: nat)
    ensures Resized(s, n) == if n <= |s| then s[..n] else s + Zeros(n - |s|)
  {
    ResizedAt(s, n);
  }

  /** Resizing an empty vector gives nothing but zeros. */
  lemma {:induction false} ResizedEmpty(n: nat)
    ensures Resized([], n) == Zeros(n)
  {
    ResizedAt([], n);
  }

  /** Resizing to the length a vector already has leaves it as it is. */
  lemma {:induction false} ResizedSameLength(s: seq<int>)
    ensures Resized(s, |s|) == s
  {
    ResizedAt(s, |s|);
  }

  /** Resizing twice to the same length is the same as resizing once. */
  lemma {:induction false} ResizedIdempotent(s: seq<int>, n: nat)
    ensures Resized(Resized(s, n), n) == Resized(s, n)
  {
    ResizedSameLength(Resized(s, n));
  }

  /** The contents of a possibly-null array; `Array.Resize` treats a null
      array as an empty one. */
  ghost function Contents(a: array?<int>): seq<int>
    reads a
  {
    if a == null then [] else a[..]
  }

  /** `Array.Resize(ref a, newSize)`: the returned reference is what the `ref`
      argument holds afterwards. When the array already has `newSize` entries
      the same object comes back; otherwise a new array is allocated (the CLR
      zero-fills it) and the first `min(a.Length, newSize)` entries are copied
      into it. The old array itself is never written. */
  method ArrayResize(a: array?<int>, newSize: nat) returns (r: array<int>)
    ensures r.Length == newSize
    ensures r[..] == Resized(Contents(a), newSize)
    ensures a != null && a.Length == newSize ==> r == a
    ensures a == null || a.Length != newSize ==> fresh(r)
  {
    if a != null && a.Length == newSize {
      ResizedSameLength(a[..]);
      return a;
    }
    r := new int[newSize](_ => Pad);
    var copied := if a == null then 0 else if a.Length < newSize then a.Length else newSize;
    var i := 0;
    while i < copied
      invariant 0 <= i <= copied
      invariant forall k :: 0 <= k < i ==> r[k] == Contents(a)[k]
      invariant forall k :: i <= k < newSize ==> r[k] == Pad
    {
      r[i] := a[i];
      i := i + 1;
    }
    ResizedAt(Contents(a), newSize);
  }
}
