/** `memmove` and `memset` on a buffer. */
module KernelMemory {

  /** `n` elements copied from `src` to `dst` as if through a snapshot. */
  function Moved<T>(m: seq<T>, dst: nat, src: nat, n: nat): (r: seq<T>)
    requires dst + n <= |m| && src + n <= |m|
    ensures |r| == |m|
    ensures forall k :: 0 <= k < |m| ==> r[k] == if dst <= k < dst + n then m[src + (k - dst)] else m[k]
  {
    m[..dst] + m[src..src + n] + m[dst + n..]
  }

  /** From the first element to the last, for a destination below the source. */
  method CopyUp<T>(a: array<T>, dst: nat, src: nat, n: nat)
    requires dst < src && src + n <= a.Length
    modifies a
    ensures forall k :: 0 <= k < a.Length ==> a[k] == if dst <= k < dst + n then old(a[src + (k - dst)]) else old(a[k])
  {
    var i := 0;
    while i < n
      invariant 0 <= i <= n
      invariant forall k :: 0 <= k < a.Length ==> a[k] == if dst <= k < dst + i then old(a[src + (k - dst)]) else old(a[k])
    {
      a[dst + i] := a[src + i];
      i := i + 1;
    }
  }

  /** From the last element to the first, for a destination above the source. */
  method CopyDown<T>(a: array<T>, dst: nat, src: nat, n: nat)
    requires src <= dst && dst + n <= a.Length
    modifies a
    ensures forall k :: 0 <= k < a.Length ==> a[k] == if dst <= k < dst + n then old(a[src + (k - dst)]) else old(a[k])
  {
    var i := n;
    while i > 0
      invariant 0 <= i <= n
      invariant forall k :: 0 <= k < a.Length ==> a[k] == if dst + i <= k < dst + n then old(a[src + (k - dst)]) else old(a[k])
    {
      a[dst + (i - 1)] := a[src + (i - 1)];
      i := i - 1;
    }
  }

  /** Copies forwards or backwards, so that overlapping source elements are read before they are overwritten. */
  method MemMove<T>(a: array<T>, dst: nat, src: nat, n: nat)
    requires dst + n <= a.Length && src + n <= a.Length
    modifies a
    ensures a[..] == Moved(old(a[..]), dst, src, n)
  {
    if dst < src {
      CopyUp(a, dst, src, n);
    } else {
      CopyDown(a, dst, src, n);
    }
  }

  method MemSet<T>(a: array<T>, dst: nat, value: T, n: nat)
    requires dst + n <= a.Length
    modifies a
    ensures forall k :: 0 <= k < a.Length ==> a[k] == if dst <= k < dst + n then value else old(a[k])
  {
    var i := 0;
    while i < n
      invariant 0 <= i <= n
      invariant forall k :: 0 <= k < a.Length ==> a[k] == if dst <= k < dst + i then value else old(a[k])
    {
      a[dst + i] := value;
      i := i + 1;
    }
  }
}
