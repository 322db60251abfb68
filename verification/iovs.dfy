/** Scatter/gather lists over guest memory, shared by the block devices. */
module Iovs {
  const U64 := 0x1_0000_0000_0000_0000

  datatype Iov = Iov(base: nat, len: nat)

  /** Address arithmetic is that of a 64-bit register. */
  function Addr(base: nat, i: nat): nat { (base + i) % U64 }

  /** The guest addresses of `n` bytes from `base`. */
  function Range(base: nat, n: nat): (r: seq<nat>)
    ensures |r| == n
  {
    seq(n, i requires 0 <= i < n => Addr(base, i))
  }

  /** The guest addresses a list of vectors covers, in order. */
  function IovBytes(iov: seq<Iov>): seq<nat> {
    if iov == [] then [] else IovBytes(iov[..|iov| - 1]) + Range(iov[|iov| - 1].base, iov[|iov| - 1].len)
  }

  lemma {:induction false} IovPush(iov: seq<Iov>, v: Iov)
    ensures IovBytes(iov + [v]) == IovBytes(iov) + Range(v.base, v.len)
  {
    assert (iov + [v])[..|iov|] == iov;
  }

  lemma {:induction false} AddrAdds(base: nat, n: nat, i: nat)
    ensures Addr(Addr(base, n), i) == Addr(base, n + i)
  {
  }

  lemma {:induction false} RangeExtends(base: nat, n: nat, m: nat)
    ensures Range(base, n) + Range(Addr(base, n), m) == Range(base, n + m)
  {
    var whole := Range(base, n) + Range(Addr(base, n), m);
    forall k | 0 <= k < n + m ensures whole[k] == Addr(base, k) {
      if k >= n { AddrAdds(base, n, k - n); }
    }
  }

  lemma {:induction false} SubRange(base: nat, size: nat, skip: nat, n: nat)
    requires skip + n <= size
    ensures Range(Addr(base, skip), n) == Range(base, size)[skip..skip + n]
  {
    forall k | 0 <= k < n ensures Range(Addr(base, skip), n)[k] == Range(base, size)[skip + k] {
      AddrAdds(base, skip, k);
    }
  }
}
