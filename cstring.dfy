/** The byte-level routines of <cstring> that the test policies use:
    memcmp, memset and memcpy, over an object's representation as bytes. */
module CString {

  newtype byte = x: int | 0 <= x < 256

  /** memcmp(a, b, |a|): compares byte by byte as unsigned char and answers
      with the sign of the first difference (0 when there is none). */
  function Memcmp(a: seq<byte>, b: seq<byte>): (r: int)
    requires |a| == |b|
    ensures r == 0 <==> a == b
    ensures -1 <= r <= 1
  {
    if |a| == 0 then 0
    else if a[0] < b[0] then -1
    else if a[0] > b[0] then 1
    else
      assert a == [a[0]] + a[1..] && b == [b[0]] + b[1..];
      Memcmp(a[1..], b[1..])
  }

  /** Swapping the operands of memcmp negates its answer. */
  lemma {:induction false} MemcmpAntisymmetric(a: seq<byte>, b: seq<byte>)
    requires |a| == |b|
    ensures Memcmp(b, a) == -Memcmp(a, b)
  {
    if |a| > 0 && a[0] == b[0] {
      MemcmpAntisymmetric(a[1..], b[1..]);
    }
  }

  /** The representation memset(&x, 0, n) leaves behind. */
  function Zeros(n: nat): (z: seq<byte>)
    ensures |z| == n && forall i :: 0 <= i < n ==> z[i] == 0
  {
    seq(n, _ => 0)
  }

  /** memset(dst, v, dst.Length) */
  method Memset(dst: array<byte>, v: byte)
    modifies dst
    ensures forall i :: 0 <= i < dst.Length ==> dst[i] == v
  {
    forall i | 0 <= i < dst.Length {
      dst[i] := v;
    }
  }

  /** memcpy(dst, src, |src|) */
  method Memcpy(dst: array<byte>, src: seq<byte>)
    requires |src| == dst.Length
    modifies dst
    ensures dst[..] == src
  {
    forall i | 0 <= i < dst.Length {
      dst[i] := src[i];
    }
  }
}
