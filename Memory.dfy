/// Bytes, the size_t range, C strings, the system allocator and the two
/// allocation primitives of BString.c (AllocateString, ReallocateString).
module Memory {

  newtype byte = b: int | 0 <= b < 256

  datatype Option<T> = None | Some(value: T)

  /// Largest value of a 64-bit size_t.
  const SIZE_MAX: nat := 0xFFFF_FFFF_FFFF_FFFF

  /// BSTRING_NPOS is (size_t)-1: "length unknown, scan for the NUL" as an
  /// argument, "no position" as a result.
  const NPOS: nat := SIZE_MAX

  /// strlen: the index of the first NUL byte of the memory at p.
  function StrLen(p: seq<byte>): (n: nat)
    requires 0 in p
    ensures n < |p| && p[n] == 0
    ensures 0 !in p[..n]
  {
    if p[0] == 0 then 0 else 1 + StrLen(p[1..])
  }

  /// The characters of the C string at p, without its terminator.
  function CStr(p: seq<byte>): (s: seq<byte>)
    requires 0 in p
  {
    p[..StrLen(p)]
  }

  /// The bytes readable through a pointer to the start of block p
  /// (nothing for NULL).
  function Mem(p: array?<byte>): (s: seq<byte>)
    reads p
    ensures p == null ==> s == []
    ensures p != null ==> s == p[..]
  {
    if p == null then [] else p[..]
  }

  /// The n bytes that memcpy reads from block p starting at `from`;
  /// a zero-byte read touches nothing, not even a NULL pointer.
  function Read(p: array?<byte>, from: nat, n: nat): (s: seq<byte>)
    reads p
    requires n == 0 || (p != null && from + n <= p.Length)
    ensures |s| == n
    ensures n > 0 ==> s == p[from..from + n]
  {
    if n == 0 then [] else p[from..from + n]
  }

  /// A pointer into a block: BStringBegin and BStringEnd return these.
  datatype Ptr = Ptr(block: array?<byte>, offset: nat)

  /// Pointer subtraction `to - from`, defined within one block.
  function Distance(from: Ptr, to: Ptr): (d: int)
    requires from.block == to.block
  {
    to.offset - from.offset
  }

  /// The system allocator. `live` holds the blocks that malloc or realloc
  /// handed out and that have not been released since; the static literal
  /// "" is never in it.
  class Allocator {
    ghost var live: set<array?<byte>>

    constructor ()
      ensures live == {}
    {
      live := {};
    }

    /// malloc(n): a fresh block of n bytes with unspecified content, or
    /// NULL when the request cannot be satisfied.
    method Malloc(n: nat) returns (p: array?<byte>)
      modifies this
      ensures p == null ==> live == old(live)
      ensures p != null ==> fresh(p) && p.Length == n && live == old(live) + {p}
    {
      var granted: bool :| true;
      if granted {
        p := new byte[n];
        live := live + {p};
      } else {
        p := null;
      }
    }

    /// realloc(q, n): a block of n bytes whose first min(|q|, n) bytes are
    /// those of q, q itself released; NULL on failure, q left valid and
    /// untouched. realloc(NULL, n) behaves as malloc(n).
    method Realloc(q: array?<byte>, n: nat) returns (p: array?<byte>)
      requires q == null || q in live
      modifies this
      ensures p == null ==> live == old(live)
      ensures p != null ==> fresh(p) && p.Length == n && live == old(live) - {q} + {p}
      ensures p != null ==> forall i :: 0 <= i < n && i < |Mem(q)| ==> p[i] == Mem(q)[i]
    {
      var granted: bool :| true;
      if granted {
        var kept := Mem(q);
        p := new byte[n](i => if 0 <= i < |kept| then kept[i] else 0);
        live := live - {q} + {p};
      } else {
        p := null;
      }
    }

    /// free(p): releases a live block; free(NULL) does nothing. Releasing
    /// anything else (a block freed before, a static literal) is undefined.
    method Free(p: array?<byte>)
      requires p == null || p in live
      modifies this
      ensures live == old(live) - {p}
    {
      live := live - {p};
    }
  }

  /// AllocateString: a fresh block of n + 1 bytes whose byte n is the
  /// terminator, or NULL.
  method AllocateString(heap: Allocator, n: nat) returns (p: array?<byte>)
    modifies heap
    ensures p == null ==> heap.live == old(heap.live)
    ensures p != null ==> fresh(p) && p.Length == n + 1 && p[n] == 0
    ensures p != null ==> heap.live == old(heap.live) + {p}
  {
    p := heap.Malloc(n + 1);
    if p != null {
      p[n] := 0;
    }
  }

  /// ReallocateString: resizes q to n + 1 bytes, keeping its first bytes,
  /// and writes the terminator at n; NULL on failure with q untouched.
  method ReallocateString(heap: Allocator, q: array?<byte>, n: nat) returns (p: array?<byte>)
    requires q == null || q in heap.live
    modifies heap
    ensures p == null ==> heap.live == old(heap.live)
    ensures p != null ==> fresh(p) && p.Length == n + 1 && p[n] == 0
    ensures p != null ==> heap.live == old(heap.live) - {q} + {p}
    ensures p != null ==> forall i :: 0 <= i < n && i < |Mem(q)| ==> p[i] == Mem(q)[i]
  {
    p := heap.Realloc(q, n + 1);
    if p != null {
      p[n] := 0;
    }
  }

  /// A prefix of an array, cut in two.
  lemma PrefixSplit(a: array<byte>, i: nat, j: nat)
    requires i <= j <= a.Length
    ensures a[..j] == a[..i] + a[i..j]
  {
  }

  /// memcpy(dst + at, src, |src|): only the target window changes.
  method MemCpy(dst: array<byte>, at: nat, src: seq<byte>)
    requires at + |src| <= dst.Length
    modifies dst
    ensures dst[..at] == old(dst[..at])
    ensures dst[at..at + |src|] == src
    ensures dst[at + |src|..] == old(dst[at + |src|..])
    ensures forall j :: at + |src| <= j < dst.Length ==> dst[j] == old(dst[j])
  {
    for k := 0 to |src|
      invariant forall j :: 0 <= j < dst.Length ==>
        dst[j] == if at <= j < at + k then src[j - at] else old(dst[j])
    {
      dst[at + k] := src[k];
    }
  }
}
