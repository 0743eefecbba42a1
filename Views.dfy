/// BStringView: a borrowed (pointer, length) pair, and its constructors.
module Views {
  import opened Memory

  /// A view is the memory readable through its pointer (`str`) and its
  /// m_size. Nothing ties the two together: a view may claim more bytes
  /// than its pointer reaches, and only a Readable view may be copied from.
  datatype View = View(str: seq<byte>, size: nat) {
    predicate Readable() {
      size <= |str|
    }

    /// The bytes in the window [str, str + size).
    function Bytes(): seq<byte>
      requires Readable()
    {
      str[..size]
    }
  }

  /// BStringViewCreateN: the given pointer and length, not validated;
  /// when the length fits, the view's bytes are the first n bytes at p.
  function ViewCreateN(p: seq<byte>, n: nat): (v: View)
    ensures v.str == p && v.size == n
    ensures n <= |p| ==> v.Readable() && v.Bytes() == p[..n]
  {
    View(p, n)
  }

  /// BStringViewCreate: a view of a NUL-terminated string, spanning exactly
  /// the bytes before its terminator.
  function ViewCreate(p: seq<byte>): (v: View)
    requires 0 in p
    ensures v.str == p && v.Readable()
    ensures 0 !in v.Bytes() && p[v.size] == 0
  {
    ViewCreateN(p, StrLen(p))
  }
}
