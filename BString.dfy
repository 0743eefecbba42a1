/// The owned string of BString.h and BString.c. Every function of the
/// library that takes a `BString*` is a method of the class; the inline
/// accessors of BString.h that take a BString by value are functions.
module BStrings {
  import opened Memory
  import opened Views
  import opened Splice
  import Search

  /// eStringError: NONE is the only success.
  datatype StringError = NoError | Allocation | NotFound

  /// What m_str points to.
  datatype Alloc =
    | Literal  // the static "" of BStringDefault: must never be reallocated or freed
    | Null     // NULL: after BStringFree, or the donor of BStringMove
    | Heap     // a block from the allocator, m_size + 1 bytes long

  /// The length BStringCreateN copies: strlen(t_string) when t_num is NPOS.
  function CreateSize(src: seq<byte>, num: nat): (n: nat)
    requires num == NPOS ==> 0 in src
    ensures num != NPOS ==> n == num
    ensures num == NPOS ==> n < |src| && src[n] == 0 && 0 !in src[..n]
  {
    if num == NPOS then StrLen(src) else num
  }

  /// The second loop of BStringConcentrateN: copies each view at the write
  /// cursor and advances the cursor by the view's size; returns the final
  /// cursor.
  method CopyViews(buf: array<byte>, at: nat, views: seq<View>) returns (cursor: nat)
    requires AllReadable(views)
    requires at + SumSizes(views) < buf.Length
    modifies buf
    ensures cursor == at + SumSizes(views)
    ensures buf[..cursor] == old(buf[..at]) + Concat(views)
    ensures buf[buf.Length - 1] == old(buf[buf.Length - 1])
  {
    ghost var head := buf[..at];
    cursor := at;
    for i := 0 to |views|
      invariant cursor == at + SumSizes(views[..i]) && cursor <= at + SumSizes(views)
      invariant buf[..cursor] == head + Concat(views[..i])
      invariant buf[buf.Length - 1] == old(buf[buf.Length - 1])
    {
      ConcatStep(views, i);
      ghost var written := buf[..cursor];
      var bytes := views[i].Bytes();
      MemCpy(buf, cursor, bytes);
      PrefixSplit(buf, cursor, cursor + |bytes|);
      assert buf[..cursor + |bytes|] == written + bytes;
      cursor := cursor + |bytes|;
    }
    assert views[..|views|] == views;
  }

  /// Allocation and copying in BStringConcentrateN: a fresh terminated block
  /// of n bytes holding s followed by every view, or NULL.
  method AllocateConcatenated(heap: Allocator, s: seq<byte>, views: seq<View>, n: nat)
    returns (buf: array?<byte>)
    requires AllReadable(views) && n == |s| + SumSizes(views)
    modifies heap
    ensures buf == null ==> heap.live == old(heap.live)
    ensures buf != null ==> fresh(buf) && heap.live == old(heap.live) + {buf}
    ensures buf != null ==> buf.Length == n + 1 && buf[n] == 0
    ensures buf != null ==> buf[..n] == s + Concat(views)
  {
    buf := AllocateString(heap, n);
    if buf != null {
      MemCpy(buf, 0, s);
      var end := CopyViews(buf, |s|, views);
    }
  }

  /// The three memcpy calls that build a spliced block: `pre`, then `mid`,
  /// then `post`, one after the other from the start of buf.
  method CopyThree(buf: array<byte>, pre: seq<byte>, mid: seq<byte>, post: seq<byte>)
    requires |pre| + |mid| + |post| <= buf.Length
    modifies buf
    ensures buf[..|pre| + |mid| + |post|] == pre + mid + post
    ensures forall j :: |pre| + |mid| + |post| <= j < buf.Length ==> buf[j] == old(buf[j])
  {
    MemCpy(buf, 0, pre);
    MemCpy(buf, |pre|, mid);
    PrefixSplit(buf, |pre|, |pre| + |mid|);
    MemCpy(buf, |pre| + |mid|, post);
    PrefixSplit(buf, |pre| + |mid|, |pre| + |mid| + |post|);
  }

  /// Allocation followed by the three memcpy calls, the pattern InsertAt
  /// and Replace share: a fresh terminated block holding s with its n bytes
  /// at pos replaced by r, or NULL when the allocation fails.
  method AllocateSpliced(heap: Allocator, s: seq<byte>, pos: nat, n: nat, r: seq<byte>)
    returns (buf: array?<byte>)
    requires pos + n <= |s|
    modifies heap
    ensures buf == null ==> heap.live == old(heap.live)
    ensures buf != null ==> fresh(buf) && heap.live == old(heap.live) + {buf}
    ensures buf != null ==> buf.Length == |s| - n + |r| + 1 && buf[|s| - n + |r|] == 0
    ensures buf != null ==> buf[..|s| - n + |r|] == Replaced(s, pos, n, r)
  {
    buf := AllocateString(heap, |s| - n + |r|);
    if buf != null {
      CopyThree(buf, s[..pos], r, s[pos + n..]);
    }
  }

  class BString {
    var str: array?<byte>
    var size: nat
    ghost var kind: Alloc

    /// What m_str points to for each kind, and the terminator at m_size.
    /// A heap block may hold a string of size 0: Assign, Join, InsertAt,
    /// EraseAt, Replace and ConcentrateN can leave one behind.
    ghost predicate Shaped()
      reads this, str
    {
      size < NPOS &&
      match kind
      case Literal => str != null && str.Length == 1 && str[0] == 0 && size == 0
      case Null => str == null && size == 0
      case Heap => str != null && str.Length == size + 1 && str[size] == 0
    }

    /// Shaped, and m_str is a live block exactly when it is a heap block.
    ghost predicate Valid(heap: Allocator)
      reads this, str, heap
    {
      Shaped() &&
      (kind == Heap ==> str in heap.live) &&
      (kind == Literal ==> str !in heap.live)
    }

    /// The m_size bytes of the string.
    function Content(): (s: seq<byte>)
      reads this, str
      requires Shaped()
    {
      Mem(str)[..size]
    }

    /// BStringDefault: m_size 0 and m_str the static literal "".
    constructor Default(heap: Allocator)
      ensures Valid(heap) && kind == Literal
      ensures size == 0 && Content() == []
    {
      str := new byte[1](_ => 0);
      size := 0;
      kind := Literal;
    }

    /// BStringCreateN. An empty result is refused with BSTRING_ALLOCATION;
    /// a string that owns a block reallocates it, any other allocates.
    method CreateN(heap: Allocator, src: seq<byte>, num: nat) returns (e: StringError)
      requires Valid(heap)
      requires num <= NPOS
      requires num == NPOS ==> 0 in src && StrLen(src) < NPOS
      requires num != NPOS ==> num <= |src|
      modifies this, heap
      ensures Valid(heap)
      ensures e == NoError || e == Allocation
      ensures CreateSize(src, num) == 0 ==> e == Allocation
      ensures e == Allocation ==>
        str == old(str) && size == old(size) && kind == old(kind) && heap.live == old(heap.live)
      ensures e == NoError ==> fresh(str) && kind == Heap
      ensures e == NoError ==> size == CreateSize(src, num) && Content() == src[..size]
      ensures e == NoError ==>
        heap.live == (if old(size) != 0 then old(heap.live) - {old(str)} else old(heap.live)) + {str}
      // a size-0 heap block is replaced without being freed: it leaks
      ensures e == NoError && old(kind) == Heap && old(size) == 0 ==> old(str) in heap.live
    {
      var n := CreateSize(src, num);
      if n == 0 {
        return Allocation;
      }
      var buf: array?<byte>;
      if size != 0 {
        buf := ReallocateString(heap, str, n);
      } else {
        buf := AllocateString(heap, n);
      }
      if buf == null {
        return Allocation;
      }
      MemCpy(buf, 0, src[..n]);
      str, size, kind := buf, n, Heap;
      e := NoError;
    }

    /// BStringCreate: BStringCreateN with the length found by strlen.
    method Create(heap: Allocator, src: seq<byte>) returns (e: StringError)
      requires Valid(heap)
      requires 0 in src && StrLen(src) < NPOS
      modifies this, heap
      ensures Valid(heap)
      ensures e == NoError || e == Allocation
      ensures StrLen(src) == 0 ==> e == Allocation
      ensures e == Allocation ==>
        str == old(str) && size == old(size) && kind == old(kind) && heap.live == old(heap.live)
      ensures e == NoError ==> fresh(str) && kind == Heap && Content() == CStr(src)
      ensures e == NoError ==>
        heap.live == (if old(size) != 0 then old(heap.live) - {old(str)} else old(heap.live)) + {str}
      // a size-0 heap block is replaced without being freed: it leaks
      ensures e == NoError && old(kind) == Heap && old(size) == 0 ==> old(str) in heap.live
    {
      e := CreateN(heap, src, NPOS);
    }

    /// BStringAssign: reallocates m_str to the source's size and copies it.
    /// realloc of the static literal is undefined, so the target must not
    /// hold it, and the source must not read from the block being resized.
    method Assign(heap: Allocator, src: BString) returns (e: StringError)
      requires Valid(heap) && src.Shaped()
      requires kind != Literal
      requires src.size == 0 || src.str != str
      modifies this, heap
      ensures Valid(heap)
      ensures e == NoError || e == Allocation
      ensures e == Allocation ==>
        str == old(str) && size == old(size) && kind == old(kind) && heap.live == old(heap.live)
      ensures e == NoError ==> fresh(str) && kind == Heap
      ensures e == NoError ==> size == old(src.size) && Content() == old(src.Content())
      ensures e == NoError ==> heap.live == old(heap.live) - {old(str)} + {str}
    {
      var from := src.Content();
      var buf := ReallocateString(heap, str, src.size);
      if buf == null {
        return Allocation;
      }
      MemCpy(buf, 0, from);
      str, size, kind := buf, |from|, Heap;
      e := NoError;
    }

    /// BStringJoin: reallocates m_str to the joint size and appends the
    /// source after the old content. The same restrictions as Assign apply.
    method Join(heap: Allocator, src: BString) returns (e: StringError)
      requires Valid(heap) && src.Shaped()
      requires kind != Literal
      requires src.size == 0 || src.str != str
      requires size + src.size < NPOS
      modifies this, heap
      ensures Valid(heap)
      ensures e == NoError || e == Allocation
      ensures e == Allocation ==>
        str == old(str) && size == old(size) && kind == old(kind) && heap.live == old(heap.live)
      ensures e == NoError ==> fresh(str) && kind == Heap
      ensures e == NoError ==> size == old(size) + old(src.size)
      ensures e == NoError ==> Content() == old(Content()) + old(src.Content())
      ensures e == NoError ==> heap.live == old(heap.live) - {old(str)} + {str}
    {
      var newSize := size + src.size;
      var from := src.Content();
      ghost var before := Content();
      var buf := ReallocateString(heap, str, newSize);
      if buf == null {
        return Allocation;
      }
      assert buf[..size] == before by {
        forall i | 0 <= i < size ensures buf[i] == before[i] {
          assert buf[i] == Mem(str)[i];
        }
      }
      MemCpy(buf, size, from);
      PrefixSplit(buf, size, newSize);
      str, size, kind := buf, newSize, Heap;
      e := NoError;
    }

    /// BStringSwap: the two structs trade places.
    method Swap(ghost heap: Allocator, other: BString)
      requires Valid(heap) && other.Valid(heap)
      modifies this, other
      ensures Valid(heap) && other.Valid(heap)
      ensures str == old(other.str) && size == old(other.size) && kind == old(other.kind)
      ensures other.str == old(str) && other.size == old(size) && other.kind == old(kind)
    {
      var s, n := str, size;
      ghost var k := kind;
      str, size, kind := other.str, other.size, other.kind;
      other.str, other.size, other.kind := s, n, k;
    }

    /// BStringMove: nothing when both are the same string; otherwise the
    /// target's block is freed (only when its size is not 0), the target
    /// takes the source's struct and the source becomes {NULL, 0}.
    method Move(heap: Allocator, src: BString)
      requires Valid(heap) && src.Valid(heap)
      requires this != src && size != 0 ==> str != src.str
      modifies this, src, heap
      ensures Valid(heap) && src.Valid(heap)
      ensures this == src ==>
        str == old(str) && size == old(size) && kind == old(kind) && heap.live == old(heap.live)
      ensures this != src ==> str == old(src.str) && size == old(src.size) && kind == old(src.kind)
      ensures this != src ==> src.str == null && src.size == 0 && src.kind == Null
      ensures this != src ==>
        heap.live == if old(size) != 0 then old(heap.live) - {old(str)} else old(heap.live)
      // a size-0 heap block of the target is dropped without being freed: it leaks
      ensures this != src && old(kind) == Heap && old(size) == 0 ==> old(str) in heap.live
    {
      if this == src {
        return;
      }
      if size != 0 {
        heap.Free(str);
      }
      str, size, kind := src.str, src.size, src.kind;
      src.str, src.size, src.kind := null, 0, Null;
    }

    /// BStringFree: nothing when m_size is 0; otherwise the block is freed
    /// and the string becomes {NULL, 0}.
    method Free(heap: Allocator)
      requires Valid(heap)
      modifies this, heap
      ensures Valid(heap) && size == 0 && Content() == []
      ensures old(size) == 0 ==>
        str == old(str) && kind == old(kind) && heap.live == old(heap.live)
      ensures old(size) != 0 ==>
        str == null && kind == Null && heap.live == old(heap.live) - {old(str)}
    {
      if size == 0 {
        return;
      }
      heap.Free(str);
      str, size := null, 0;
      kind := Null;
    }

    /// BStringFind on this string (strstr on NULL is undefined): the first
    /// occurrence in the content at or after the offset, as an absolute
    /// position, or NPOS.
    function Find(needle: seq<byte>, offset: nat): (r: nat)
      reads this, str
      requires Shaped() && kind != Null
      requires offset <= size && 0 !in needle
      ensures r == NPOS || (offset <= r && Search.MatchAt(Content(), needle, r))
      ensures r != NPOS ==> forall j :: offset <= j < r ==> !Search.MatchAt(Content(), needle, j)
      ensures r == NPOS && 0 !in Content()[offset..] ==>
        forall j :: offset <= j ==> !Search.MatchAt(Content(), needle, j)
      ensures |needle| == 0 ==> r == offset
    {
      assert Mem(str)[offset..size] == Content()[offset..];
      Search.Find(Mem(str), size, needle, offset)
    }

    /// BStringSubstring, with the copy starting at the match: `dest` gets
    /// everything from the first match at or after `offset` to the end.
    /// A match at the very end leaves nothing to copy, and BStringCreateN
    /// refuses the empty result.
    method Substring(heap: Allocator, from: BString, needle: seq<byte>, offset: nat)
      returns (e: StringError)
      requires Valid(heap) && from.Shaped() && from.kind != Null
      requires offset <= from.size && 0 !in needle
      requires size == 0 || from.str != str
      modifies this, heap
      ensures Valid(heap)
      ensures e == NotFound <==> old(from.Find(needle, offset)) == NPOS
      ensures old(from.Find(needle, offset)) == old(from.size) ==> e == Allocation
      ensures e != NoError ==>
        str == old(str) && size == old(size) && kind == old(kind) && heap.live == old(heap.live)
      ensures e == NoError ==> fresh(str) && kind == Heap
      ensures e == NoError ==> Content() == old(from.Content())[old(from.Find(needle, offset))..]
      ensures e == NoError ==>
        heap.live == (if old(size) != 0 then old(heap.live) - {old(str)} else old(heap.live)) + {str}
      // a size-0 heap block is replaced without being freed: it leaks
      ensures e == NoError && old(kind) == Heap && old(size) == 0 ==> old(str) in heap.live
    {
      var pos := from.Find(needle, offset);
      if pos == NPOS {
        return NotFound;
      }
      var tail := Mem(from.str)[pos..];
      assert tail[..from.size - pos] == from.Content()[pos..];
      e := CreateN(heap, tail, from.size - pos);
      assert Valid(heap);
    }

    /// BStringInsertAt: a fresh block holding the prefix, the view and the
    /// suffix; the old block is freed only when the size was not 0.
    method InsertAt(heap: Allocator, v: View, index: nat) returns (e: StringError)
      requires Valid(heap)
      requires index <= size && v.Readable()
      requires size + v.size < NPOS
      modifies this, heap
      ensures Valid(heap)
      ensures e == NoError || e == Allocation
      ensures e == Allocation ==>
        str == old(str) && size == old(size) && kind == old(kind) && heap.live == old(heap.live)
      ensures e == NoError ==> fresh(str) && kind == Heap && size == old(size) + v.size
      ensures e == NoError ==> Content() == Inserted(old(Content()), index, v.Bytes())
      ensures e == NoError ==>
        heap.live == (if old(size) != 0 then old(heap.live) - {old(str)} else old(heap.live)) + {str}
      // a size-0 heap block is replaced without being freed: it leaks
      ensures e == NoError && old(kind) == Heap && old(size) == 0 ==> old(str) in heap.live
    {
      var newSize := size + v.size;
      ghost var c := Content();
      var buf := AllocateSpliced(heap, Read(str, 0, size), index, 0, v.Bytes());
      if buf == null {
        return Allocation;
      }
      assert Replaced(c, index, 0, v.Bytes()) == Inserted(c, index, v.Bytes());
      if size != 0 {
        heap.Free(str);
      }
      str, size, kind := buf, newSize, Heap;
      e := NoError;
    }

    /// BStringEraseAt as intended: removes the byte at index, building the
    /// result in a fresh block as InsertAt does.
    method EraseAt(heap: Allocator, index: nat) returns (e: StringError)
      requires Valid(heap)
      requires index < size
      modifies this, heap
      ensures Valid(heap)
      ensures e == NoError || e == Allocation
      ensures e == Allocation ==>
        str == old(str) && size == old(size) && kind == old(kind) && heap.live == old(heap.live)
      ensures e == NoError ==> fresh(str) && kind == Heap && size == old(size) - 1
      ensures e == NoError ==> Content() == Erased(old(Content()), index)
      ensures e == NoError ==> heap.live == old(heap.live) - {old(str)} + {str}
    {
      var newSize := size - 1;
      ghost var c := Content();
      var buf := AllocateSpliced(heap, Read(str, 0, size), index, 1, []);
      if buf == null {
        return Allocation;
      }
      assert Replaced(c, index, 1, []) == Erased(c, index);
      heap.Free(str);
      str, size, kind := buf, newSize, Heap;
      e := NoError;
    }

    /// BStringReplace: splices the replacement over the first occurrence of
    /// the target. The search reads the target's pointer as a C string while
    /// the splice uses its m_size, so the two must agree; the old block is
    /// freed unconditionally, which is undefined for the static literal (that
    /// point is reached only with an empty target).
    method Replace(heap: Allocator, target: View, replacement: View) returns (e: StringError)
      requires Valid(heap) && kind != Null
      requires 0 in target.str && StrLen(target.str) == target.size
      requires replacement.Readable()
      requires kind == Literal ==> target.size > 0
      requires size + replacement.size < NPOS
      modifies this, heap
      ensures Valid(heap)
      ensures e == NotFound <==> old(Find(target.Bytes(), 0)) == NPOS
      ensures e != NoError ==>
        str == old(str) && size == old(size) && kind == old(kind) && heap.live == old(heap.live)
      ensures e == NoError ==> fresh(str) && kind == Heap
      ensures e == NoError ==>
        var pos := old(Find(target.Bytes(), 0));
        pos + target.size <= old(size) &&
        size == old(size) + replacement.size - target.size &&
        Content() == Replaced(old(Content()), pos, target.size, replacement.Bytes())
      ensures e == NoError ==> heap.live == old(heap.live) - {old(str)} + {str}
    {
      assert CStr(target.str) == target.Bytes();
      var pos := Find(CStr(target.str), 0);
      if pos == NPOS {
        return NotFound;
      }
      assert kind == Heap;
      e := SpliceIn(heap, pos, target.size, replacement.Bytes());
    }

    /// The allocate, copy and free steps of BStringReplace: a fresh block
    /// holding the content with its n bytes at pos replaced by r; the old
    /// block is freed.
    method SpliceIn(heap: Allocator, pos: nat, n: nat, r: seq<byte>) returns (e: StringError)
      requires Valid(heap) && kind == Heap
      requires pos + n <= size && size - n + |r| < NPOS
      modifies this, heap
      ensures Valid(heap)
      ensures e == NoError || e == Allocation
      ensures e == Allocation ==>
        str == old(str) && size == old(size) && kind == old(kind) && heap.live == old(heap.live)
      ensures e == NoError ==> fresh(str) && kind == Heap && size == old(size) - n + |r|
      ensures e == NoError ==> Content() == Replaced(old(Content()), pos, n, r)
      ensures e == NoError ==> heap.live == old(heap.live) - {old(str)} + {str}
    {
      var newSize := size - n + |r|;
      var buf := AllocateSpliced(heap, Read(str, 0, size), pos, n, r);
      if buf == null {
        return Allocation;
      }
      heap.Free(str);
      str, size, kind := buf, newSize, Heap;
      e := NoError;
    }

    /// BStringConcentrateN: one fresh block holding the old content followed
    /// by every view in array order; the old block is freed only when the
    /// size was not 0.
    method ConcentrateN(heap: Allocator, views: seq<View>) returns (e: StringError)
      requires Valid(heap) && AllReadable(views)
      requires size + SumSizes(views) < NPOS
      modifies this, heap
      ensures Valid(heap)
      ensures e == NoError || e == Allocation
      ensures e == Allocation ==>
        str == old(str) && size == old(size) && kind == old(kind) && heap.live == old(heap.live)
      ensures e == NoError ==> fresh(str) && kind == Heap && size == old(size) + SumSizes(views)
      ensures e == NoError ==> Content() == old(Content()) + Concat(views)
      ensures e == NoError ==>
        heap.live == (if old(size) != 0 then old(heap.live) - {old(str)} else old(heap.live)) + {str}
      // a size-0 heap block is replaced without being freed: it leaks
      ensures e == NoError && old(kind) == Heap && old(size) == 0 ==> old(str) in heap.live
    {
      var newSize := size;
      for i := 0 to |views|
        invariant newSize == size + SumSizes(views[..i])
        modifies {}
      {
        ConcatStep(views, i);
        newSize := newSize + views[i].size;
      }
      assert views[..|views|] == views;
      var buf := AllocateConcatenated(heap, Read(str, 0, size), views, newSize);
      if buf == null {
        return Allocation;
      }
      if size != 0 {
        heap.Free(str);
      }
      str, size, kind := buf, newSize, Heap;
      e := NoError;
    }

    /// BStringToViewStr: a view borrowing this string's block, spanning its
    /// content.
    function ToView(): (v: View)
      reads this, str
      requires Shaped()
      ensures v.str == Mem(str)
      ensures v.Readable() && v.Bytes() == Content()
    {
      ViewCreateN(Mem(str), size)
    }

    /// BStringContains: whether the needle is found from the start.
    function Contains(needle: seq<byte>): (b: bool)
      reads this, str
      requires Shaped() && kind != Null && 0 !in needle
      ensures b ==> exists i :: Search.MatchAt(Content(), needle, i)
      ensures 0 !in Content() ==> (b <==> exists i :: Search.MatchAt(Content(), needle, i))
    {
      assert Mem(str)[0..size] == Content();
      Find(needle, 0) != NPOS
    }

    /// BStringBegin: a pointer to the first byte of the content.
    function Begin(): (p: Ptr)
      reads this, str
      requires Shaped()
      ensures p.block == str
      ensures size > 0 ==> p.offset < str.Length && str[p.offset] == Content()[0]
    {
      Ptr(str, 0)
    }

    /// BStringEnd: a pointer one past the content, which is the terminator.
    function End(): (p: Ptr)
      reads this, str
      requires Shaped()
      ensures p.block == str && Distance(Begin(), p) == size
      ensures str != null ==> p.offset < str.Length && str[p.offset] == 0
    {
      Ptr(str, size)
    }
  }
}
