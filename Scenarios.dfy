/// Client code of the library: the editing session "hello" to "ahi!" and a
/// concentrate of "a", "b" and "c", written as
/// callers would write them, with what each ends with when every
/// allocation succeeds.
module Scenarios {
  import opened Memory
  import opened Views
  import opened Splice
  import opened BStrings
  import Search

  /// "hello!" in its block: the needle "ello" is first found at 1.
  lemma FindElloInHelloBang(str: seq<byte>)
    requires str == [104, 101, 108, 108, 111, 33, 0]
    ensures Search.Find(str, 6, [101, 108, 108, 111], 0) == 1
  {
    var content := str[..6];
    assert content == [104, 101, 108, 108, 111, 33];
    assert 0 !in str[0..6];
    assert Search.MatchAt(content, [101, 108, 108, 111], 1) by {
      assert content[1..5] == [101, 108, 108, 111];
    }
    assert !Search.MatchAt(content, [101, 108, 108, 111], 0) by {
      assert content[0..4][0] == 104;
    }
    var r := Search.Find(str, 6, [101, 108, 108, 111], 0);
    assert r != NPOS;
  }

  /// The C strings of the first two steps, and their join.
  lemma HelloBangBytes()
    ensures CStr([33, 0]) == [33]
    ensures CStr([104, 101, 108, 108, 111, 0]) == [104, 101, 108, 108, 111]
    ensures [104, 101, 108, 108, 111] + [33] == [104, 101, 108, 108, 111, 33]
  {
  }

  /// create "hello", then join "!": "hello!".
  method HelloBang(heap: Allocator) returns (s: BString, e: StringError)
    modifies heap
    ensures fresh(s)
    ensures e == NoError ==> s.Valid(heap) && s.kind == Heap && s.Content() == [104, 101, 108, 108, 111, 33]
  {
    HelloBangBytes();
    var bang := new BString.Default(heap);
    e := bang.Create(heap, [33, 0]);
    if e != NoError {
      s := bang;
      return;
    }
    s := new BString.Default(heap);
    e := s.Create(heap, [104, 101, 108, 108, 111, 0]);
    if e != NoError {
      return;
    }
    e := s.Join(heap, bang);
  }

  /// The views and the splice of the replacement step.
  lemma ElloByI()
    ensures ViewCreate([101, 108, 108, 111, 0]).Bytes() == [101, 108, 108, 111]
    ensures ViewCreateN([105], 1).Bytes() == [105]
    ensures Replaced([104, 101, 108, 108, 111, 33], 1, 4, [105]) == [104, 105, 33]
  {
  }

  /// "hello!" with "ello" replaced by "i": "hi!".
  method ReplaceElloByI(heap: Allocator, s: BString) returns (e: StringError)
    requires s.Valid(heap) && s.kind == Heap && s.Content() == [104, 101, 108, 108, 111, 33]
    modifies s, heap
    ensures e == NoError ==> s.Valid(heap) && s.Content() == [104, 105, 33]
  {
    assert Mem(s.str) == [104, 101, 108, 108, 111, 33, 0] by {
      assert Mem(s.str)[..6] == s.Content();
    }
    FindElloInHelloBang(Mem(s.str));
    var target, replacement := ViewCreate([101, 108, 108, 111, 0]), ViewCreateN([105], 1);
    ElloByI();
    assert s.Find(target.Bytes(), 0) == 1;
    e := s.Replace(heap, target, replacement);
  }

  /// The whole session: "hello", "hello!", "hi!", "yahi!", "ahi!".
  method EditHello(heap: Allocator) returns (s: BString, e: StringError)
    modifies heap
    ensures e == NoError ==> s.Valid(heap) && s.size == 4 && s.Content() == [97, 104, 105, 33]
  {
    s, e := HelloBang(heap);
    if e != NoError {
      return;
    }
    e := ReplaceElloByI(heap, s);
    if e != NoError {
      return;
    }
    e := s.InsertAt(heap, ViewCreateN([121, 97], 2), 0);
    if e != NoError {
      return;
    }
    assert s.Content() == [121, 97, 104, 105, 33];
    e := s.EraseAt(heap, 0);
  }

  /// concentrate "a" with the views "b" and "c": "abc".
  method ConcentrateAbc(heap: Allocator) returns (s: BString, e: StringError)
    modifies heap
    ensures e == NoError ==> s.Valid(heap) && s.size == 3 && s.Content() == [97, 98, 99]
  {
    s := new BString.Default(heap);
    e := s.Create(heap, [97, 0]);
    if e != NoError {
      return;
    }
    var views := [ViewCreateN([98], 1), ViewCreateN([99], 1)];
    assert views[..1] == [views[0]] && views[..1][..0] == [];
    assert Concat(views) == [98, 99];
    e := s.ConcentrateN(heap, views);
  }

  /// Swapping twice gives both strings back their own blocks and sizes.
  method SwapTwice(ghost heap: Allocator, a: BString, b: BString)
    requires a.Valid(heap) && b.Valid(heap) && a != b
    modifies a, b
    ensures a.Valid(heap) && b.Valid(heap)
    ensures a.str == old(a.str) && a.size == old(a.size) && a.kind == old(a.kind)
    ensures b.str == old(b.str) && b.size == old(b.size) && b.kind == old(b.kind)
  {
    a.Swap(heap, b);
    a.Swap(heap, b);
  }

  /// Freeing twice is safe: the second call finds m_size 0 and does
  /// nothing, so the block is released once.
  method FreeTwice(heap: Allocator, s: BString)
    requires s.Valid(heap)
    modifies s, heap
    ensures s.Valid(heap) && s.size == 0
    ensures old(s.size) != 0 ==> s.str == null && heap.live == old(heap.live) - {old(s.str)}
    ensures old(s.size) == 0 ==> s.str == old(s.str) && heap.live == old(heap.live)
  {
    s.Free(heap);
    s.Free(heap);
  }
}
