/// What the structural mutators of BString.c compute, as functions on the
/// content of a string, and how they relate to each other.
module Splice {
  import opened Memory
  import opened Views

  /// Content after inserting v at index i (BStringInsertAt).
  function Inserted(s: seq<byte>, i: nat, v: seq<byte>): (t: seq<byte>)
    requires i <= |s|
  {
    s[..i] + v + s[i..]
  }

  /// Content after removing the byte at index i (BStringEraseAt).
  function Erased(s: seq<byte>, i: nat): (t: seq<byte>)
    requires i < |s|
  {
    s[..i] + s[i + 1..]
  }

  /// Content after erasing at index i, n times over.
  function ErasedN(s: seq<byte>, i: nat, n: nat): (r: seq<byte>)
    requires i + n <= |s|
    ensures |r| == |s| - n
    decreases n
  {
    if n == 0 then s else ErasedN(Erased(s, i), i, n - 1)
  }

  /// Content after putting r in place of the n bytes at pos (BStringReplace).
  function Replaced(s: seq<byte>, pos: nat, n: nat, r: seq<byte>): (t: seq<byte>)
    requires pos + n <= |s|
  {
    s[..pos] + r + s[pos + n..]
  }

  /// Erasing at i n times cuts out exactly the span [i, i + n).
  lemma {:induction false} ErasedNCutsSpan(s: seq<byte>, i: nat, n: nat)
    requires i + n <= |s|
    ensures ErasedN(s, i, n) == s[..i] + s[i + n..]
  {
    if n > 0 {
      var e := Erased(s, i);
      ErasedNCutsSpan(e, i, n - 1);
      assert e[..i] == s[..i];
      assert e[i + (n - 1)..] == s[i + n..];
    }
  }

  /// Insert and erase are inverse at a fixed index: erasing at i once per
  /// inserted byte restores the original content.
  lemma {:induction false} EraseUndoesInsert(s: seq<byte>, i: nat, v: seq<byte>)
    requires i <= |s|
    ensures ErasedN(Inserted(s, i, v), i, |v|) == s
  {
    var t := Inserted(s, i, v);
    ErasedNCutsSpan(t, i, |v|);
    assert t[..i] == s[..i];
    assert t[i + |v|..] == s[i..];
  }

  /// A replacement is an erase of the matched span followed by an insert of
  /// the replacement at the same position.
  lemma {:induction false} ReplaceIsEraseThenInsert(s: seq<byte>, pos: nat, n: nat, r: seq<byte>)
    requires pos + n <= |s|
    ensures Replaced(s, pos, n, r) == Inserted(ErasedN(s, pos, n), pos, r)
  {
    ErasedNCutsSpan(s, pos, n);
    var e := ErasedN(s, pos, n);
    assert e[..pos] == s[..pos];
    assert e[pos..] == s[pos + n..];
  }

  /// Replacing the replacement by what it replaced restores the content.
  lemma ReplaceUndo(s: seq<byte>, pos: nat, n: nat, r: seq<byte>)
    requires pos + n <= |s|
    ensures Replaced(Replaced(s, pos, n, r), pos, |r|, s[pos..pos + n]) == s
  {
  }

  /// Every view of the array may be read.
  predicate AllReadable(vs: seq<View>) {
    forall k :: 0 <= k < |vs| ==> vs[k].Readable()
  }

  /// The m_size fields of the views, summed (the first loop of
  /// BStringConcentrateN).
  function SumSizes(vs: seq<View>): (total: nat) {
    if vs == [] then 0 else SumSizes(vs[..|vs| - 1]) + vs[|vs| - 1].size
  }

  /// The views' bytes, in array order (what the second loop appends).
  function Concat(vs: seq<View>): (r: seq<byte>)
    requires AllReadable(vs)
    ensures |r| == SumSizes(vs)
  {
    if vs == [] then [] else Concat(vs[..|vs| - 1]) + vs[|vs| - 1].Bytes()
  }

  /// One more view: what the two loops of BStringConcentrateN add in
  /// iteration i.
  lemma ConcatStep(vs: seq<View>, i: nat)
    requires AllReadable(vs) && i < |vs|
    ensures AllReadable(vs[..i]) && AllReadable(vs[..i + 1])
    ensures SumSizes(vs[..i + 1]) == SumSizes(vs[..i]) + vs[i].size
    ensures Concat(vs[..i + 1]) == Concat(vs[..i]) + vs[i].Bytes()
    ensures SumSizes(vs[..i + 1]) <= SumSizes(vs)
  {
    assert vs[..i + 1][..i] == vs[..i];
    SumSizesPrefix(vs, i + 1);
  }

  /// The sizes of a prefix of the views never exceed the total.
  lemma {:induction false} SumSizesPrefix(vs: seq<View>, i: nat)
    requires i <= |vs|
    ensures SumSizes(vs[..i]) <= SumSizes(vs)
    decreases |vs|
  {
    if i < |vs| {
      var init := vs[..|vs| - 1];
      assert vs[..i] == init[..i];
      SumSizesPrefix(init, i);
    } else {
      assert vs[..i] == vs;
    }
  }

  /// Concatenating two batches of views at once equals concatenating them
  /// one batch after the other.
  lemma {:induction false} ConcatAppend(a: seq<View>, b: seq<View>)
    requires AllReadable(a) && AllReadable(b)
    ensures AllReadable(a + b)
    ensures Concat(a + b) == Concat(a) + Concat(b)
    decreases |b|
  {
    assert AllReadable(a + b) by {
      forall k | 0 <= k < |a + b| ensures (a + b)[k].Readable() {
        if k >= |a| { assert (a + b)[k] == b[k - |a|]; }
      }
    }
    if b == [] {
      assert a + b == a;
    } else {
      var init := b[..|b| - 1];
      assert (a + b)[..|a + b| - 1] == a + init;
      ConcatAppend(a, init);
    }
  }
}
