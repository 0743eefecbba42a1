/// Three places where BString.c does not do what its callers are promised,
/// each modelled as written next to a lemma that exhibits the discrepancy.
/// The rest of the model uses the corrected operations
/// (BStrings.BString.EraseAt and BStrings.BString.Substring).
module Findings {
  import opened Memory
  import opened Splice
  import Search

  // ---------------------------------------------------------------------
  // BStringEraseAt, second memcpy: it copies m_size - 1 bytes where only
  // m_size - 1 - index remain after the erased byte.
  // ---------------------------------------------------------------------

  /// The content BStringEraseAt's two memcpy calls would leave, following
  /// their arithmetic as written, on a string with content s, as if the old
  /// block (s and its terminator) were still intact and separate from the
  /// new m_size-byte block. It is not: the realloc before the copies has
  /// freed or reused it (see the next finding). None when the second memcpy
  /// reaches past either block.
  function EraseAtAsWritten(s: seq<byte>, index: nat): (r: Option<seq<byte>>)
    requires index < |s|
    ensures r.Some? ==> |r.value| == |s| - 1 && r.value[..index] == s[..index]
  {
    var block := s + [0];
    var count := |s| - 1;
    if index + count > |s| || index + 1 + count > |block| then None
    else Some((s[..index] + block[index + 1..index + 1 + count])[..|s| - 1])
  }

  /// The copy arithmetic stays in bounds only at index 0 or 1, where it
  /// would give the intended bytes if the old block were still readable;
  /// from index 2 on the second memcpy overruns both the new block and the
  /// prior one.
  lemma EraseAtAsWrittenOverruns(s: seq<byte>, index: nat)
    requires index < |s|
    ensures index <= 1 ==> EraseAtAsWritten(s, index) == Some(Erased(s, index))
    ensures index >= 2 <==> EraseAtAsWritten(s, index).None?
  {
    if index <= 1 {
      var block := s + [0];
      var count := |s| - 1;
      var w := s[..index] + block[index + 1..index + 1 + count];
      assert w[..|s| - 1] == Erased(s, index);
    }
  }

  /// "hello" erased at 2: as written the copy overruns, while the intended
  /// result is "helo".
  lemma EraseAtHelloExample()
    ensures EraseAtAsWritten([104, 101, 108, 108, 111], 2).None?
    ensures Erased([104, 101, 108, 108, 111], 2) == [104, 101, 108, 111]
  {
  }

  // ---------------------------------------------------------------------
  // BStringEraseAt, block ownership: realloc already released or reused
  // m_str, and the function then frees m_str again.
  // ---------------------------------------------------------------------

  /// The live blocks after BStringEraseAt's realloc and free, as written,
  /// with blocks named by number. realloc either moves the block `prior` to
  /// the fresh block `moved` or keeps it in place; then free(m_str) releases
  /// `prior`. None when that free is undefined (the block is no longer live).
  function EraseAtBlocksAsWritten(live: set<nat>, prior: nat, moved: Option<nat>): (r: Option<set<nat>>)
    ensures r.Some? ==> r.value == live - {prior}
    ensures moved.None? && prior in live ==> r == Some(live - {prior})
  {
    var afterRealloc := if moved.Some? then live - {prior} + {moved.value} else live;
    if prior !in afterRealloc then None else Some(afterRealloc - {prior})
  }

  /// The string's m_str after BStringEraseAt: the block realloc returned.
  function EraseAtResultBlock(prior: nat, moved: Option<nat>): (block: nat) {
    if moved.Some? then moved.value else prior
  }

  /// However realloc behaves, the as-written BStringEraseAt is wrong: a
  /// moved block is freed twice, and a block kept in place is freed while
  /// the string still points at it.
  lemma EraseAtBlocksAsWrittenNeverSound(live: set<nat>, prior: nat, moved: Option<nat>)
    requires prior in live
    requires moved.Some? ==> moved.value !in live && moved.value != prior
    ensures moved.Some? <==> EraseAtBlocksAsWritten(live, prior, moved).None?
    ensures moved.None? ==>
      EraseAtResultBlock(prior, moved) !in EraseAtBlocksAsWritten(live, prior, moved).value
  {
  }

  // ---------------------------------------------------------------------
  // BStringSubstring: BStringFind already reports an absolute position,
  // and the copy adds the offset to it a second time.
  // ---------------------------------------------------------------------

  /// The bytes BStringSubstring hands to BStringCreateN as written, for a
  /// string with content s, a search offset and the position Find
  /// returned: it starts at offset + pos, with m_size - offset - pos bytes.
  /// None when offset + pos passes the end (the size_t length wraps).
  function SubstringAsWritten(s: seq<byte>, offset: nat, pos: nat): (r: Option<seq<byte>>)
    ensures r.Some? <==> offset + pos <= |s|
    ensures r.Some? ==> |r.value| == |s| - offset - pos
  {
    if offset + pos > |s| then None else Some(s[offset + pos..])
  }

  /// As written, the copy is the intended one only for offset 0; otherwise
  /// it drops the first `offset` bytes of the intended s[pos..].
  lemma SubstringAsWrittenSkipsOffset(s: seq<byte>, offset: nat, pos: nat)
    requires pos <= |s|
    ensures offset <= |s| - pos ==> SubstringAsWritten(s, offset, pos) == Some(s[pos..][offset..])
    ensures offset == 0 ==> SubstringAsWritten(s, offset, pos) == Some(s[pos..])
    ensures 0 < offset ==> SubstringAsWritten(s, offset, pos) != Some(s[pos..])
  {
    if offset <= |s| - pos {
      assert s[pos..][offset..] == s[offset + pos..];
    }
    if 0 < offset && offset + pos <= |s| {
      assert |s[offset + pos..]| != |s[pos..]|;
    }
  }

  /// "abcabc", searching "c" from offset 1: Find reports 2, so the intended
  /// substring is "cabc", but as written the copy starts at 3 and yields
  /// "abc".
  lemma SubstringAbcabcExample()
    ensures Search.Find(Search.ABCABC, 6, [99], 1) == 2
    ensures SubstringAsWritten(Search.ABCABC[..6], 1, 2) == Some([97, 98, 99])
    ensures Search.ABCABC[..6][2..] == [99, 97, 98, 99]
  {
    var content := Search.ABCABC[..6];
    assert content == [97, 98, 99, 97, 98, 99];
    assert 0 !in Search.ABCABC[1..6];
    assert Search.MatchAt(content, [99], 2) by { assert content[2..3] == [99]; }
    assert !Search.MatchAt(content, [99], 1) by { assert content[1..2] == [98]; }
    var r := Search.Find(Search.ABCABC, 6, [99], 1);
    assert r != NPOS;
  }
}
