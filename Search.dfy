/// BStringFind: strstr over the bytes of an owned string, reported as an
/// absolute position or BSTRING_NPOS.
module Search {
  import opened Memory

  /// needle occurs in h starting at index i.
  predicate MatchAt(h: seq<byte>, needle: seq<byte>, i: nat) {
    i + |needle| <= |h| && h[i..i + |needle|] == needle
  }

  /// The scan strstr performs: the first index at or after i where needle
  /// occurs in h.
  function FirstMatch(h: seq<byte>, needle: seq<byte>, i: nat): (r: Option<nat>)
    requires i <= |h|
    decreases |h| - i
    ensures r.Some? ==> i <= r.value && MatchAt(h, needle, r.value)
    ensures r.Some? ==> forall j :: i <= j < r.value ==> !MatchAt(h, needle, j)
    ensures r.None? ==> forall j :: i <= j ==> !MatchAt(h, needle, j)
  {
    if MatchAt(h, needle, i) then Some(i)
    else if i == |h| then None
    else FirstMatch(h, needle, i + 1)
  }

  /// The C string strstr scans when it starts at str[offset] lies inside
  /// the content str[..size] and ends at its first NUL.
  lemma WindowInContent(str: seq<byte>, size: nat, offset: nat)
    requires size < |str| && str[size] == 0 && offset <= size
    ensures offset + StrLen(str[offset..]) <= size
    ensures CStr(str[offset..]) == str[..size][offset..offset + StrLen(str[offset..])]
    ensures 0 !in str[offset..size] ==> offset + StrLen(str[offset..]) == size
  {
  }

  /// Matches inside a window of the content are matches of the content,
  /// shifted by the window's start.
  lemma MatchInWindow(content: seq<byte>, needle: seq<byte>, lo: nat, hi: nat, j: nat)
    requires lo <= j && hi <= |content| && lo <= hi
    requires j + |needle| <= hi
    ensures MatchAt(content[lo..hi], needle, j - lo) <==> MatchAt(content, needle, j)
  {
    var w := content[lo..hi];
    var a, b := w[j - lo..j - lo + |needle|], content[j..j + |needle|];
    assert |a| == |b|;
    forall k | 0 <= k < |needle|
      ensures a[k] == b[k]
    {
      assert a[k] == w[j - lo + k];
    }
    assert a == b;
  }

  /// BStringFind(t_string, t_toFind, t_offset) with t_string given by its
  /// block `str` and its m_size `size`, and t_toFind by its characters.
  function Find(str: seq<byte>, size: nat, needle: seq<byte>, offset: nat): (r: nat)
    requires size < |str| && str[size] == 0 && size < NPOS
    requires offset <= size
    requires 0 !in needle
    // a reported position is a real occurrence at or after the offset ...
    ensures r == NPOS || (offset <= r && MatchAt(str[..size], needle, r))
    // ... lies before the first NUL the scan meets ...
    ensures r != NPOS ==> r + |needle| <= offset + StrLen(str[offset..])
    // ... and is the first one
    ensures r != NPOS ==> forall j :: offset <= j < r ==> !MatchAt(str[..size], needle, j)
    // without interior NUL bytes, NPOS means there is no occurrence at all
    ensures r == NPOS && 0 !in str[offset..size] ==>
      forall j :: offset <= j ==> !MatchAt(str[..size], needle, j)
    ensures |needle| == 0 ==> r == offset
  {
    WindowInContent(str, size, offset);
    var content := str[..size];
    var end := offset + StrLen(str[offset..]);
    var window := CStr(str[offset..]);
    match FirstMatch(window, needle, 0)
    case Some(i) =>
      MatchInWindow(content, needle, offset, end, offset + i);
      assert forall j :: offset <= j < offset + i ==> !MatchAt(content, needle, j) by {
        forall j | offset <= j < offset + i
          ensures !MatchAt(content, needle, j)
        {
          MatchInWindow(content, needle, offset, end, j);
        }
      }
      offset + i
    case None =>
      assert 0 !in str[offset..size] ==> forall j :: offset <= j ==> !MatchAt(content, needle, j) by {
        if 0 !in str[offset..size] {
          forall j | offset <= j
            ensures !MatchAt(content, needle, j)
          {
            if j + |needle| <= size {
              MatchInWindow(content, needle, offset, end, j);
            }
          }
        }
      }
      NPOS
  }

  /// "abcabc" in its block, followed by the terminator.
  const ABCABC: seq<byte> := [97, 98, 99, 97, 98, 99, 0]

  /// "bc" in "abcabc" from the start: the first occurrence, at 1.
  lemma FindFirstExample()
    ensures Find(ABCABC, 6, [98, 99], 0) == 1
  {
    var content := ABCABC[..6];
    assert content == [97, 98, 99, 97, 98, 99];
    assert 0 !in ABCABC[0..6];
    assert content[1..3] == [98, 99];
    assert content[0..2] != [98, 99] by { assert content[0..2][0] == 97; }
    var r := Find(ABCABC, 6, [98, 99], 0);
    assert MatchAt(content, [98, 99], 1);
    assert r != NPOS;
  }

  /// "bc" in "abcabc" from offset 2: the second occurrence, at 4, reported
  /// as an absolute position.
  lemma FindFromOffsetExample()
    ensures Find(ABCABC, 6, [98, 99], 2) == 4
  {
    var content := ABCABC[..6];
    assert content == [97, 98, 99, 97, 98, 99];
    assert 0 !in ABCABC[2..6];
    assert content[4..6] == [98, 99];
    assert content[2..4] != [98, 99] by { assert content[2..4][0] == 99; }
    assert content[3..5] != [98, 99] by { assert content[3..5][0] == 97; }
    var r := Find(ABCABC, 6, [98, 99], 2);
    assert MatchAt(content, [98, 99], 4);
    assert r != NPOS;
  }

  /// "xy" does not occur in "abcabc": NPOS.
  lemma FindMissingExample()
    ensures Find(ABCABC, 6, [120, 121], 0) == NPOS
  {
  }

  /// A string found in the text that follows a join is found exactly where
  /// it was appended: Find(s ++ t, t, |s|) == |s|.
  lemma FindAfterJoin(s: seq<byte>, t: seq<byte>)
    requires 0 !in t && |s| + |t| < NPOS
    ensures Find(s + t + [0], |s| + |t|, t, |s|) == |s|
  {
  }
}
