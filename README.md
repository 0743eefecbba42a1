# BString in Dafny

A model of the C library BString (`BString.c`, `BString.h`). BString is a growable byte string. Its `m_str` buffer always holds `m_size` bytes followed by a NUL terminator, unless the string is `{NULL, 0}`. Beside it sits `BStringView`, a borrowed pointer-and-length pair. The model covers:

- the ownership life cycle of a string: create, assign, swap, move and free;
- the substring search `BStringFind`;
- the structural mutators that allocate a new block, fill it with `memcpy` and commit `(m_str, m_size)` only on success: join, insert-at, erase-at, replace, concentrate and substring;
- the view constructors and the inline accessors of the header.

Files:

- `Memory.dfy` covers bytes, `size_t` and `BSTRING_NPOS`, `strlen`, and memory reads. It also holds the system allocator as a class with a ghost set of live blocks, where `malloc` and `realloc` may fail nondeterministically. On top of that it defines `AllocateString`, `ReallocateString` and `memcpy`.
- `Search.dfy` models `BStringFind`: `strstr` over the C string that starts at the offset, answering an absolute position or NPOS.
- `Views.dfy` models `BStringView`, `BStringViewCreateN` and `BStringViewCreate`.
- `Splice.dfy` states what the mutators compute, as functions on contents. Its lemmas relate those functions: erase undoes insert, a replace is an erase followed by an insert, a replace can be undone, and concatenating two batches of views at once equals concatenating each and joining the results.
- `BString.dfy` holds the owned string as a class whose methods update `str` and `size` in place. A ghost `kind` records what `m_str` points to: the static literal `""` of `BStringDefault`, `NULL`, or a heap block. That lets the contracts state the rules the C code leaves to its callers:
  - never `realloc` or `free` the literal;
  - never free a block twice;
  - a size-0 heap block that is dropped without `free` leaks.
- `Findings.dfy` models three defects as written: two in `BStringEraseAt` and one in `BStringSubstring`. Lemmas exhibit each discrepancy.
- `Scenarios.dfy` holds client code. It walks through the editing session "hello" → "hello!" → "hi!" → "yahi!" → "ahi!" and a concentrate of "a" with "b" and "c". It also swaps twice and frees twice.

Every mutator promises that on failure nothing changes: `str`, `size`, `kind` and the allocator's live set are left as they were. On success the contract gives the whole new state: a fresh block, the new content, and exactly which blocks were released.

The model follows the code, with two exceptions where the code departs from what its callers are evidently promised: `BStringEraseAt` and `BStringSubstring`. For those two, the code as written is modelled in `Findings.dfy`, and the string class carries the intended operation.

## Model

| member | source | states |
|---|---|---|
| Memory.StrLen | BString.c:38 | strlen: the result indexes a NUL, and no NUL comes before it |
| Memory.Read | BString.c:181-183 | the bytes memcpy reads: exactly n of them, the block's bytes from `from` to `from + n` when n is positive, and a zero-length read touches nothing, not even NULL |
| Memory.Allocator.Malloc | BString.c:10 | malloc yields NULL with nothing allocated, or a fresh block of the requested length that becomes live |
| Memory.Allocator.Realloc | BString.c:24 | realloc of a live block or NULL yields NULL with the old block still live, or a fresh block that keeps the old block's bytes up to the new length; the old block is released |
| Memory.Allocator.Free | BString.c:134 | free is defined only on a live block or NULL; the block leaves the live set |
| Memory.AllocateString | BString.c:8-20 | a fresh block of n + 1 bytes with a NUL at n, or NULL with the live set unchanged |
| Memory.ReallocateString | BString.c:22-34 | the old block is resized to n + 1 bytes with a NUL at n, keeping its leading bytes; on failure NULL with the old block untouched |
| Memory.MemCpy | BString.c:52 | memcpy writes exactly the target window and leaves every other byte of the block alone |
| Search.FirstMatch | BString.c:152 | the scan strstr performs: the least index at or after i where the needle occurs, or no occurrence at all |
| Search.WindowInContent | BString.c:152 | the C string strstr scans from `m_str + t_offset` lies inside the content and reaches its end when there is no interior NUL |
| Search.MatchInWindow | BString.c:152-154 | a match inside the scanned window is a match in the content shifted by the offset, and conversely |
| BStrings.BString.Find | BString.c:150-155 | BStringFind on the string's own block and m_size: NPOS or an absolute position at or after the offset where the needle occurs in the content, the least such; NPOS on NUL-free content means no occurrence; an empty needle answers the offset |
| Search.Find | BString.c:150-155 | BStringFind answers NPOS or an absolute position at or after the offset where the needle occurs; it is the least such position; NPOS on NUL-free content means no occurrence; an empty needle answers the offset |
| Search.FindFirstExample | BString.c:150-155 | "bc" in "abcabc" from 0 is found at 1 |
| Search.FindFromOffsetExample | BString.c:150-155 | "bc" in "abcabc" from 2 is found at 4, an absolute position |
| Search.FindMissingExample | BString.c:150-155 | "xy" in "abcabc" is NPOS |
| Search.FindAfterJoin | BString.c:150-155 | text t appended after s is found from offset \|s\| exactly at \|s\| |
| Views.ViewCreateN | BString.h:152-155 | the view holds exactly the given pointer and length, unvalidated; when the length fits, its bytes are the first n |
| Views.ViewCreate | BString.c:248-251 | the view of a C string spans exactly the bytes before its terminator, so it is readable and NUL-free |
| Splice.ErasedN | BString.c:196-216 | erasing n times shortens the content by n |
| Splice.ErasedNCutsSpan | BString.c:196-216 | erasing at i n times removes exactly the span [i, i + n) |
| Splice.EraseUndoesInsert | BString.c:170-216 | inserting v at i, then erasing at i once per byte of v, restores the content |
| Splice.ReplaceIsEraseThenInsert | BString.c:218-246 | a replace equals erasing the matched span and then inserting the replacement at the same position |
| Splice.ReplaceUndo | BString.c:218-246 | replacing the replacement with the bytes it replaced restores the content |
| Splice.Concat | BString.c:254-288 | the views' bytes in array order are as long as the sum of their sizes |
| Splice.ConcatStep | BString.c:258-261 | one more view adds its size to the running total and its bytes to the concatenation, and the running total never passes the grand total |
| Splice.SumSizesPrefix | BString.c:258-261 | the sizes of any leading views never exceed the sum of all of them |
| Splice.ConcatAppend | BString.c:272-276 | concatenating two batches of views at once equals concatenating one batch after the other |
| BStrings.CopyViews | BString.c:272-276 | the second loop of ConcentrateN: after view i the write cursor is the start plus the sizes of views 0..i, and the bytes written are the views in order; the terminator past them is untouched |
| BStrings.AllocateConcatenated | BString.c:263-276 | ConcentrateN's allocation and copies: NULL with nothing allocated, or a fresh terminated block holding the old content followed by every view |
| BStrings.CopyThree | BString.c:236-238 | three consecutive memcpy calls leave pre ++ mid ++ post at the start of the block |
| BStrings.AllocateSpliced | BString.c:174-183 | allocation followed by three copies: a fresh terminated block holding the content with a span replaced, or NULL with nothing allocated |
| BStrings.BString.Default | BString.h:26 | BStringDefault: size 0, empty content, pointing at the static literal, which is not a heap block |
| BStrings.StringError | BString.h:28-33 | eStringError's three outcomes: NONE, the only success, ALLOCATION and NOTFOUND |
| BStrings.CreateSize | BString.c:38 | the length BStringCreateN copies: t_num itself, or under NPOS the strlen of the source, the index of its first NUL |
| BStrings.BString.CreateN | BString.c:36-58 | under NPOS the size is strlen; a size of 0 fails with ALLOCATION; on any failure nothing changes; on success m_size is the size, the content is the source's first bytes and the block is terminated; a held block is reallocated only when m_size is not 0, so a size-0 heap block leaks |
| BStrings.BString.Create | BString.c:60-63 | Create is CreateN under NPOS: the content is the C string, and an empty one fails with ALLOCATION; on success the live blocks are the prior ones less the released block (when m_size was not 0) plus the new one, so a size-0 heap block leaks |
| BStrings.BString.Assign | BString.c:65-80 | realloc of the target, which must not be the literal; on success size and content are the source's; on failure nothing changes |
| BStrings.BString.Join | BString.c:82-99 | on success the size is the sum and the content is old ++ source; on failure nothing changes; realloc of the literal is excluded |
| BStrings.BString.Swap | BString.c:101-107 | the two structs trade pointer, size and kind |
| BStrings.BString.Move | BString.c:109-125 | moving a string onto itself does nothing; otherwise the target takes the source's struct and the source becomes {NULL, 0}; the target's block is freed only when its size is not 0, so a size-0 heap block leaks |
| BStrings.BString.Free | BString.c:127-138 | nothing happens when m_size is 0; otherwise the block is released and the string becomes {NULL, 0}; either way the string is left valid, so a second call is safe |
| BStrings.BString.Substring | BString.c:158-168 | NOTFOUND exactly when Find is NPOS; a match at the very end fails with ALLOCATION; on success the target holds the source's bytes from the match to the end (the intended copy; see Findings), and the live blocks change as in CreateN, a size-0 heap block leaking |
| BStrings.BString.InsertAt | BString.c:170-194 | on success the size grows by the view's size and the content is s[..i] ++ v ++ s[i..] in a fresh block; the old block is freed only when the size was not 0; on failure nothing changes |
| BStrings.BString.EraseAt | BString.c:196-216 | the intended erase: on success the size is m_size - 1 and the content is s[..i] ++ s[i+1..] in a fresh block, and the old block is freed once; on failure nothing changes (see Findings) |
| BStrings.BString.Replace | BString.c:218-246 | NOTFOUND with nothing changed exactly when Find from 0 answers NPOS (on NUL-free content: when the target is absent); otherwise only the first occurrence is spliced: the new size is m_size + \|repl\| - \|target\|, and the content is s[..pos] ++ repl ++ s[pos+\|target\|..] |
| BStrings.BString.SpliceIn | BString.c:227-245 | Replace's allocation, copies and unconditional free: the span at pos is replaced in a fresh block, and the old block is released |
| BStrings.BString.ConcentrateN | BString.c:254-288 | on success the size is m_size plus the views' sizes and the content is old ++ the views in array order; the old block is freed only when the size was not 0; on failure nothing changes |
| BStrings.BString.ToView | BString.h:179-182 | the view holds the bytes of m_str's block and has length m_size, and its bytes are the content |
| BStrings.BString.Contains | BString.h:196-199 | true only when the needle occurs in the content; exactly when it occurs if the content has no NUL |
| BStrings.BString.Begin | BString.h:205-208 | the pointer is m_str, at the first byte of the content |
| BStrings.BString.End | BString.h:214-217 | End - Begin == m_size, and End points at the terminator |
| Findings.EraseAtAsWritten | BString.c:207-208 | the two memcpy calls of BStringEraseAt as written, read as if the old block were intact: when in bounds, m_size - 1 bytes whose first `index` are the prefix before the erased byte |
| Findings.EraseAtAsWrittenOverruns | BString.c:207-208 | the copy arithmetic as written, assuming the old bytes were still readable: it stays in bounds (and gives the intended bytes) only at index 0 or 1, and overruns both blocks exactly when the index is 2 or more; the realloc-then-read of BString.c:200-210 rules that assumption out in every case |
| Findings.EraseAtHelloExample | BString.c:207-208 | "hello" erased at 2 overruns as written, while the intended result is "helo" |
| Findings.EraseAtBlocksAsWritten | BString.c:200-210 | the live blocks after BStringEraseAt's realloc and free as written: when the free is defined, exactly the prior live blocks less the original one; with the block kept in place the free is always defined |
| Findings.EraseAtBlocksAsWrittenNeverSound | BString.c:200-210 | however realloc behaves, the as-written free is either a second free of the moved block or leaves m_str pointing at a released block |
| Findings.SubstringAsWritten | BString.c:167 | the bytes BStringSubstring hands to BStringCreateN as written: defined exactly when offset + pos is within m_size, and then m_size - offset - pos bytes long |
| Findings.SubstringAsWrittenSkipsOffset | BString.c:167 | as written, the copy is the intended one exactly when the offset is 0; otherwise it drops the first `offset` bytes of the intended result |
| Findings.SubstringAbcabcExample | BString.c:150-167 | "c" in "abcabc" from offset 1 is found at 2: the intended result is "cabc", but as written the copy gives "abc" |
| Scenarios.FindElloInHelloBang | BString.c:220 | "ello" in "hello!" is found at 1 |
| Scenarios.HelloBang | BString.c:82-99 | create "hello", then join "!": on success the content is "hello!" |
| Scenarios.ReplaceElloByI | BString.c:218-246 | replace "ello" by "i" in "hello!": on success the content is "hi!" |
| Scenarios.EditHello | BString.c:170-246 | the session "hello", "hello!", "hi!", "yahi!", "ahi!": on success the content is "ahi!" with size 4 |
| Scenarios.ConcentrateAbc | BString.c:254-288 | "a" concentrated with the views "b" and "c" is "abc" with size 3 |
| Scenarios.SwapTwice | BString.c:101-107 | swapping twice gives both strings back their own pointer, size and kind |
| Scenarios.FreeTwice | BString.c:127-138 | freeing twice is safe, and the block is released once |

## Left out

- `BStringPrint` (console output through `puts`) is not modelled: it is I/O.
- `BStringCompare` and `BStringEquals` are declared in the header, but their bodies are not part of this model.
- The `_Generic` macro `BStringToView` is a compile-time choice between `BStringToViewStr` and `BStringViewCreate`. Both are modelled separately.
- The variadic macro `BStringConcentrate` only builds an array for `BStringConcentrateN`. The model passes a sequence of views instead.
- Pointer identity is kept only where the contracts need it: a block is an array, and pointers into it are (block, offset) pairs. Arithmetic across blocks and the contents of freed memory are not modelled.
- Source pointers are modelled as snapshots of the bytes they reach. For Assign, Join and Substring, aliasing between the source and the block being written is excluded by preconditions rather than modelled.
- BStrings.BString.CreateN and BStrings.BString.Create: the source is read as a snapshot taken before the realloc, so a source inside the string's own block is not excluded. In C that call is undefined when `m_size` is not 0, because BString.c:45 reallocates `m_str` before BString.c:52 copies from the source.
- `size_t` wrap-around is not modelled. The sums of sizes are required to stay below `BSTRING_NPOS`, and `m_size` is always below it.
- Thread safety is not modelled: the library does no synchronisation.
- Every `BStringDefault` gets its own one-byte array standing for the static literal `""`. Whether literals are shared does not affect any contract.
- `realloc` always hands back a fresh block in the model. Growing a block in place is not distinguished; both cases keep the leading bytes.
- Allocation failure is a nondeterministic choice inside the allocator. Out-of-memory conditions are not modelled.
- BStrings.BString.EraseAt: models the intended erase, not the code as written (see Findings), and requires `index < m_size`. On an empty string the code's `m_size - 1` wraps around.
- BStrings.BString.Substring: models the copy from the match, not the code's `t_offset + pos` (see Findings).
- BStrings.BString.Replace: requires the target view's NUL to sit exactly at its `m_size`, because the search reads the pointer as a C string while the splice uses `m_size`. Views whose two lengths disagree are not modelled. An empty target on the static literal is excluded, because it reaches `free` on the literal.
- BStrings.BString.Assign and BStrings.BString.Join: require that the target does not hold the static literal, because both call `realloc` on `m_str` unconditionally.
- BStrings.BString.Find: requires the string not to be NULL, because `strstr` on NULL is undefined. It also requires the needle to be a C string without NUL.

## Findings

| source | as written | input that shows it | evidently intended | confidence | as-written member | corrected member |
|---|---|---|---|---|---|---|
| BString.c:208 | the second memcpy copies `m_size - 1` bytes from `index + 1` | "hello", erase at 2: 4 bytes are written at 2 into a 5-byte block and read from 3 of a 6-byte block (Findings.EraseAtAsWrittenOverruns) | copy `m_size - 1 - index` bytes | high (not executed) | Findings.EraseAtAsWritten | BStrings.BString.EraseAt |
| BString.c:200-210 | realloc of `m_str`, then memcpy from `m_str` and free of `m_str` | any erase: a moved block is read after realloc released it and then freed a second time; a block kept in place is freed while the string still points at it (Findings.EraseAtBlocksAsWrittenNeverSound) | build the result in a fresh block and free the old one once, as InsertAt does | high (not executed) | Findings.EraseAtBlocksAsWritten | BStrings.BString.EraseAt |
| BString.c:167 | copy from `m_str + t_offset + pos`, `m_size - t_offset - pos` bytes, although `pos` is already absolute | "abcabc", needle "c", offset 1: Find answers 2 and the copy yields "abc" (Findings.SubstringAsWrittenSkipsOffset, Findings.SubstringAbcabcExample) | copy from `m_str + pos`, `m_size - pos` bytes, giving "cabc" | high (not executed) | Findings.SubstringAsWritten | BStrings.BString.Substring |
