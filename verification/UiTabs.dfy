/** Replacing blocks of lines in a document (docs/scripts/generate_ui_tabs.py).

    Replacements are spliced in from the last to the first, so that line numbers computed before stay
    meaningful.  `regenerate_file` replaces whole tab blocks, `process_file` fenced YAML blocks. */
module UiTabs {
  import opened Common

  type Lines = seq<string>

  // ---------------------------------------------------------------- slice assignment

  /** A slice bound, as Python resolves it: negative ones count from the end, and all are clipped. */
  function Bound(i: int, n: nat): (b: nat)
    ensures b <= n
  {
    if i < 0 then (if i + n < 0 then 0 else i + n) else if i > n then n else i
  }

  /** `lines[a:b] = text` */
  function SliceAssign(lines: Lines, a: int, b: int, text: Lines): Lines {
    var s, e := Bound(a, |lines|), Bound(b, |lines|);
    lines[..s] + text + lines[if e < s then s else e..]
  }

  // ---------------------------------------------------------------- simultaneous substitution

  /** A replacement of the lines `first` to `last`, both counted from 0 and included. */
  datatype Patch = Patch(first: nat, last: nat, text: Lines)

  /** The patches lie within the document, in ascending order, and do not overlap. */
  ghost predicate Ascending(patches: seq<Patch>, n: nat) {
    && (forall i :: 0 <= i < |patches| ==> patches[i].first <= patches[i].last < n)
    && (forall i, j :: 0 <= i < j < |patches| ==> patches[i].last < patches[j].first)
  }

  /** The document from line `from` on with patches `k` and following put in place of their lines. */
  ghost function Substitute(lines: Lines, patches: seq<Patch>, k: nat, from: nat): Lines
    requires Ascending(patches, |lines|) && k <= |patches| && from <= |lines|
    requires k < |patches| ==> from <= patches[k].first
    decreases |patches| - k
  {
    if k == |patches| then lines[from..]
    else
      lines[from..patches[k].first] + patches[k].text + Substitute(lines, patches, k + 1, patches[k].last + 1)
  }

  lemma {:induction false} SkipAhead(lines: Lines, patches: seq<Patch>, k: nat, from: nat, p: nat)
    requires Ascending(patches, |lines|) && k <= |patches| && from <= p <= |lines|
    requires k < |patches| ==> p <= patches[k].first
    ensures Substitute(lines, patches, k, from) == lines[from..p] + Substitute(lines, patches, k, p)
  {
    if k < |patches| {
      assert lines[from..patches[k].first] == lines[from..p] + lines[p..patches[k].first];
    }
  }

  /** Splicing patch `k` into a document that has the later ones already. */
  lemma {:induction false} SpliceStep(lines: Lines, patches: seq<Patch>, k: nat)
    requires Ascending(patches, |lines|) && k < |patches|
    ensures SliceAssign(Substitute(lines, patches, k + 1, 0), patches[k].first, patches[k].last + 1, patches[k].text)
            == Substitute(lines, patches, k, 0)
  {
    var p := patches[k];
    SkipAhead(lines, patches, k + 1, 0, p.last + 1);
    assert lines[..p.last + 1][..p.first] == lines[..p.first];
  }

  /** Splicing from last to first puts every patch where it belongs. */
  method SpliceReversed(lines: Lines, patches: seq<Patch>) returns (out: Lines)
    requires Ascending(patches, |lines|)
    ensures out == Substitute(lines, patches, 0, 0)
  {
    out := lines;
    for k := |patches| downto 0
      invariant out == Substitute(lines, patches, k, 0)
    {
      var p := patches[k];
      SpliceStep(lines, patches, k);
      out := SliceAssign(out, p.first, p.last + 1, p.text);
    }
  }

  /** By how much the patches from `k` on change the length of the document. */
  function Growth(patches: seq<Patch>, k: nat): int
    requires k <= |patches|
    decreases |patches| - k
  {
    if k == |patches| then 0
    else |patches[k].text| - (patches[k].last + 1 - patches[k].first) + Growth(patches, k + 1)
  }

  /** By how much the patches before `m` move what follows them. */
  function Shift(patches: seq<Patch>, m: nat): int
    requires m <= |patches|
  {
    Growth(patches, 0) - Growth(patches, m)
  }

  lemma {:induction false} LengthFrom(lines: Lines, patches: seq<Patch>, k: nat, from: nat)
    requires Ascending(patches, |lines|) && k <= |patches| && from <= |lines|
    requires k < |patches| ==> from <= patches[k].first
    ensures |Substitute(lines, patches, k, from)| == |lines| - from + Growth(patches, k)
    decreases |patches| - k
  {
    if k < |patches| {
      LengthFrom(lines, patches, k + 1, patches[k].last + 1);
    }
  }

  /** The document up to patch `m`, and what `Substitute` puts after it. */
  lemma {:induction false} SplitAt(lines: Lines, patches: seq<Patch>, k: nat, from: nat, m: nat) returns (head: Lines)
    requires Ascending(patches, |lines|) && k < m <= |patches| && from <= patches[k].first
    ensures Substitute(lines, patches, k, from) == head + Substitute(lines, patches, m, patches[m - 1].last + 1)
    ensures |head| == patches[m - 1].last + 1 - from + Growth(patches, k) - Growth(patches, m)
    decreases m - k
  {
    var first := lines[from..patches[k].first] + patches[k].text;
    assert Substitute(lines, patches, k, from) == first + Substitute(lines, patches, k + 1, patches[k].last + 1);
    if m == k + 1 {
      head := first;
    } else {
      var more := SplitAt(lines, patches, k + 1, patches[k].last + 1, m);
      var rest := Substitute(lines, patches, m, patches[m - 1].last + 1);
      Regroup(first, more, rest);
      head := first + more;
    }
  }

  /** The first line after patch `m - 1`, and the first line of patch `m`. */
  function GapStart(patches: seq<Patch>, m: nat): nat
    requires m <= |patches|
  {
    if m == 0 then 0 else patches[m - 1].last + 1
  }

  function GapEnd(lines: Lines, patches: seq<Patch>, m: nat): nat
    requires m <= |patches|
  {
    if m < |patches| then patches[m].first else |lines|
  }

  /** Simultaneous substitution, without reference to how it is computed: the lines between two patches,
      before the first and after the last are all there, unchanged, moved by the patches before them; the
      text of every patch follows where its lines were; and the length leaves room for nothing else. */
  lemma EverythingElseUnchanged(lines: Lines, patches: seq<Patch>, m: nat)
    requires Ascending(patches, |lines|) && m <= |patches|
    ensures var out, lo, hi := Substitute(lines, patches, 0, 0), GapStart(patches, m), GapEnd(lines, patches, m);
            var at, upto := lo + Shift(patches, m), hi + Shift(patches, m);
            && |out| == |lines| + Growth(patches, 0)
            && 0 <= at <= upto <= |out| && out[at..upto] == lines[lo..hi]
            && (m < |patches| ==> upto + |patches[m].text| <= |out|
                                  && out[upto..upto + |patches[m].text|] == patches[m].text)
  {
    LengthFrom(lines, patches, 0, 0);
    var head := RestAt(lines, patches, m);
    RestBegins(lines, patches, m);
    Located(head, Substitute(lines, patches, m, GapStart(patches, m)),
            GapEnd(lines, patches, m) - GapStart(patches, m), if m < |patches| then |patches[m].text| else 0);
  }

  /** Where the first `gap` lines of `rest`, and the `more` lines after them, are once `head` goes before. */
  lemma {:induction false} Located(head: Lines, rest: Lines, gap: nat, more: nat)
    requires gap + more <= |rest|
    ensures (head + rest)[|head|..|head| + gap] == rest[..gap]
    ensures (head + rest)[|head| + gap..|head| + gap + more] == rest[gap..gap + more]
  {
  }

  lemma {:induction false} RestAt(lines: Lines, patches: seq<Patch>, m: nat) returns (head: Lines)
    requires Ascending(patches, |lines|) && m <= |patches|
    ensures GapStart(patches, m) <= GapEnd(lines, patches, m) <= |lines|
    ensures Substitute(lines, patches, 0, 0) == head + Substitute(lines, patches, m, GapStart(patches, m))
    ensures |head| == GapStart(patches, m) + Shift(patches, m)
  {
    if m > 0 {
      head := SplitAt(lines, patches, 0, 0, m);
    } else {
      head := [];
    }
  }

  lemma {:induction false} RestBegins(lines: Lines, patches: seq<Patch>, m: nat)
    requires Ascending(patches, |lines|) && m <= |patches|
    ensures var lo, hi := GapStart(patches, m), GapEnd(lines, patches, m);
            && lo <= hi <= |lines|
            && var rest := Substitute(lines, patches, m, lo);
               && hi - lo <= |rest| && rest[..hi - lo] == lines[lo..hi]
               && (m < |patches| ==> hi - lo + |patches[m].text| <= |rest|
                                     && rest[hi - lo..hi - lo + |patches[m].text|] == patches[m].text)
  {
  }

  // ---------------------------------------------------------------- regenerating tab blocks

  /** A tab block found in a document, its lines counted from 1 and both included. */
  datatype Block = Block(start: nat, end: nat)

  /** The first line from `j` on that closes a block, or the number of lines. */
  function CloseFrom(lines: Lines, isClose: string -> bool, j: nat): (c: nat)
    requires j <= |lines|
    ensures j <= c <= |lines| && (c < |lines| ==> isClose(lines[c]))
    ensures forall i :: j <= i < c ==> !isClose(lines[i])
    decreases |lines| - j
  {
    if j == |lines| || isClose(lines[j]) then j else CloseFrom(lines, isClose, j + 1)
  }

  /** The blocks from line `i` on: each runs from an opening line to the next closing one, and only those
      with a usable body are kept. */
  function BlocksFrom(lines: Lines, isOpen: string -> bool, isClose: string -> bool, usable: Lines -> bool, i: nat)
    : seq<Block>
    requires i <= |lines|
    decreases |lines| - i
  {
    if i == |lines| then []
    else if !isOpen(lines[i]) then BlocksFrom(lines, isOpen, isClose, usable, i + 1)
    else
      var j := CloseFrom(lines, isClose, i + 1);
      if j == |lines| then BlocksFrom(lines, isOpen, isClose, usable, i + 1)
      else if usable(lines[i..j + 1]) then [Block(i + 1, j + 1)] + BlocksFrom(lines, isOpen, isClose, usable, j + 1)
      else BlocksFrom(lines, isOpen, isClose, usable, j + 1)
  }

  method ExtractConfigTabsBlocks(lines: Lines, isOpen: string -> bool, isClose: string -> bool, usable: Lines -> bool)
    returns (blocks: seq<Block>)
    ensures blocks == BlocksFrom(lines, isOpen, isClose, usable, 0)
  {
    blocks := [];
    var i := 0;
    while i < |lines|
      invariant i <= |lines|
      invariant BlocksFrom(lines, isOpen, isClose, usable, 0) == blocks + BlocksFrom(lines, isOpen, isClose, usable, i)
    {
      if !isOpen(lines[i]) {
        i := i + 1;
        continue;
      }
      var blockStart := i;
      var j := i + 1;
      while j < |lines| && !isClose(lines[j])
        invariant i + 1 <= j <= |lines| && CloseFrom(lines, isClose, i + 1) == CloseFrom(lines, isClose, j)
      {
        j := j + 1;
      }
      if j >= |lines| {
        i := i + 1;
        continue;
      }
      if usable(lines[blockStart..j + 1]) {
        Regroup(blocks, [Block(blockStart + 1, j + 1)], BlocksFrom(lines, isOpen, isClose, usable, j + 1));
        blocks := blocks + [Block(blockStart + 1, j + 1)];
      }
      i := j + 1;
    }
  }

  /** The blocks found lie one after another. */
  lemma {:induction false} BlocksAscend(lines: Lines, isOpen: string -> bool, isClose: string -> bool,
                                        usable: Lines -> bool, i: nat)
    requires i <= |lines|
    ensures AscendingBlocks(BlocksFrom(lines, isOpen, isClose, usable, i), i, |lines|)
    decreases |lines| - i
  {
    if i < |lines| {
      var j := if isOpen(lines[i]) then CloseFrom(lines, isClose, i + 1) else |lines|;
      if j == |lines| {
        BlocksAscend(lines, isOpen, isClose, usable, i + 1);
      } else {
        BlocksAscend(lines, isOpen, isClose, usable, j + 1);
      }
    }
  }

  /** A line that opens a stretch: it matches the opening fence, some line after it the closing one, and it
      does not lie in a stretch that was opened further up. */
  ghost predicate Opens(lines: Lines, isOpen: string -> bool, isClose: string -> bool, from: nat, a: nat)
    requires from <= |lines|
    decreases a
  {
    && from <= a < |lines| && isOpen(lines[a]) && CloseFrom(lines, isClose, a + 1) < |lines|
    && forall b :: from <= b < a && Opens(lines, isOpen, isClose, from, b) ==> CloseFrom(lines, isClose, b + 1) < a
  }

  /** A document with the first stretch taken off, or a line that opens none, is the rest of it as far as further
      stretches go. */
  lemma {:induction false} OpensFurther(lines: Lines, isOpen: string -> bool, isClose: string -> bool,
                                        from: nat, next: nat, a: nat)
    requires from < next <= |lines| && next <= a
    requires forall b :: from <= b < next && Opens(lines, isOpen, isClose, from, b) ==>
                           b == from && CloseFrom(lines, isClose, b + 1) < next
    ensures Opens(lines, isOpen, isClose, from, a) <==> Opens(lines, isOpen, isClose, next, a)
    decreases a
  {
    forall b | next <= b < a
      ensures Opens(lines, isOpen, isClose, from, b) <==> Opens(lines, isOpen, isClose, next, b)
    {
      OpensFurther(lines, isOpen, isClose, from, next, b);
    }
  }

  /** Which blocks are found: those of the lines that open a stretch, each up to the first closing line after it,
      provided that the body is usable; and no others. */
  lemma {:induction false} FoundIff(lines: Lines, isOpen: string -> bool, isClose: string -> bool,
                                    usable: Lines -> bool, from: nat, block: Block)
    requires from <= |lines|
    ensures block in BlocksFrom(lines, isOpen, isClose, usable, from) <==>
              && 0 < block.start && Opens(lines, isOpen, isClose, from, block.start - 1)
              && block.end == CloseFrom(lines, isClose, block.start) + 1
              && usable(lines[block.start - 1..block.end])
    decreases |lines| - from
  {
    if from < |lines| {
      var j := CloseFrom(lines, isClose, from + 1);
      var stretch := isOpen(lines[from]) && j < |lines|;
      var next := if stretch then j + 1 else from + 1;
      FoundIff(lines, isOpen, isClose, usable, next, block);
      assert block in BlocksFrom(lines, isOpen, isClose, usable, from) <==>
               || block in BlocksFrom(lines, isOpen, isClose, usable, next)
               || (stretch && usable(lines[from..j + 1]) && block == Block(from + 1, j + 1));
      SkipsTo(lines, isOpen, isClose, from, next);
      if block.start > next {
        OpensFurther(lines, isOpen, isClose, from, next, block.start - 1);
      }
    }
  }

  lemma {:induction false} SkipsTo(lines: Lines, isOpen: string -> bool, isClose: string -> bool, from: nat, next: nat)
    requires from < |lines|
    requires var j := CloseFrom(lines, isClose, from + 1);
             next == if isOpen(lines[from]) && j < |lines| then j + 1 else from + 1
    ensures Opens(lines, isOpen, isClose, from, from) <==>
              isOpen(lines[from]) && CloseFrom(lines, isClose, from + 1) < |lines|
    ensures forall b :: from <= b < next && Opens(lines, isOpen, isClose, from, b) ==>
                          b == from && CloseFrom(lines, isClose, b + 1) < next
  {
    if next > from + 1 {
      assert Opens(lines, isOpen, isClose, from, from);
    }
  }

  /** One after another, after the first `from` lines and within the document. */
  ghost predicate AscendingBlocks(blocks: seq<Block>, from: nat, n: nat) {
    && (forall k :: 0 <= k < |blocks| ==> from < blocks[k].start <= blocks[k].end <= n)
    && (forall k, l :: 0 <= k < l < |blocks| ==> blocks[k].end < blocks[l].start)
  }

  /** The patches for the blocks whose generated text differs; `renew` gives the new lines of a block, or
      nothing when it is to be left alone. */
  function PatchesFor(lines: Lines, blocks: seq<Block>, renew: Lines -> Option<Lines>): seq<Patch>
    requires forall k :: 0 <= k < |blocks| ==> 0 < blocks[k].start <= blocks[k].end <= |lines|
  {
    if blocks == [] then []
    else
      var b := blocks[|blocks| - 1];
      var renewed := renew(lines[b.start - 1..b.end]);
      PatchesFor(lines, blocks[..|blocks| - 1], renew)
      + if renewed.Some? then [Patch(b.start - 1, b.end - 1, renewed.value)] else []
  }

  /** The patch puts the new lines of the block in the place of its old ones. */
  predicate Renews(p: Patch, lines: Lines, b: Block, renew: Lines -> Option<Lines>) {
    && 0 < b.start <= b.end <= |lines| && p.first == b.start - 1 && p.last == b.end - 1
    && renew(lines[b.start - 1..b.end]) == Some(p.text)
  }

  /** The patches are those of the blocks that are renewed, each for the lines of its block, and no others. */
  lemma {:induction false} PatchesIff(lines: Lines, blocks: seq<Block>, renew: Lines -> Option<Lines>, p: Patch)
    requires forall k :: 0 <= k < |blocks| ==> 0 < blocks[k].start <= blocks[k].end <= |lines|
    ensures p in PatchesFor(lines, blocks, renew) <==> exists b :: b in blocks && Renews(p, lines, b, renew)
  {
    if blocks != [] {
      var init, last := blocks[..|blocks| - 1], blocks[|blocks| - 1];
      PatchesIff(lines, init, renew, p);
      assert p in PatchesFor(lines, blocks, renew) <==>
               p in PatchesFor(lines, init, renew) || Renews(p, lines, last, renew);
      assert forall b :: b in blocks <==> b in init || b == last by { assert blocks == init + [last]; }
    }
  }

  lemma {:induction false} PatchesAscend(lines: Lines, blocks: seq<Block>, renew: Lines -> Option<Lines>)
    requires AscendingBlocks(blocks, 0, |lines|)
    ensures Ascending(PatchesFor(lines, blocks, renew), |lines|)
    ensures blocks == [] ==> PatchesFor(lines, blocks, renew) == []
    ensures blocks != [] ==> forall i :: 0 <= i < |PatchesFor(lines, blocks, renew)| ==>
              PatchesFor(lines, blocks, renew)[i].last < blocks[|blocks| - 1].end
  {
    if blocks != [] {
      var init, last := blocks[..|blocks| - 1], blocks[|blocks| - 1];
      PatchesAscend(lines, init, renew);
      var before := PatchesFor(lines, init, renew);
      assert init != [] ==> init[|init| - 1].end < last.start;
      assert forall i :: 0 <= i < |before| ==> before[i].last < last.start - 1;
    }
  }

  method CollectPatches(lines: Lines, blocks: seq<Block>, renew: Lines -> Option<Lines>)
    returns (replacements: seq<Patch>)
    requires AscendingBlocks(blocks, 0, |lines|)
    ensures replacements == PatchesFor(lines, blocks, renew)
  {
    replacements := [];
    for k := 0 to |blocks|
      invariant replacements == PatchesFor(lines, blocks[..k], renew)
    {
      assert blocks[..k + 1][..k] == blocks[..k];
      var renewed := renew(lines[blocks[k].start - 1..blocks[k].end]);
      if renewed.Some? {
        replacements := replacements + [Patch(blocks[k].start - 1, blocks[k].end - 1, renewed.value)];
      }
    }
    assert blocks[..|blocks|] == blocks;
  }

  /** Regenerating a file: find the tab blocks, generate their text anew, and splice.  Whatever the document,
      the result is the simultaneous substitution of exactly the blocks that changed. */
  method RegenerateFile(lines: Lines, isOpen: string -> bool, isClose: string -> bool, usable: Lines -> bool,
                        renew: Lines -> Option<Lines>)
    returns (out: Lines)
    ensures var blocks := BlocksFrom(lines, isOpen, isClose, usable, 0);
            && AscendingBlocks(blocks, 0, |lines|)
            && var patches := PatchesFor(lines, blocks, renew);
               Ascending(patches, |lines|) && out == Substitute(lines, patches, 0, 0)
  {
    var blocks := ExtractConfigTabsBlocks(lines, isOpen, isClose, usable);
    BlocksAscend(lines, isOpen, isClose, usable, 0);
    var replacements := CollectPatches(lines, blocks, renew);
    PatchesAscend(lines, blocks, renew);
    out := SpliceReversed(lines, replacements);
  }

  // ---------------------------------------------------------------- injecting around fenced blocks

  /** The document with patches `k` and following spliced in as `process_file` does it: two is subtracted from
      the number of a block's opening fence, counted from 1. */
  function Inject(lines: Lines, patches: seq<Patch>, k: nat): Lines
    requires k <= |patches|
    decreases |patches| - k
  {
    if k == |patches| then lines
    else
      var p := patches[k];
      SliceAssign(Inject(lines, patches, k + 1), (p.first + 1) - 2, p.last + 1, p.text)
  }

  method InjectReversed(lines: Lines, patches: seq<Patch>) returns (out: Lines)
    ensures out == Inject(lines, patches, 0)
  {
    out := lines;
    for k := |patches| downto 0
      invariant out == Inject(lines, patches, k)
    {
      var start, end := patches[k].first + 1, patches[k].last + 1;
      var blockStart, blockEnd := start - 2, end - 1;
      out := SliceAssign(out, blockStart, blockEnd + 1, patches[k].text);
    }
  }

  /** From patch `k` on, no block opens on the first line, and no replacement is empty. */
  ghost predicate OffTheTop(patches: seq<Patch>, k: nat) {
    forall i :: k <= i < |patches| ==> patches[i].first > 0 && patches[i].text != []
  }

  /** Every splice off the top lands within the document and costs it one line too many. */
  lemma {:induction false} InjectLength(lines: Lines, patches: seq<Patch>, k: nat)
    requires Ascending(patches, |lines|) && k <= |patches| && OffTheTop(patches, k)
    ensures |Inject(lines, patches, k)| == |lines| + Growth(patches, k) - (|patches| - k)
    ensures |Inject(lines, patches, k)| >= GapEnd(lines, patches, k)
    decreases |patches| - k
  {
    if k < |patches| {
      InjectLength(lines, patches, k + 1);
    }
  }

  lemma {:induction false} SpliceKeepsTop(after: Lines, p: Patch, n: nat)
    requires n < p.first <= p.last && p.last + 1 <= |after|
    ensures var out := SliceAssign(after, (p.first + 1) - 2, p.last + 1, p.text);
            n <= |out| && out[..n] == after[..n]
  {
    assert after[..p.first - 1][..n] == after[..n];
  }

  /** What lies above the line before patch `k` is not touched by that splice and those after it. */
  lemma {:induction false} InjectKeepsTop(lines: Lines, patches: seq<Patch>, k: nat, n: nat)
    requires Ascending(patches, |lines|) && k <= |patches| && OffTheTop(patches, k)
    requires n <= |lines| && (k < |patches| ==> n < patches[k].first)
    ensures n <= |Inject(lines, patches, k)| && Inject(lines, patches, k)[..n] == lines[..n]
    decreases |patches| - k
  {
    if k < |patches| {
      InjectKeepsTop(lines, patches, k + 1, n);
      InjectReaches(lines, patches, k);
      SpliceKeepsTop(Inject(lines, patches, k + 1), patches[k], n);
    }
  }

  /** The document still reaches beyond patch `k` when those after it have been spliced in. */
  lemma {:induction false} InjectReaches(lines: Lines, patches: seq<Patch>, k: nat)
    requires Ascending(patches, |lines|) && k < |patches| && OffTheTop(patches, k)
    ensures patches[k].last + 1 <= |Inject(lines, patches, k + 1)|
  {
    InjectLength(lines, patches, k + 1);
  }

  /** A block at the very top of a document is not replaced: all its lines but the closing fence stay where
      they are.  The text for it is spliced in before the last line of the document, or, when the block is the
      whole document, in place of that last line, its closing fence. */
  lemma TopBlockStays(lines: Lines, patches: seq<Patch>)
    requires Ascending(patches, |lines|) && patches != [] && OffTheTop(patches, 1) && patches[0].first == 0
    ensures patches[0].last <= |Inject(lines, patches, 0)|
    ensures Inject(lines, patches, 0)[..patches[0].last] == lines[..patches[0].last]
  {
    var rest, p := Inject(lines, patches, 1), patches[0];
    InjectLength(lines, patches, 1);
    InjectKeepsTop(lines, patches, 1, p.last);
    assert Inject(lines, patches, 0) == SliceAssign(rest, -1, p.last + 1, p.text);
    assert rest[..|rest| - 1][..p.last] == rest[..p.last];
  }

  /** What the documents and replacements of the script are like: a block has a line for each of its two
      fences, and no replacement is empty or begins with the opening fence it replaces. */
  ghost predicate FencedBlocks(lines: Lines, patches: seq<Patch>) {
    && Ascending(patches, |lines|)
    && forall i :: 0 <= i < |patches| ==>
         patches[i].first < patches[i].last && patches[i].text != [] && patches[i].text[0] != lines[patches[i].first]
  }

  /** So the splice never replaces the fenced blocks alone, wherever they are: the result is the intended
      substitution if and only if there is nothing to replace. */
  lemma InjectionExactIffNothingToDo(lines: Lines, patches: seq<Patch>)
    requires FencedBlocks(lines, patches)
    ensures Inject(lines, patches, 0) == Substitute(lines, patches, 0, 0) <==> patches == []
  {
    if patches != [] {
      if patches[0].first > 0 {
        assert OffTheTop(patches, 0);
        LengthFrom(lines, patches, 0, 0);
        InjectLength(lines, patches, 0);
      } else {
        TopBlockStays(lines, patches);
        assert Inject(lines, patches, 0)[0] == Inject(lines, patches, 0)[..patches[0].last][0] == lines[0];
        assert Substitute(lines, patches, 0, 0)[0] == patches[0].text[0];
      }
    }
  }

  /** The patch that splice `k` amounts to: it takes the line above the opening fence as well; but when the
      block before ends there, that line is gone with that block, whose splice takes the first line of the
      text instead. */
  function Effect(patches: seq<Patch>, k: nat): Patch
    requires k < |patches| && patches[k].first > 0 && patches[k].text != []
  {
    var p := patches[k];
    if k > 0 && patches[k - 1].last + 1 == p.first then Patch(p.first, p.last, p.text[1..])
    else Patch(p.first - 1, p.last, p.text)
  }

  function Effects(patches: seq<Patch>): (out: seq<Patch>)
    requires forall k :: 0 <= k < |patches| ==> patches[k].first > 0 && patches[k].text != []
    ensures |out| == |patches| && forall k :: 0 <= k < |patches| ==> out[k] == Effect(patches, k)
  {
    seq(|patches|, k requires 0 <= k < |patches| && patches[k].first > 0 && patches[k].text != [] => Effect(patches, k))
  }

  lemma EffectsAscend(patches: seq<Patch>, n: nat)
    requires Ascending(patches, n) && OffTheTop(patches, 0)
    ensures Ascending(Effects(patches), n)
  {
    var out := Effects(patches);
    forall i, j | 0 <= i < j < |out| ensures out[i].last < out[j].first {
      assert patches[i].last < patches[j].first && patches[j - 1].last < patches[j].first;
    }
  }

  /** What is left from line `cut` on of a document that has `text` spliced in from line `n - 1` on. */
  function Remains(lines: Lines, n: nat, text: Lines, rest: Lines, cut: nat): Lines
    requires 0 < n <= |lines| && cut <= n && text != []
  {
    if cut == n then text[1..] + rest else lines[cut..n - 1] + text + rest
  }

  lemma {:induction false} CutSpliced(lines: Lines, n: nat, text: Lines, rest: Lines, cut: nat, top: nat)
    requires 0 < n <= |lines| && cut <= n && top < n && text != []
    ensures var after := lines[..n - 1] + text + rest;
            && cut <= |after| && top <= |after| && after[..top] == lines[..top]
            && after[cut..] == Remains(lines, n, text, rest, cut)
  {
    var head := lines[..n - 1];
    Regroup(head, text, rest);
    if cut == n {
      assert (head + (text + rest))[|head| + 1..] == (text + rest)[1..];
      assert (text + rest)[1..] == text[1..] + rest;
    } else {
      assert (head + (text + rest))[cut..] == head[cut..] + (text + rest);
      assert head[cut..] == lines[cut..n - 1];
      Regroup(head[cut..], text, rest);
    }
  }

  /** One splice, given what the document has become and what of it remains below. */
  lemma {:induction false} SpliceOnce(lines: Lines, p: Patch, after: Lines, remains: Lines)
    requires 0 < p.first <= p.last && p.last + 1 <= |after| && p.first - 1 <= |lines|
    requires after[..p.first - 1] == lines[..p.first - 1] && after[p.last + 1..] == remains
    ensures SliceAssign(after, (p.first + 1) - 2, p.last + 1, p.text) == lines[..p.first - 1] + p.text + remains
  {
  }

  /** One splice above another. */
  lemma {:induction false} SpliceAbove(lines: Lines, p: Patch, q: Patch, rest: Lines)
    requires 0 < p.first <= p.last < q.first <= |lines| && q.text != []
    ensures SliceAssign(lines[..q.first - 1] + q.text + rest, (p.first + 1) - 2, p.last + 1, p.text)
            == lines[..p.first - 1] + p.text + Remains(lines, q.first, q.text, rest, p.last + 1)
  {
    var after := lines[..q.first - 1] + q.text + rest;
    CutSpliced(lines, q.first, q.text, rest, p.last + 1, p.first - 1);
    SpliceOnce(lines, p, after, Remains(lines, q.first, q.text, rest, p.last + 1));
  }

  lemma {:induction false} OneEffect(lines: Lines, patches: seq<Patch>, k: nat, rest: Lines)
    requires Ascending(patches, |lines|) && OffTheTop(patches, 0) && k + 1 < |patches|
    ensures var cut, q, effect := patches[k].last + 1, patches[k + 1], Effect(patches, k + 1);
            && cut <= effect.first && effect.last == q.last
            && lines[cut..effect.first] + effect.text + rest == Remains(lines, q.first, q.text, rest, cut)
  {
    var cut, q := patches[k].last + 1, patches[k + 1];
    if cut == q.first {
      assert lines[cut..cut] + q.text[1..] == q.text[1..];
    }
  }

  /** What remains below patch `k` is the substitution of the effects of those after it. */
  lemma {:induction false} RemainsIsSubstitute(lines: Lines, patches: seq<Patch>, effects: seq<Patch>, k: nat,
                                               rest: Lines)
    requires Ascending(patches, |lines|) && OffTheTop(patches, 0) && k + 1 < |patches| == |effects|
    requires Ascending(effects, |lines|) && effects[k + 1] == Effect(patches, k + 1)
    requires rest == Substitute(lines, effects, k + 2, patches[k + 1].last + 1)
    ensures patches[k].last + 1 <= effects[k + 1].first
    ensures Remains(lines, patches[k + 1].first, patches[k + 1].text, rest, patches[k].last + 1)
            == Substitute(lines, effects, k + 1, patches[k].last + 1)
  {
    OneEffect(lines, patches, k, rest);
    SubstituteStep(lines, effects, k + 1, patches[k].last + 1, rest);
  }

  lemma {:induction false} SubstituteStep(lines: Lines, patches: seq<Patch>, k: nat, from: nat, rest: Lines)
    requires Ascending(patches, |lines|) && k < |patches| && from <= patches[k].first
    requires rest == Substitute(lines, patches, k + 1, patches[k].last + 1)
    ensures Substitute(lines, patches, k, from) == lines[from..patches[k].first] + patches[k].text + rest
  {
  }

  /** Patch `k` and those after it spliced in: above its text the document is as it was, but for the line taken
      with its opening fence, and below it as the effects of the others have it. */
  lemma {:induction false} InjectFrom(lines: Lines, patches: seq<Patch>, effects: seq<Patch>, k: nat)
    requires Ascending(patches, |lines|) && OffTheTop(patches, 0) && k < |patches| && effects == Effects(patches)
    requires Ascending(effects, |lines|)
    ensures Inject(lines, patches, k) == lines[..patches[k].first - 1] + patches[k].text
                                         + Substitute(lines, effects, k + 1, patches[k].last + 1)
    decreases |patches| - k
  {
    if k + 1 == |patches| {
      SpliceOnce(lines, patches[k], lines, lines[patches[k].last + 1..]);
    } else {
      var rest := Substitute(lines, effects, k + 2, patches[k + 1].last + 1);
      InjectFrom(lines, patches, effects, k + 1);
      RemainsIsSubstitute(lines, patches, effects, k, rest);
      InjectOnto(lines, patches, k, rest);
    }
  }

  lemma {:induction false} InjectOnto(lines: Lines, patches: seq<Patch>, k: nat, rest: Lines)
    requires Ascending(patches, |lines|) && OffTheTop(patches, 0) && k + 1 < |patches|
    requires Inject(lines, patches, k + 1) == lines[..patches[k + 1].first - 1] + patches[k + 1].text + rest
    ensures Inject(lines, patches, k) ==
              lines[..patches[k].first - 1] + patches[k].text
              + Remains(lines, patches[k + 1].first, patches[k + 1].text, rest, patches[k].last + 1)
  {
    SpliceAbove(lines, patches[k], patches[k + 1], rest);
  }

  /** The whole substitution begins with the first effect. */
  lemma {:induction false} FirstEffect(lines: Lines, patches: seq<Patch>)
    requires Ascending(patches, |lines|) && OffTheTop(patches, 0) && patches != []
    requires Ascending(Effects(patches), |lines|)
    ensures Substitute(lines, Effects(patches), 0, 0) == lines[..patches[0].first - 1] + patches[0].text
                                                         + Substitute(lines, Effects(patches), 1, patches[0].last + 1)
  {
    var p, effect := patches[0], Effects(patches)[0];
    assert effect == Patch(p.first - 1, p.last, p.text);
    assert lines[0..p.first - 1] == lines[..p.first - 1];
  }

  /** What the splice does to blocks off the top: it is the substitution of the patches' effects.  Each block
      costs the document the line above its opening fence, or, next to another block, the first line of its
      own replacement. */
  lemma InjectionTakesLineAbove(lines: Lines, patches: seq<Patch>)
    requires Ascending(patches, |lines|) && OffTheTop(patches, 0)
    ensures Ascending(Effects(patches), |lines|)
    ensures Inject(lines, patches, 0) == Substitute(lines, Effects(patches), 0, 0)
    ensures |Inject(lines, patches, 0)| == |Substitute(lines, patches, 0, 0)| - |patches|
  {
    EffectsAscend(patches, |lines|);
    LengthFrom(lines, patches, 0, 0);
    InjectLength(lines, patches, 0);
    InjectIsSubstitute(lines, patches);
  }

  lemma {:induction false} InjectIsSubstitute(lines: Lines, patches: seq<Patch>)
    requires Ascending(patches, |lines|) && OffTheTop(patches, 0) && Ascending(Effects(patches), |lines|)
    ensures Inject(lines, patches, 0) == Substitute(lines, Effects(patches), 0, 0)
  {
    if patches != [] {
      InjectFrom(lines, patches, Effects(patches), 0);
      FirstEffect(lines, patches);
    }
  }
}
