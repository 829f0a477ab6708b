/** The marked block that the renderer keeps inside repository-owned files: locating it,
    replacing or appending it, extracting it and retiring it
    (crates/jig-bootstrap/src/renderer.rs). */
module ManagedBlocks {
  import opened Wrappers
  import opened Occurrences

  datatype BlockSpec = BlockSpec(path: string, begin: string, end: string)

  const GUIDE_BEGIN := "<!-- BEGIN JIG MANAGED BLOCK -->"
  const GUIDE_END := "<!-- END JIG MANAGED BLOCK -->"
  const COMMENT_BEGIN := "# BEGIN JIG MANAGED BLOCK"
  const COMMENT_END := "# END JIG MANAGED BLOCK"

  const MANAGED_BLOCK_SPECS: seq<BlockSpec> := [
    BlockSpec("AGENTS.md", GUIDE_BEGIN, GUIDE_END),
    BlockSpec(".gitattributes", COMMENT_BEGIN, COMMENT_END),
    BlockSpec(".gitignore", COMMENT_BEGIN, COMMENT_END)
  ]

  /** What the laws below need of a marker pair. */
  predicate SoundSpec(spec: BlockSpec) {
    && HeadUnique(spec.begin) && HeadUnique(spec.end)
    && spec.begin[0] == spec.end[0]
    && !HasPrefix(spec.begin, spec.end) && !HasPrefix(spec.end, spec.begin)
    && spec.begin[|spec.begin| - 1] != '\n' && spec.end[|spec.end| - 1] != '\n'
  }

  lemma GuideMarkers()
    ensures HeadUnique(GUIDE_BEGIN) && GUIDE_BEGIN[0] == '<' && GUIDE_BEGIN[5] == 'B'
    ensures GUIDE_BEGIN[|GUIDE_BEGIN| - 1] == '>'
  {
  }

  lemma GuideEndMarker()
    ensures HeadUnique(GUIDE_END) && GUIDE_END[0] == '<' && GUIDE_END[5] == 'E'
    ensures GUIDE_END[|GUIDE_END| - 1] == '>'
  {
  }

  lemma CommentMarkers()
    ensures HeadUnique(COMMENT_BEGIN) && COMMENT_BEGIN[0] == '#' && COMMENT_BEGIN[2] == 'B'
    ensures COMMENT_BEGIN[|COMMENT_BEGIN| - 1] == 'K'
  {
  }

  lemma CommentEndMarker()
    ensures HeadUnique(COMMENT_END) && COMMENT_END[0] == '#' && COMMENT_END[2] == 'E'
    ensures COMMENT_END[|COMMENT_END| - 1] == 'K'
  {
  }

  /** Markers that share their head but differ at one position are not prefixes of each other. */
  lemma MarkerPairIsSound(path: string, begin: string, end: string, k: nat)
    requires HeadUnique(begin) && HeadUnique(end) && begin[0] == end[0]
    requires k < |begin| && k < |end| && begin[k] != end[k]
    requires begin[|begin| - 1] != '\n' && end[|end| - 1] != '\n'
    ensures SoundSpec(BlockSpec(path, begin, end))
  {
    assert |end| <= |begin| ==> begin[..|end|][k] == begin[k];
    assert |begin| <= |end| ==> end[..|begin|][k] == end[k];
  }

  /** All three marker pairs of the source are sound. */
  lemma ManagedSpecsAreSound(spec: BlockSpec)
    requires spec in MANAGED_BLOCK_SPECS
    ensures SoundSpec(spec)
  {
    GuideMarkers();
    GuideEndMarker();
    CommentMarkers();
    CommentEndMarker();
    if spec == MANAGED_BLOCK_SPECS[0] {
      MarkerPairIsSound(spec.path, GUIDE_BEGIN, GUIDE_END, 5);
    } else {
      MarkerPairIsSound(spec.path, COMMENT_BEGIN, COMMENT_END, 2);
    }
  }

  datatype Bounds = Absent | At(start: nat, end: nat) | Malformed

  function BoundsOf(begins: seq<nat>, ends: seq<nat>, endLength: nat): Bounds {
    if begins == [] && ends == [] then Absent
    else if |begins| == 1 && |ends| == 1 && begins[0] < ends[0] then At(begins[0], ends[0] + endLength)
    else Malformed
  }

  /** Bounds by the non-overlapping string search, used when merging. */
  function BlockBounds(text: string, spec: BlockSpec): (r: Bounds)
    requires |spec.begin| > 0 && |spec.end| > 0
    ensures r.At? ==> r.start < r.end <= |text|
  {
    var ends := ScanMatches(text, spec.end, 0);
    assert |ends| > 0 ==> ends[0] in ends;
    BoundsOf(ScanMatches(text, spec.begin, 0), ends, |spec.end|)
  }

  /** Bounds by the overlapping byte search, used when retiring. */
  function BlockByteBounds(text: string, spec: BlockSpec): (r: Bounds)
    ensures r.At? ==> r.start <= r.end <= |text|
  {
    var ends := WindowMatches(text, spec.end, 0);
    assert |ends| > 0 ==> ends[0] in ends;
    BoundsOf(WindowMatches(text, spec.begin, 0), ends, |spec.end|)
  }

  /** Merging and retiring see the same block. */
  lemma BoundsAgree(text: string, spec: BlockSpec)
    requires SoundSpec(spec)
    ensures BlockBounds(text, spec) == BlockByteBounds(text, spec)
  {
    HeadUniqueIsBorderless(spec.begin);
    HeadUniqueIsBorderless(spec.end);
    ScanEqualsWindows(text, spec.begin, 0);
    ScanEqualsWindows(text, spec.end, 0);
  }

  function Extract(text: string, spec: BlockSpec): Option<string>
    requires |spec.begin| > 0 && |spec.end| > 0
  {
    match BlockBounds(text, spec)
    case At(start, end) => Some(text[start..end])
    case _ => None
  }

  function TrimNewlines(text: string): (r: string)
    ensures |r| <= |text| && r == text[..|r|]
    ensures forall i | |r| <= i < |text| :: text[i] == '\n'
    ensures r == [] || r[|r| - 1] != '\n'
  {
    if text != [] && text[|text| - 1] == '\n' then TrimNewlines(text[..|text| - 1]) else text
  }

  /** `None` is the source's "Malformed Jig managed block" error. */
  function Merge(existing: string, block: string, spec: BlockSpec): Option<string>
    requires |spec.begin| > 0 && |spec.end| > 0
  {
    match BlockBounds(existing, spec)
    case At(start, end) => Some(existing[..start] + block + existing[end..])
    case Absent =>
      var head := TrimNewlines(existing);
      Some((if head == [] then "" else head + "\n\n") + TrimNewlines(block) + "\n")
    case Malformed => None
  }

  /** How much of the separator before the block goes with it. */
  function SeparatorBefore(before: string): (n: nat)
    ensures n <= |before|
  {
    if HasSuffix(before, "\r\n\r\n") then 2 else if HasSuffix(before, "\n\n") then 1 else 0
  }

  /** How much of the line end after the block goes with it. */
  function SeparatorAfter(after: string): (n: nat)
    ensures n <= |after|
  {
    if HasPrefix(after, "\r\n") then 2 else if HasPrefix(after, "\n") then 1 else 0
  }

  function RemoveBlock(text: string, start: nat, end: nat): string
    requires start <= end <= |text|
  {
    text[..start - SeparatorBefore(text[..start])] + text[end + SeparatorAfter(text[end..])..]
  }

  datatype Retirement = NothingToRetire | Remaining(text: string) | Refused

  /** Removing the block that the byte search finds. `Refused` is the source's "Malformed Jig managed
      block" error. */
  function Retire(text: string, spec: BlockSpec): Retirement {
    match BlockByteBounds(text, spec)
    case At(start, end) => Remaining(RemoveBlock(text, start, end))
    case Absent => NothingToRetire
    case Malformed => Refused
  }

  /** A block as `Extract` returns it: the markers are its two ends and occur nowhere else. */
  predicate WellFormed(block: string, spec: BlockSpec)
    requires |spec.begin| > 0 && |spec.end| > 0
  {
    BlockBounds(block, spec) == At(0, |block|)
  }

  ghost predicate Clean(text: string, spec: BlockSpec) {
    forall i: nat :: !OccursAt(text, spec.begin, i) && !OccursAt(text, spec.end, i)
  }

  // ---- reading bounds as occurrences ----

  /** `At(s, e)` says: one begin marker, at s; one end marker, ending at e; s before it. */
  ghost predicate BlockAt(text: string, spec: BlockSpec, s: nat, e: nat) {
    && s + |spec.end| < e <= |text|
    && OccursAt(text, spec.begin, s) && OccursAt(text, spec.end, e - |spec.end|)
    && (forall i: nat :: OccursAt(text, spec.begin, i) ==> i == s)
    && (forall i: nat :: OccursAt(text, spec.end, i) ==> i == e - |spec.end|)
  }

  lemma BoundsMeaning(text: string, spec: BlockSpec)
    requires SoundSpec(spec)
    ensures BlockBounds(text, spec) == Absent <==> Clean(text, spec)
    ensures forall s, e :: BlockBounds(text, spec) == At(s, e) <==> BlockAt(text, spec, s, e)
  {
    BoundsAgree(text, spec);
    AbsentMeaning(text, spec);
    forall s: nat, e: nat ensures BlockBounds(text, spec) == At(s, e) <==> BlockAt(text, spec, s, e) {
      if BlockBounds(text, spec) == At(s, e) { AtMeaning(text, spec, s, e); }
      if BlockAt(text, spec, s, e) { FoundAt(text, spec, s, e); }
    }
  }

  lemma FoundAt(text: string, spec: BlockSpec, s: nat, e: nat)
    requires SoundSpec(spec) && BlockAt(text, spec, s, e)
    ensures BlockByteBounds(text, spec) == At(s, e)
  {
    SingleMatch(text, spec.begin, s);
    SingleMatch(text, spec.end, e - |spec.end|);
  }

  lemma AbsentMeaning(text: string, spec: BlockSpec)
    requires SoundSpec(spec)
    ensures BlockByteBounds(text, spec) == Absent <==> Clean(text, spec)
  {
    var begins, ends := WindowMatches(text, spec.begin, 0), WindowMatches(text, spec.end, 0);
    WindowMatchesExactly(text, spec.begin, 0);
    WindowMatchesExactly(text, spec.end, 0);
    if |begins| > 0 { assert begins[0] in begins; }
    if |ends| > 0 { assert ends[0] in ends; }
  }

  lemma AtMeaning(text: string, spec: BlockSpec, s: nat, e: nat)
    requires SoundSpec(spec) && BlockByteBounds(text, spec) == At(s, e)
    ensures BlockAt(text, spec, s, e)
  {
    WindowMatchesExactly(text, spec.begin, 0);
    WindowMatchesExactly(text, spec.end, 0);
    assert WindowMatches(text, spec.begin, 0) == [s] && WindowMatches(text, spec.end, 0) == [e - |spec.end|];
    assert s in [s] && e - |spec.end| in [e - |spec.end|];
  }

  // ---- splicing a block ----

  /** No marker occurrence straddles a splice point: around a well-formed block, text free of
      markers contributes none, and the block's own two markers are the only ones. */
  lemma OnlyMarkersOfBlock(pre: string, block: string, post: string, spec: BlockSpec, needle: string, i: nat)
    requires SoundSpec(spec) && WellFormed(block, spec)
    requires Clean(pre, spec) && Clean(post, spec)
    requires needle == spec.begin || needle == spec.end
    requires OccursAt(pre + block + post, needle, i)
    ensures i == |pre| + if needle == spec.begin then 0 else |block| - |spec.end|
  {
    BoundsMeaning(block, spec);
    assert BlockAt(block, spec, 0, |block|);
    assert pre + block + post == pre + (block + post);
    NotBefore(pre, block, post, spec, needle, i);
    NotAfter(pre + block, post, spec, needle, i);
    NotAcrossTheEnd(pre, block, post, spec, needle, i);
    OccursInLeft(pre + block, post, needle, i);
    OccursInRight(pre, block, needle, i);
  }

  lemma NotAfter(before: string, post: string, spec: BlockSpec, needle: string, i: nat)
    requires Clean(post, spec) && (needle == spec.begin || needle == spec.end) && OccursAt(before + post, needle, i)
    ensures i < |before|
  {
    if i >= |before| { OccursInRight(before, post, needle, i); }
  }

  /** No occurrence starts before the block: it would lie in marker-free text, or hold the first
      character of the begin marker after its own. */
  lemma NotBefore(pre: string, block: string, post: string, spec: BlockSpec, needle: string, i: nat)
    requires SoundSpec(spec) && Clean(pre, spec) && BlockAt(block, spec, 0, |block|)
    requires needle == spec.begin || needle == spec.end
    requires OccursAt(pre + (block + post), needle, i)
    ensures i >= |pre|
  {
    OccursChar(block, spec.begin, 0, 0);
    assert (pre + (block + post))[|pre|] == needle[0];
    if i + |needle| <= |pre| {
      OccursInLeft(pre, block + post, needle, i);
    } else if i < |pre| {
      OccursChar(pre + (block + post), needle, i, |pre| - i);
    }
  }

  /** An occurrence that starts in the block ends in it: it would hold the first character of the
      end marker after its own, or start inside the end marker, or extend it. */
  lemma NotAcrossTheEnd(pre: string, block: string, post: string, spec: BlockSpec, needle: string, i: nat)
    requires SoundSpec(spec) && BlockAt(block, spec, 0, |block|)
    requires needle == spec.begin || needle == spec.end
    requires OccursAt(pre + block + post, needle, i) && |pre| <= i < |pre| + |block|
    ensures i + |needle| <= |pre| + |block|
  {
    var text, tail := pre + block + post, |pre| + |block| - |spec.end|;
    OccursChar(block, spec.end, |block| - |spec.end|, 0);
    OccursInRight(pre, block, spec.end, tail);
    OccursInLeft(pre + block, post, spec.end, tail);
    assert text[tail] == needle[0];
    if i < tail < i + |needle| {
      OccursChar(text, needle, i, tail - i);
    } else if i == tail && |spec.end| <= |needle| {
      ShorterIsPrefix(text, needle, spec.end, i);
    } else if tail < i {
      OccursChar(text, needle, i, 0);
      OccursChar(text, spec.end, tail, i - tail);
    }
  }

  /** A well-formed block between marker-free texts is found exactly where it was put. */
  lemma SpliceBounds(pre: string, block: string, post: string, spec: BlockSpec)
    requires SoundSpec(spec) && WellFormed(block, spec)
    requires Clean(pre, spec) && Clean(post, spec)
    ensures BlockBounds(pre + block + post, spec) == At(|pre|, |pre| + |block|)
  {
    var text := pre + block + post;
    BoundsMeaning(block, spec);
    assert BlockAt(block, spec, 0, |block|);
    OccursInRight(pre, block, spec.begin, |pre|);
    OccursInLeft(pre + block, post, spec.begin, |pre|);
    OccursInRight(pre, block, spec.end, |pre| + |block| - |spec.end|);
    OccursInLeft(pre + block, post, spec.end, |pre| + |block| - |spec.end|);
    forall i: nat | OccursAt(text, spec.begin, i) ensures i == |pre| {
      OnlyMarkersOfBlock(pre, block, post, spec, spec.begin, i);
    }
    forall i: nat | OccursAt(text, spec.end, i) ensures i == |pre| + |block| - |spec.end| {
      OnlyMarkersOfBlock(pre, block, post, spec, spec.end, i);
    }
    assert BlockAt(text, spec, |pre|, |pre| + |block|);
    BoundsMeaning(text, spec);
  }

  /** Text on either side of the only block has no marker. */
  lemma OutsideIsClean(text: string, spec: BlockSpec, s: nat, e: nat)
    requires SoundSpec(spec) && BlockBounds(text, spec) == At(s, e)
    ensures s < e <= |text| && Clean(text[..s], spec) && Clean(text[e..], spec)
  {
    BoundsMeaning(text, spec);
    assert BlockAt(text, spec, s, e);
    assert text == text[..s] + text[s..] == text[..e] + text[e..];
    CleanBefore(text[..s], text[s..], spec);
    CleanAfter(text[..e], text[e..], spec);
  }

  lemma CleanBefore(pre: string, rest: string, spec: BlockSpec)
    requires |spec.begin| > 0 && |spec.end| > 0
    requires forall i: nat | i < |pre| :: !OccursAt(pre + rest, spec.begin, i)
    requires forall i: nat | i + |spec.end| <= |pre| :: !OccursAt(pre + rest, spec.end, i)
    ensures Clean(pre, spec)
  {
    forall i: nat ensures !OccursAt(pre, spec.begin, i) && !OccursAt(pre, spec.end, i) {
      if i + |spec.begin| <= |pre| { OccursInLeft(pre, rest, spec.begin, i); }
      if i + |spec.end| <= |pre| { OccursInLeft(pre, rest, spec.end, i); }
    }
  }

  lemma CleanAfter(before: string, post: string, spec: BlockSpec)
    requires forall i: nat | |before| <= i ::
               !OccursAt(before + post, spec.begin, i) && !OccursAt(before + post, spec.end, i)
    ensures Clean(post, spec)
  {
    forall i: nat ensures !OccursAt(post, spec.begin, i) && !OccursAt(post, spec.end, i) {
      OccursInRight(before, post, spec.begin, |before| + i);
      OccursInRight(before, post, spec.end, |before| + i);
    }
  }

  /** `Extract` returns only well-formed blocks, so a merge never splices anything else. */
  lemma ExtractedIsWellFormed(text: string, spec: BlockSpec)
    requires SoundSpec(spec) && Extract(text, spec).Some?
    ensures WellFormed(Extract(text, spec).value, spec)
  {
    var At(s, e) := BlockBounds(text, spec);
    BoundsMeaning(text, spec);
    SliceIsBlock(text, spec, s, e);
    BoundsMeaning(text[s..e], spec);
  }

  lemma SliceIsBlock(text: string, spec: BlockSpec, s: nat, e: nat)
    requires SoundSpec(spec) && BlockAt(text, spec, s, e)
    ensures BlockAt(text[s..e], spec, 0, e - s)
  {
    BeginFitsBeforeEnd(text, spec, s, e);
    var block := text[s..e];
    OccursInSlice(text, spec.begin, s, e);
    OccursInSlice(text, spec.end, s, e);
    assert OccursAt(text, spec.begin, s + 0) && OccursAt(text, spec.end, s + (|block| - |spec.end|));
  }

  lemma OccursInSlice(text: string, needle: string, s: nat, e: nat)
    requires s <= e <= |text|
    ensures forall i: nat | i + |needle| <= e - s :: OccursAt(text[s..e], needle, i) <==> OccursAt(text, needle, s + i)
  {
    assert text == text[..s] + (text[s..e] + text[e..]);
    forall i: nat | i + |needle| <= e - s ensures OccursAt(text[s..e], needle, i) <==> OccursAt(text, needle, s + i) {
      OccursInLeft(text[s..e], text[e..], needle, i);
      OccursInRight(text[..s], text[s..e] + text[e..], needle, s + i);
    }
  }

  /** The begin marker ends inside the block: the two markers cannot overlap. */
  lemma BeginFitsBeforeEnd(text: string, spec: BlockSpec, s: nat, e: nat)
    requires SoundSpec(spec) && BlockAt(text, spec, s, e)
    ensures s + |spec.begin| + |spec.end| <= e
  {
    OccursChar(text, spec.end, e - |spec.end|, 0);
    forall i: nat | s < i < s + |spec.begin| ensures i < |text| && text[i] != spec.end[0] {
      OccursChar(text, spec.begin, s, i - s);
    }
  }

  // ---- the laws ----

  /** Where a merge puts the block: marker-free text on both sides, and nothing else. */
  lemma MergeShape(existing: string, block: string, spec: BlockSpec) returns (pre: string, post: string)
    requires SoundSpec(spec) && WellFormed(block, spec)
    requires BlockBounds(existing, spec) != Malformed
    ensures Clean(pre, spec) && Clean(post, spec)
    ensures Merge(existing, block, spec) == Some(pre + block + post)
    ensures BlockBounds(existing, spec).At? ==>
              var b := BlockBounds(existing, spec);
              b.start <= b.end <= |existing| && pre == existing[..b.start] && post == existing[b.end..]
    ensures BlockBounds(existing, spec).Absent? ==>
              && post == "\n"
              && pre == if TrimNewlines(existing) == "" then "" else TrimNewlines(existing) + "\n\n"
  {
    if BlockBounds(existing, spec).At? {
      var At(s, e) := BlockBounds(existing, spec);
      OutsideIsClean(existing, spec, s, e);
      pre, post := existing[..s], existing[e..];
    } else {
      BoundsMeaning(existing, spec);
      BoundsMeaning(block, spec);
      assert BlockAt(block, spec, 0, |block|);
      OccursChar(block, spec.end, |block| - |spec.end|, |spec.end| - 1);
      var head := TrimNewlines(existing);
      pre, post := if head == "" then "" else head + "\n\n", "\n";
      NewlinesAddNoMarker(existing, head, spec);
      NewlineIsClean(spec);
    }
  }

  lemma NewlinesAddNoMarker(existing: string, head: string, spec: BlockSpec)
    requires SoundSpec(spec) && Clean(existing, spec)
    requires |head| <= |existing| && head == existing[..|head|]
    ensures Clean(head + "\n\n", spec)
  {
    var text := head + "\n\n";
    forall needle, i: nat | (needle == spec.begin || needle == spec.end) && OccursAt(text, needle, i)
      ensures OccursAt(existing, needle, i)
    {
      OccursChar(text, needle, i, |needle| - 1);
      OccursInLeft(head, "\n\n", needle, i);
      assert existing == head + existing[|head|..];
      OccursInLeft(head, existing[|head|..], needle, i);
    }
  }

  lemma NewlineIsClean(spec: BlockSpec)
    requires SoundSpec(spec)
    ensures Clean("\n", spec)
  {
    forall i: nat ensures !OccursAt("\n", spec.begin, i) && !OccursAt("\n", spec.end, i) {
    }
  }

  /** Replacing keeps everything outside the old block; appending keeps the whole text but its
      trailing newlines. */
  predicate OutsideKept(existing: string, merged: string, block: string, spec: BlockSpec)
    requires |spec.begin| > 0 && |spec.end| > 0
  {
    match BlockBounds(existing, spec)
    case At(s, e) => merged == existing[..s] + block + existing[e..]
    case _ => HasPrefix(merged, TrimNewlines(existing)) && HasSuffix(merged, block + "\n")
  }

  /** A merge succeeds unless the existing markers are malformed; the result holds exactly the
      new block, and replacing leaves the text outside the old block untouched. */
  lemma MergeLaws(existing: string, block: string, spec: BlockSpec)
    requires SoundSpec(spec) && WellFormed(block, spec)
    ensures Merge(existing, block, spec).Some? <==> BlockBounds(existing, spec) != Malformed
    ensures Merge(existing, block, spec).Some? ==>
              var merged := Merge(existing, block, spec).value;
              && Extract(merged, spec) == Some(block)
              && |ScanMatches(merged, spec.begin, 0)| == 1 && |ScanMatches(merged, spec.end, 0)| == 1
              && OutsideKept(existing, merged, block, spec)
  {
    if BlockBounds(existing, spec) != Malformed {
      var pre, post := MergeShape(existing, block, spec);
      HoldsBlock(pre, block, post, spec);
      if BlockBounds(existing, spec).Absent? { AppendKeeps(TrimNewlines(existing), block); }
    }
  }

  lemma HoldsBlock(pre: string, block: string, post: string, spec: BlockSpec)
    requires SoundSpec(spec) && WellFormed(block, spec) && Clean(pre, spec) && Clean(post, spec)
    ensures var merged := pre + block + post;
            && Extract(merged, spec) == Some(block)
            && |ScanMatches(merged, spec.begin, 0)| == 1 && |ScanMatches(merged, spec.end, 0)| == 1
  {
    SpliceBounds(pre, block, post, spec);
    assert (pre + block + post)[|pre|..|pre| + |block|] == block;
  }

  lemma AppendKeeps(head: string, block: string)
    ensures var merged := (if head == "" then "" else head + "\n\n") + block + "\n";
            HasPrefix(merged, head) && HasSuffix(merged, block + "\n")
  {
    var pre := if head == "" then "" else head + "\n\n";
    var merged := pre + block + "\n";
    assert merged[..|head|] == head;
    assert merged[|pre|..] == block + "\n";
  }

  /** Only the last merged block remains. */
  lemma LastMergeWins(existing: string, first: string, second: string, spec: BlockSpec)
    requires SoundSpec(spec) && WellFormed(first, spec) && WellFormed(second, spec)
    requires BlockBounds(existing, spec) != Malformed
    ensures Merge(existing, first, spec).Some?
    ensures Merge(Merge(existing, first, spec).value, second, spec) == Merge(existing, second, spec)
  {
    var pre, post := MergeShape(existing, first, spec);
    var pre', post' := MergeShape(existing, second, spec);
    var merged := pre + first + post;
    SpliceBounds(pre, first, post, spec);
    assert merged[..|pre|] == pre && merged[|pre| + |first|..] == post;
  }

  /** Retiring undoes appending, up to the file's trailing newlines. */
  lemma RetireUndoesAppend(existing: string, block: string, spec: BlockSpec)
    requires SoundSpec(spec) && WellFormed(block, spec) && BlockBounds(existing, spec) == Absent
    ensures Merge(existing, block, spec).Some?
    ensures Retire(Merge(existing, block, spec).value, spec) ==
            Remaining(if TrimNewlines(existing) == "" then "" else TrimNewlines(existing) + "\n")
  {
    var pre, post := MergeShape(existing, block, spec);
    var head := TrimNewlines(existing);
    assert Retire(pre + block + post, spec) == Remaining(AfterAppendAndRetire(head)) by {
      RetireSpliced(pre, block, post, spec);
    }
    SeparatorOfAppend(head);
  }

  /** What `RetireSpliced` leaves of the text that an append put around the block. */
  function AfterAppendAndRetire(head: string): string {
    var pre := if head == "" then "" else head + "\n\n";
    pre[..|pre| - SeparatorBefore(pre)] + "\n"[SeparatorAfter("\n")..]
  }

  /** The blank line that appending adds is what retiring takes away, one newline staying. */
  lemma SeparatorOfAppend(head: string)
    ensures AfterAppendAndRetire(head) == if head == "" then "" else head + "\n"
  {
    if head != "" {
      var pre := head + "\n\n";
      assert pre[|pre| - 2..] == "\n\n";
      NotCrlf(pre);
      assert pre[..|pre| - 1] == head + "\n";
    }
  }

  lemma NotCrlf(pre: string)
    requires |pre| >= 2 && pre[|pre| - 2] == '\n'
    ensures !HasSuffix(pre, "\r\n\r\n")
  {
    if |pre| >= 4 {
      assert pre[|pre| - 4..][2] == pre[|pre| - 2];
    }
  }

  lemma RetireSpliced(pre: string, block: string, post: string, spec: BlockSpec)
    requires SoundSpec(spec) && WellFormed(block, spec) && Clean(pre, spec) && Clean(post, spec)
    ensures Retire(pre + block + post, spec) ==
            Remaining(pre[..|pre| - SeparatorBefore(pre)] + post[SeparatorAfter(post)..])
  {
    SpliceBounds(pre, block, post, spec);
    BoundsAgree(pre + block + post, spec);
    RemoveSpliced(pre, block, post);
  }

  lemma RemoveSpliced(pre: string, block: string, post: string)
    ensures RemoveBlock(pre + block + post, |pre|, |pre| + |block|) ==
            pre[..|pre| - SeparatorBefore(pre)] + post[SeparatorAfter(post)..]
  {
    var merged := pre + block + post;
    assert merged[..|pre|] == pre && merged[|pre| + |block|..] == post;
    var n, m := SeparatorBefore(pre), SeparatorAfter(post);
    assert merged[..|pre| - n] == pre[..|pre| - n];
    assert merged[|pre| + |block| + m..] == post[m..];
  }

  /** The line end that goes with a block which `after` follows: `"\r\n"`, `"\n"` or nothing, as
      `after` begins. */
  ghost predicate IsLineEnd(after: string, dropped: string) {
    || (|after| >= 2 && after[0] == '\r' && after[1] == '\n' && dropped == ['\r', '\n'])
    || (|after| >= 1 && after[0] == '\n' && dropped == ['\n'])
    || ((|after| == 0 || (after[0] != '\n' && (|after| == 1 || after[0] != '\r' || after[1] != '\n')))
        && dropped == [])
  }

  /** What goes of the text before it: the second of two line ends of one kind, and else nothing. */
  ghost predicate IsBlankLine(before: string, dropped: string) {
    var n := |before|;
    || (n >= 4 && before[n - 4] == '\r' && before[n - 3] == '\n' && before[n - 2] == '\r' && before[n - 1] == '\n'
        && dropped == ['\r', '\n'])
    || (n >= 2 && before[n - 2] == '\n' && before[n - 1] == '\n' && dropped == ['\n'])
    || (!(n >= 4 && before[n - 4] == '\r' && before[n - 3] == '\n' && before[n - 2] == '\r' && before[n - 1] == '\n')
        && !(n >= 2 && before[n - 2] == '\n' && before[n - 1] == '\n') && dropped == [])
  }

  /** Retiring removes the block, the line end after it and the second of two line ends before it,
      and nothing else. */
  lemma RetireKeepsTheRest(text: string, spec: BlockSpec, s: nat, e: nat)
    returns (x: string, before: string, after: string, y: string)
    requires SoundSpec(spec) && BlockAt(text, spec, s, e)
    ensures text[..s] == x + before && IsBlankLine(text[..s], before)
    ensures text[e..] == after + y && IsLineEnd(text[e..], after)
    ensures Retire(text, spec) == Remaining(x + y)
  {
    FoundAt(text, spec, s, e);
    x, before, after, y := RemovalParts(text, s, e);
  }

  lemma RemovalParts(text: string, s: nat, e: nat) returns (x: string, before: string, after: string, y: string)
    requires s <= e <= |text|
    ensures text[..s] == x + before && IsBlankLine(text[..s], before)
    ensures text[e..] == after + y && IsLineEnd(text[e..], after)
    ensures RemoveBlock(text, s, e) == x + y
  {
    var pre, post := text[..s], text[e..];
    var n, m := SeparatorBefore(pre), SeparatorAfter(post);
    x, before, after, y := pre[..s - n], pre[s - n..], post[..m], post[m..];
    SeparatorBeforeIs(pre);
    SeparatorAfterIs(post);
    CutAround(text, s, e, n, m);
  }

  lemma CutAround(text: string, s: nat, e: nat, n: nat, m: nat)
    requires n <= s <= e <= |text| && e + m <= |text|
    ensures text[..s][..s - n] == text[..s - n] && text[..s] == text[..s][..s - n] + text[..s][s - n..]
    ensures text[e..][m..] == text[e + m..] && text[e..] == text[e..][..m] + text[e..][m..]
  {
  }

  lemma SeparatorBeforeIs(pre: string)
    ensures IsBlankLine(pre, pre[|pre| - SeparatorBefore(pre)..])
  {
    var n := |pre|;
    if n >= 4 {
      var tail := pre[n - 4..];
      assert tail[0] == pre[n - 4] && tail[1] == pre[n - 3] && tail[2] == pre[n - 2] && tail[3] == pre[n - 1];
      assert tail == "\r\n\r\n" <==> tail[0] == '\r' && tail[1] == '\n' && tail[2] == '\r' && tail[3] == '\n';
    }
    if n >= 2 {
      var tail := pre[n - 2..];
      assert tail[0] == pre[n - 2] && tail[1] == pre[n - 1];
      assert tail == "\n\n" <==> tail[0] == '\n' && tail[1] == '\n';
    }
  }

  lemma SeparatorAfterIs(post: string)
    ensures IsLineEnd(post, post[..SeparatorAfter(post)])
  {
    if |post| >= 2 {
      assert post[..2] == "\r\n" <==> post[0] == '\r' && post[1] == '\n';
    }
    if |post| >= 1 {
      assert post[..1] == "\n" <==> post[0] == '\n';
    }
  }

  /** There is nothing to retire exactly without a marker, and it is refused exactly when there are
      markers that do not make one block. */
  lemma RetireCases(text: string, spec: BlockSpec)
    requires SoundSpec(spec)
    ensures Retire(text, spec).NothingToRetire? <==> Clean(text, spec)
    ensures Retire(text, spec).Remaining? <==> exists s: nat, e: nat :: BlockAt(text, spec, s, e)
  {
    AbsentMeaning(text, spec);
    if Retire(text, spec).Remaining? {
      var At(s, e) := BlockByteBounds(text, spec);
      AtMeaning(text, spec, s, e);
    }
    if s: nat, e: nat :| BlockAt(text, spec, s, e) { FoundAt(text, spec, s, e); }
  }

  /** What retiring leaves does not depend on the block that was in place. */
  lemma RetireForgetsReplacement(existing: string, block: string, spec: BlockSpec)
    requires SoundSpec(spec) && WellFormed(block, spec) && BlockBounds(existing, spec).At?
    ensures Merge(existing, block, spec).Some?
    ensures Retire(Merge(existing, block, spec).value, spec) == Retire(existing, spec)
    ensures Retire(existing, spec).Remaining?
  {
    var pre, post := MergeShape(existing, block, spec);
    var At(s, e) := BlockBounds(existing, spec);
    ExtractedIsWellFormed(existing, spec);
    assert existing == pre + existing[s..e] + post;
    RetireIgnoresBlock(pre, block, existing[s..e], post, spec);
  }

  lemma RetireIgnoresBlock(pre: string, block: string, block': string, post: string, spec: BlockSpec)
    requires SoundSpec(spec) && WellFormed(block, spec) && WellFormed(block', spec) && Clean(pre, spec)
             && Clean(post, spec)
    ensures Retire(pre + block + post, spec) == Retire(pre + block' + post, spec)
    ensures Retire(pre + block + post, spec).Remaining?
  {
    RetireSpliced(pre, block, post, spec);
    RetireSpliced(pre, block', post, spec);
  }
}
