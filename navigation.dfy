/**
 * What the chapter commands see of the Matroska demuxer: virtual segments,
 * each a forest of virtual chapters carrying a UID and the private data of
 * their DVD codec, the current segment and chapter, and the jumps the
 * commands ask for.
 *
 * Browsing the chapters for a codec datum (BrowseCodecPrivate) and for a
 * UID (FindVChapter) is specified by what it finds: a chapter that
 * satisfies the query, from the tree, segment or segment list searched,
 * and nothing only when no chapter there satisfies it.
 */
module Navigation {

  import opened Wrappers
  import opened DvdPrivate

  /** A virtual chapter: its UID, the private data of its DVD codec and its sub-chapters. */
  datatype Chapter = Chapter(uid: nat, blob: Blob, children: seq<Chapter>)

  /** A virtual segment and its top-level chapters. */
  datatype VSegment = VSegment(id: nat, chapters: seq<Chapter>)

  /** A JumpTo request: the segment and the chapter to play. */
  datatype Jump = Jump(segment: VSegment, chapter: Chapter)

  /** What a browse looks for: a DVD codec datum, or a chapter UID. */
  datatype Query = ByCodec(m: Matcher) | ByUid(uid: nat)

  predicate Selects(q: Query, c: Chapter)
  {
    match q
    case ByCodec(m) => Matches(m, c.blob)
    case ByUid(u) => c.uid == u
  }

  /** `n` is `root` or one of its sub-chapters at any depth. */
  ghost predicate InTree(n: Chapter, root: Chapter)
    decreases root
  {
    n == root || exists k :: 0 <= k < |root.children| && InTree(n, root.children[k])
  }

  /** `n` is a chapter of segment `seg`, at any depth. */
  ghost predicate InSegment(n: Chapter, seg: VSegment)
  {
    exists k :: 0 <= k < |seg.chapters| && InTree(n, seg.chapters[k])
  }

  /** virtual_chapter_c::BrowseCodecPrivate: a chapter of the tree under `root`, itself included, that `q` selects. */
  function FindInChapter(q: Query, root: Chapter): (r: Option<Chapter>)
    decreases root, 1
    ensures r.Some? ==> Selects(q, r.value) && InTree(r.value, root)
    ensures r.None? ==> forall n :: InTree(n, root) ==> !Selects(q, n)
  {
    if Selects(q, root) then Some(root) else FindInChildren(q, root, 0)
  }

  /** The search of FindInChapter through the sub-trees of `root` from the `i`-th on. */
  function FindInChildren(q: Query, root: Chapter, i: nat): (r: Option<Chapter>)
    requires i <= |root.children|
    decreases root, 0, |root.children| - i
    ensures r.Some? ==> Selects(q, r.value)
    ensures r.Some? ==> exists k :: i <= k < |root.children| && InTree(r.value, root.children[k])
    ensures r.None? ==>
      forall k, n :: i <= k < |root.children| && InTree(n, root.children[k]) ==> !Selects(q, n)
  {
    if i == |root.children| then None
    else match FindInChapter(q, root.children[i])
      case Some(c) => Some(c)
      case None => FindInChildren(q, root, i + 1)
  }

  /** virtual_segment_c::BrowseCodecPrivate: a chapter of `seg` that `q` selects. */
  function FindInSegment(q: Query, seg: VSegment): (r: Option<Chapter>)
    ensures r.Some? ==> Selects(q, r.value) && InSegment(r.value, seg)
    ensures r.None? ==> forall n :: InSegment(n, seg) ==> !Selects(q, n)
  {
    FindInSegmentFrom(q, seg, 0)
  }

  function FindInSegmentFrom(q: Query, seg: VSegment, i: nat): (r: Option<Chapter>)
    requires i <= |seg.chapters|
    decreases |seg.chapters| - i
    ensures r.Some? ==> Selects(q, r.value) && InSegment(r.value, seg)
    ensures r.None? ==>
      forall k, n :: i <= k < |seg.chapters| && InTree(n, seg.chapters[k]) ==> !Selects(q, n)
  {
    if i == |seg.chapters| then None
    else match FindInChapter(q, seg.chapters[i])
      case Some(c) => Some(c)
      case None => FindInSegmentFrom(q, seg, i + 1)
  }

  /**
   * The demuxer-level BrowseCodecPrivate and FindVChapter: a chapter that
   * `q` selects in one of the segments from the `i`-th on, with that segment.
   */
  function FindInSegments(q: Query, segs: seq<VSegment>, i: nat): (r: Option<Jump>)
    requires i <= |segs|
    decreases |segs| - i
    ensures r.Some? ==> Selects(q, r.value.chapter) && InSegment(r.value.chapter, r.value.segment)
    ensures r.Some? ==> exists k :: i <= k < |segs| && segs[k] == r.value.segment
    ensures r.None? ==>
      forall k, n :: i <= k < |segs| && InSegment(n, segs[k]) ==> !Selects(q, n)
  {
    if i == |segs| then None
    else match FindInSegment(q, segs[i])
      case Some(c) => Some(Jump(segs[i], c))
      case None => FindInSegments(q, segs, i + 1)
  }

  /** A chapter is in a segment exactly when it is in the tree of one of the segment's top-level chapters. */
  lemma InSegmentOfTop(seg: VSegment, k: nat)
    requires k < |seg.chapters|
    ensures InSegment(seg.chapters[k], seg)
  {
    assert InTree(seg.chapters[k], seg.chapters[k]);
  }

  /** A sub-chapter of a chapter in a tree is in that tree. */
  lemma {:induction false} InTreeTransitive(a: Chapter, b: Chapter, c: Chapter)
    requires InTree(a, b) && InTree(b, c)
    decreases c
    ensures InTree(a, c)
  {
    if b != c {
      var k :| 0 <= k < |c.children| && InTree(b, c.children[k]);
      InTreeTransitive(a, b, c.children[k]);
    }
  }

  /**
   * The demuxer's view for the chapter commands: its segments, the current
   * segment and chapter, and the jumps requested so far.
   */
  class Navigator {
    const segments: seq<VSegment>
    /** GetCurrentVSegment() */
    const currentSegment: VSegment
    /** GetCurrentVSegment()->CurrentChapter() */
    const currentChapter: Chapter
    /**
     * Whether entering `target` from `current` is taken care of by
     * virtual_chapter_c::EnterAndLeave, in which case no jump is needed.
     */
    const enterAndLeave: (Chapter, Chapter) -> bool
    /** The JumpTo requests, in order. */
    var jumps: seq<Jump>

    constructor (segments: seq<VSegment>, currentSegment: VSegment, currentChapter: Chapter,
                 enterAndLeave: (Chapter, Chapter) -> bool)
      ensures this.segments == segments && this.currentSegment == currentSegment
      ensures this.currentChapter == currentChapter && this.enterAndLeave == enterAndLeave
      ensures jumps == []
    {
      this.segments := segments;
      this.currentSegment := currentSegment;
      this.currentChapter := currentChapter;
      this.enterAndLeave := enterAndLeave;
      jumps := [];
    }

    /** BrowseCodecPrivate over every segment. */
    function Browse(q: Query): (r: Option<Jump>)
      ensures r.Some? ==> Selects(q, r.value.chapter) && InSegment(r.value.chapter, r.value.segment)
      ensures r.Some? ==> r.value.segment in segments
      ensures r.None? <==> forall s, n :: s in segments && InSegment(n, s) ==> !Selects(q, n)
    {
      FindInSegments(q, segments, 0)
    }

    /** JumpTo: playback is asked to move to `chapter` of `segment`. */
    method JumpTo(segment: VSegment, chapter: Chapter)
      modifies this
      ensures jumps == old(jumps) + [Jump(segment, chapter)]
    {
      jumps := jumps + [Jump(segment, chapter)];
    }
  }
}
