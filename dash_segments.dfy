/**
 * Segment information of a DASH media presentation description: each
 * Period, AdaptationSet and Representation may carry a SegmentBase, a
 * SegmentList and SegmentTemplates, and a level that carries none of one
 * kind inherits it from the nearest level above it (section 5.3.9 of
 * ISO/IEC 23009-1). The media segments are then listed from what is
 * inherited, and an index of split points cuts list segments into
 * sub-segments.
 *
 * SegmentInformation objects are linked by their `parent` pointer; a ghost
 * footprint `Repr` (this node and all its ancestors) keeps the chain acyclic
 * and bounds the recursion up the chain.
 */
module DashSegments {

  import opened Wrappers

  /** SegmentInfoType: which of the per-level SegmentTemplate slots. */
  datatype InfoType = InfoInit | InfoMedia | InfoIndex

  /**
   * An ISegment as getSegments hands it out: either a segment known only by
   * its identity (an initialisation segment or a template) or a sub-segment
   * covering the byte range [start, end] of its parent segment.
   */
  datatype ISegment = SegmentHandle(id: nat) | SubSegment(start: nat, end: nat)

  /** A SegmentBase; only its initialisation segment is used here. */
  datatype SegmentBase = SegmentBase(initSegment: Option<ISegment>)

  /** A SegmentTemplate, which is itself an ISegment. */
  datatype SegmentTemplate = SegmentTemplate(id: nat)
  {
    function AsSegment(): ISegment { SegmentHandle(id) }
  }

  /** A SegmentList: an optional initialisation segment and the list of segments. */
  datatype SegmentList = SegmentList(initialisation: Option<ISegment>, segments: seq<Segment>)

  /**
   * A media Segment of a SegmentList. Its class id, byte offset and the byte
   * positions it contains are fixed when it is built; SplitUsingIndex adds
   * sub-segments to it and sets its start time.
   */
  class Segment {
    /** The segment's identity when it is handed out as an ISegment itself. */
    const id: nat
    /** getClassId() == CLASSID_SEGMENT */
    const isPlainSegment: bool
    /** getOffset() */
    const offset: nat
    /** contains(): which absolute byte positions fall inside the segment */
    const covers: nat -> bool
    /** the sub-segments added so far, in order */
    var subSegments: seq<ISegment>
    var startTime: int

    constructor (id: nat, isPlainSegment: bool, offset: nat, covers: nat -> bool)
      ensures this.id == id
      ensures this.isPlainSegment == isPlainSegment && this.offset == offset && this.covers == covers
      ensures subSegments == [] && startTime == 0
    {
      this.id := id;
      this.isPlainSegment := isPlainSegment;
      this.offset := offset;
      this.covers := covers;
      subSegments := [];
      startTime := 0;
    }

    /**
     * subSegments(): the sub-segments added so far, or the segment itself
     * when it has not been split.
     */
    function SubSegmentList(): (r: seq<ISegment>)
      reads this
      ensures |r| > 0
    {
      if subSegments == [] then [SegmentHandle(id)] else subSegments
    }

    method AddSubSegment(s: ISegment)
      modifies this
      ensures subSegments == old(subSegments) + [s] && startTime == old(startTime)
    {
      subSegments := subSegments + [s];
    }

    method SetStartTime(t: int)
      modifies this
      ensures startTime == t && subSegments == old(subSegments)
    {
      startTime := t;
    }
  }

  /*
   * insertIntoSegment
   */

  /** The test insertIntoSegment applies to each segment for a range ending at `end`. */
  predicate Hosts(s: Segment, end: nat)
  {
    s.isPlainSegment && s.covers(end + s.offset)
  }

  /** The index of the first segment that hosts a range ending at `end`. */
  function FirstHost(segs: seq<Segment>, end: nat): (r: Option<nat>)
    ensures r.Some? ==> r.value < |segs| && Hosts(segs[r.value], end)
    ensures r.Some? ==> forall k :: 0 <= k < r.value ==> !Hosts(segs[k], end)
    ensures r.None? <==> forall k :: 0 <= k < |segs| ==> !Hosts(segs[k], end)
  {
    if |segs| == 0 then None
    else if Hosts(segs[0], end) then Some(0)
    else match FirstHost(segs[1..], end)
      case None => None
      case Some(k) => Some(k + 1)
  }

  /** `s` is the segment that insertIntoSegment picks for a range ending at `end`. */
  predicate IsHost(segs: seq<Segment>, end: nat, s: Segment)
  {
    FirstHost(segs, end).Some? && segs[FirstHost(segs, end).value] == s
  }

  /** What insertIntoSegment adds to the sub-segments of `s`: one sub-segment if `s` is the host, else nothing. */
  function Gained(segs: seq<Segment>, start: nat, end: nat, s: Segment): (r: seq<ISegment>)
    ensures IsHost(segs, end, s) <==> |r| == 1
    ensures IsHost(segs, end, s) ==> r[0] == SubSegment(start + s.offset, end + s.offset)
  {
    if IsHost(segs, end, s) then [SubSegment(start + s.offset, end + s.offset)] else []
  }

  /**
   * insertIntoSegment: the first plain segment that contains `end` (taken
   * relative to its own offset) receives the sub-segment
   * [start + offset, end + offset] and the start time `time`; every other
   * segment is left as it was, and all of them are when none hosts the range.
   */
  method InsertIntoSegment(seglist: seq<Segment>, start: nat, end: nat, time: int)
    modifies seglist
    ensures forall s :: s in seglist ==>
      && s.subSegments == old(s.subSegments) + Gained(seglist, start, end, s)
      && s.startTime == (if IsHost(seglist, end, s) then time else old(s.startTime))
  {
    var k := 0;
    while k < |seglist|
      invariant k <= |seglist|
      invariant forall m :: 0 <= m < k ==> !Hosts(seglist[m], end)
    {
      var segment := seglist[k];
      if segment.isPlainSegment && segment.covers(end + segment.offset) {
        segment.AddSubSegment(SubSegment(start + segment.offset, end + segment.offset));
        segment.SetStartTime(time);
        assert FirstHost(seglist, end) == Some(k);
        return;
      }
      k := k + 1;
    }
  }

  /*
   * SplitUsingIndex
   */

  /** A split point of a segment index: a byte offset and the media time there. */
  datatype SplitPoint = SplitPoint(offset: nat, time: int)

  /** The arguments of one insertIntoSegment call. */
  datatype Insertion = Insertion(start: nat, end: nat, time: int)

  /** The first split point is at offset 0; SplitUsingIndex skips it. */
  predicate SkipsFirst(splits: seq<SplitPoint>)
  {
    |splits| > 0 && splits[0].offset == 0
  }

  /** The value of `end` once the first `i` split points have been handled. */
  function EndAfter(splits: seq<SplitPoint>, i: nat): nat
    requires i <= |splits|
  {
    if i == 0 || (i == 1 && SkipsFirst(splits)) then 0 else splits[i - 1].offset + 1
  }

  /** The value of `time` once the first `i` split points have been handled. */
  function TimeAfter(splits: seq<SplitPoint>, i: nat): int
    requires i <= |splits|
  {
    if i == 0 || (i == 1 && SkipsFirst(splits)) then 0 else splits[i - 1].time
  }

  /** The insertion made for split point `i`, if it is not skipped. */
  function StepInsertion(splits: seq<SplitPoint>, i: nat): Option<Insertion>
    requires i < |splits|
  {
    if i == 0 && SkipsFirst(splits) then None
    else Some(Insertion(EndAfter(splits, i), splits[i].offset, splits[i].time))
  }

  /** The insertions made by the loop over the first `i` split points. */
  function LoopInsertions(splits: seq<SplitPoint>, i: nat): seq<Insertion>
    requires i <= |splits|
  {
    if i == 0 then [] else LoopInsertions(splits, i - 1) + OptionToSeq(StepInsertion(splits, i - 1))
  }

  /** The value of `start` after the loop: the start of the last range. */
  function LastStart(splits: seq<SplitPoint>): nat
  {
    if |splits| == 0 then 0 else EndAfter(splits, |splits| - 1)
  }

  /** The closing insertion from the end of the last range, made when that range did not start at 0. */
  function TrailingInsertion(splits: seq<SplitPoint>): Option<Insertion>
  {
    if LastStart(splits) != 0
    then Some(Insertion(EndAfter(splits, |splits|), 0, TimeAfter(splits, |splits|)))
    else None
  }

  /** Every insertIntoSegment call SplitUsingIndex makes, in order. */
  function Insertions(splits: seq<SplitPoint>): seq<Insertion>
  {
    LoopInsertions(splits, |splits|) + OptionToSeq(TrailingInsertion(splits))
  }

  /** The sub-segments that the insertions `ins` add to segment `s` of `segs`, in order. */
  function AddedTo(segs: seq<Segment>, ins: seq<Insertion>, s: Segment): seq<ISegment>
  {
    if ins == [] then []
    else
      var c := ins[|ins| - 1];
      AddedTo(segs, ins[..|ins| - 1], s) + Gained(segs, c.start, c.end, s)
  }

  /** The start time of `s` after the insertions `ins`, starting from `t0`: that of the last insertion it hosted. */
  function TimeAfterInsertions(segs: seq<Segment>, ins: seq<Insertion>, s: Segment, t0: int): int
  {
    if ins == [] then t0
    else
      var c := ins[|ins| - 1];
      if IsHost(segs, c.end, s) then c.time else TimeAfterInsertions(segs, ins[..|ins| - 1], s, t0)
  }

  /** The effect of one more insertion on the bookkeeping. */
  lemma AddedToSnoc(segs: seq<Segment>, ins: seq<Insertion>, c: Insertion, s: Segment, t0: int)
    ensures AddedTo(segs, ins + [c], s) == AddedTo(segs, ins, s) + Gained(segs, c.start, c.end, s)
    ensures TimeAfterInsertions(segs, ins + [c], s, t0) ==
      if IsHost(segs, c.end, s) then c.time else TimeAfterInsertions(segs, ins, s, t0)
  {
    assert (ins + [c])[..|ins + [c]| - 1] == ins;
  }

  /** The ranges are contiguous: each one starts at 0 or one past the end of the previous one. */
  ghost predicate Contiguous(ins: seq<Insertion>)
  {
    (|ins| > 0 ==> ins[0].start == 0) &&
    forall m :: 0 < m < |ins| ==> ins[m].start == ins[m - 1].end + 1
  }

  /**
   * The loop makes one insertion per split point, skipping a first one at
   * offset 0; insertion `m` ends at the offset of its split point and
   * carries its time, and the ranges are contiguous.
   */
  lemma {:induction false} LoopInsertionsShape(splits: seq<SplitPoint>, i: nat)
    requires i <= |splits|
    ensures var ins := LoopInsertions(splits, i);
      && Contiguous(ins)
      && |ins| == (if i > 0 && SkipsFirst(splits) then i - 1 else i)
      && (|ins| > 0 ==> EndAfter(splits, i) == ins[|ins| - 1].end + 1)
      && (|ins| == 0 ==> EndAfter(splits, i) == 0)
      && forall m :: 0 <= m < |ins| ==>
           var d := if SkipsFirst(splits) then 1 else 0;
           ins[m].end == splits[m + d].offset && ins[m].time == splits[m + d].time
  {
    if i > 0 {
      LoopInsertionsShape(splits, i - 1);
    }
  }

  /**
   * The ranges SplitUsingIndex inserts are contiguous from offset 0: the
   * first starts at 0 (also when a first split point at 0 is skipped), and
   * each later one, the closing one included, starts one past the end of
   * the one before.
   */
  lemma InsertionsContiguous(splits: seq<SplitPoint>)
    ensures Contiguous(Insertions(splits))
  {
    var n := |splits|;
    LoopInsertionsShape(splits, n);
    var loop := LoopInsertions(splits, n);
    if TrailingInsertion(splits).Some? {
      TrailingInsertionShape(splits);
      assert |loop| > 0;
      var all := Insertions(splits);
      assert all == loop + [TrailingInsertion(splits).value];
      forall m | 0 < m < |all| ensures all[m].start == all[m - 1].end + 1 {
        if m < |loop| {
          assert all[m] == loop[m] && all[m - 1] == loop[m - 1];
        }
      }
    } else {
      assert Insertions(splits) == loop;
    }
  }

  /**
   * The closing insertion happens exactly when the last range did not start
   * at 0; it runs from one past the end of the last range, with end 0 and the
   * time of the last split point used.
   */
  lemma TrailingInsertionShape(splits: seq<SplitPoint>)
    ensures TrailingInsertion(splits).Some? <==> LastStart(splits) != 0
    ensures TrailingInsertion(splits).Some? ==>
      |splits| >= 2 &&
      TrailingInsertion(splits).value == Insertion(splits[|splits| - 1].offset + 1, 0, splits[|splits| - 1].time)
  {
  }

  /** A first split point at offset 0 produces no insertion, and the range after it still starts at 0. */
  lemma SkippedFirstSplit(splits: seq<SplitPoint>)
    requires |splits| >= 2 && splits[0].offset == 0
    ensures Insertions(splits)[0] == Insertion(0, splits[1].offset, splits[1].time)
    ensures |LoopInsertions(splits, |splits|)| == |splits| - 1
  {
    LoopInsertionsShape(splits, |splits|);
    LoopInsertionsPrefix(splits, 2, |splits|);
    assert LoopInsertions(splits, 1) == [];
    assert StepInsertion(splits, 1) == Some(Insertion(0, splits[1].offset, splits[1].time));
    assert LoopInsertions(splits, 2) == [Insertion(0, splits[1].offset, splits[1].time)];
  }

  lemma {:induction false} LoopInsertionsPrefix(splits: seq<SplitPoint>, i: nat, j: nat)
    requires i <= j <= |splits|
    ensures LoopInsertions(splits, i) <= LoopInsertions(splits, j)
  {
    if i < j {
      LoopInsertionsPrefix(splits, i, j - 1);
    }
  }

  /*
   * SegmentInformation
   */

  /** The first filled slot of a sequence of slots, or None when all are empty. */
  function FirstSome<T>(s: seq<Option<T>>): Option<T>
  {
    if |s| == 0 then None
    else if s[0].Some? then s[0]
    else FirstSome(s[1..])
  }

  /** FirstSome is the slot whose predecessors are all empty, and None exactly when every slot is empty. */
  lemma {:induction false} FirstSomeIsNearest<T>(s: seq<Option<T>>)
    ensures FirstSome(s).None? <==> forall k :: 0 <= k < |s| ==> s[k].None?
    ensures FirstSome(s).Some? ==>
      exists k :: 0 <= k < |s| && s[k] == FirstSome(s) && forall j :: 0 <= j < k ==> s[j].None?
  {
    if |s| > 0 && s[0].None? {
      var t := s[1..];
      FirstSomeIsNearest(t);
      assert forall k :: 0 < k < |s| ==> s[k] == t[k - 1];
      if FirstSome(s).Some? {
        var k :| 0 <= k < |t| && t[k] == FirstSome(s) && forall j :: 0 <= j < k ==> t[j].None?;
        assert s[k + 1] == t[k];
      }
    }
  }

  class SegmentInformation {
    /** The level above this one, for inheritance; null at the top. */
    var parent: SegmentInformation?
    /** The ICanonicalUrl parent passed to the base-class constructor; used only for URLs. */
    const urlParent: object?
    var segmentBase: Option<SegmentBase>
    var segmentList: Option<SegmentList>
    var initTemplate: Option<SegmentTemplate>
    var mediaTemplate: Option<SegmentTemplate>
    var indexTemplate: Option<SegmentTemplate>
    /** This node and every node up its parent chain. */
    ghost var Repr: set<object>

    ghost predicate Valid()
      reads this, Repr
      decreases Repr
    {
      this in Repr &&
      (parent != null ==>
        parent in Repr && parent.Repr <= Repr && this !in parent.Repr && parent.Valid())
    }

    /** SegmentInformation(SegmentInformation *parent_): the url parent and the inheritance parent are `parent_`. */
    constructor (parent_: SegmentInformation?)
      requires parent_ != null ==> parent_.Valid()
      ensures Valid() && fresh(Repr - (if parent_ == null then {} else parent_.Repr))
      ensures parent == parent_ && urlParent == parent_
      ensures segmentBase.None? && segmentList.None?
      ensures initTemplate.None? && mediaTemplate.None? && indexTemplate.None?
    {
      parent := parent_;
      urlParent := parent_;
      segmentBase := None;
      segmentList := None;
      initTemplate, mediaTemplate, indexTemplate := None, None, None;
      Repr := {this} + (if parent_ == null then {} else parent_.Repr);
    }

    /**
     * SegmentInformation(ICanonicalUrl *parent_): the object is a URL child
     * of `parent_` but inherits from nobody.
     */
    constructor FromCanonicalUrl(parent_: object?)
      ensures Valid() && fresh(Repr)
      ensures parent == null && urlParent == parent_
      ensures segmentBase.None? && segmentList.None?
      ensures initTemplate.None? && mediaTemplate.None? && indexTemplate.None?
    {
      parent := null;
      urlParent := parent_;
      segmentBase := None;
      segmentList := None;
      initTemplate, mediaTemplate, indexTemplate := None, None, None;
      Repr := {this};
    }

    /** The template slot `t` of this node (segmentTemplate[t]). */
    function Template(t: InfoType): Option<SegmentTemplate>
      reads this
    {
      match t
      case InfoInit => initTemplate
      case InfoMedia => mediaTemplate
      case InfoIndex => indexTemplate
    }

    method SetSegmentList(list: Option<SegmentList>)
      requires Valid()
      modifies this
      ensures Valid() && Repr == old(Repr) && parent == old(parent)
      ensures segmentList == list && segmentBase == old(segmentBase)
      ensures forall t :: Template(t) == old(Template(t))
    {
      segmentList := list;
    }

    method SetSegmentBase(base: Option<SegmentBase>)
      requires Valid()
      modifies this
      ensures Valid() && Repr == old(Repr) && parent == old(parent)
      ensures segmentBase == base && segmentList == old(segmentList)
      ensures forall t :: Template(t) == old(Template(t))
    {
      segmentBase := base;
    }

    method SetSegmentTemplate(templ: Option<SegmentTemplate>, t: InfoType)
      requires Valid()
      modifies this
      ensures Valid() && Repr == old(Repr) && parent == old(parent)
      ensures segmentBase == old(segmentBase) && segmentList == old(segmentList)
      ensures Template(t) == templ
      ensures forall u :: u != t ==> Template(u) == old(Template(u))
    {
      match t
      case InfoInit => initTemplate := templ;
      case InfoMedia => mediaTemplate := templ;
      case InfoIndex => indexTemplate := templ;
    }

    /** This node followed by its ancestors, nearest first. */
    ghost function Chain(): (c: seq<SegmentInformation>)
      reads this, Repr
      requires Valid()
      decreases Repr
      ensures |c| > 0 && c[0] == this
    {
      [this] + (if parent == null then [] else parent.Chain())
    }

    function InheritSegmentBase(): Option<SegmentBase>
      reads this, Repr
      requires Valid()
      decreases Repr
    {
      if segmentBase.Some? then segmentBase
      else if parent != null then parent.InheritSegmentBase()
      else None
    }

    function InheritSegmentList(): Option<SegmentList>
      reads this, Repr
      requires Valid()
      decreases Repr
    {
      if segmentList.Some? then segmentList
      else if parent != null then parent.InheritSegmentList()
      else None
    }

    function InheritSegmentTemplate(t: InfoType): Option<SegmentTemplate>
      reads this, Repr
      requires Valid()
      decreases Repr
    {
      if Template(t).Some? then Template(t)
      else if parent != null then parent.InheritSegmentTemplate(t)
      else None
    }

    /** The SegmentBase slots up the parent chain, nearest first. */
    ghost function BaseSlots(): (s: seq<Option<SegmentBase>>)
      reads this, Repr
      requires Valid()
      decreases Repr
    {
      [segmentBase] + (if parent == null then [] else parent.BaseSlots())
    }

    /** The slots of BaseSlots are those of the nodes of Chain, in the same order. */
    lemma {:induction false} BaseSlotsFollowChain()
      requires Valid()
      decreases Repr
      ensures |BaseSlots()| == |Chain()|
      ensures forall k :: 0 <= k < |Chain()| ==> BaseSlots()[k] == Chain()[k].segmentBase
    {
      var c, s := Chain(), BaseSlots();
      assert c[0] == this && s[0] == segmentBase;
      if parent == null {
        assert c == [this] && s == [segmentBase];
      } else {
        parent.BaseSlotsFollowChain();
        var pc, ps := parent.Chain(), parent.BaseSlots();
        assert c == [this] + pc && s == [segmentBase] + ps;
        forall k | 0 < k < |c| ensures s[k] == c[k].segmentBase {
          assert s[k] == ps[k - 1] && c[k] == pc[k - 1];
        }
      }
    }

    /** InheritSegmentBase returns the first filled slot of BaseSlots. */
    lemma {:induction false} InheritSegmentBaseIsFirst()
      requires Valid()
      decreases Repr
      ensures InheritSegmentBase() == FirstSome(BaseSlots())
    {
      var s := BaseSlots();
      assert s[0] == segmentBase;
      if segmentBase.None? {
        if parent == null {
          assert s[1..] == [];
        } else {
          parent.InheritSegmentBaseIsFirst();
          assert s[1..] == parent.BaseSlots();
        }
      }
    }

    /**
     * inheritSegmentBase gives the SegmentBase of the nearest node on the
     * parent chain that has one, and nothing exactly when no node does.
     */
    lemma InheritSegmentBaseIsNearest()
      requires Valid()
      ensures var c, r := Chain(), InheritSegmentBase();
        && (r.None? <==> forall k :: 0 <= k < |c| ==> c[k].segmentBase.None?)
        && (r.Some? ==> exists k :: 0 <= k < |c| && c[k].segmentBase == r &&
                                   forall j :: 0 <= j < k ==> c[j].segmentBase.None?)
    {
      var c, s, r := Chain(), BaseSlots(), InheritSegmentBase();
      BaseSlotsFollowChain();
      InheritSegmentBaseIsFirst();
      FirstSomeIsNearest(s);
      if r.None? {
        forall k | 0 <= k < |c| ensures c[k].segmentBase.None? {
          assert s[k] == c[k].segmentBase;
        }
      } else {
        var k :| 0 <= k < |s| && s[k] == r && forall j :: 0 <= j < k ==> s[j].None?;
        assert c[k].segmentBase == r;
        forall j | 0 <= j < k ensures c[j].segmentBase.None? {
          assert s[j] == c[j].segmentBase;
        }
      }
    }

    /** The SegmentList slots up the parent chain, nearest first. */
    ghost function ListSlots(): (s: seq<Option<SegmentList>>)
      reads this, Repr
      requires Valid()
      decreases Repr
    {
      [segmentList] + (if parent == null then [] else parent.ListSlots())
    }

    /** The slots of ListSlots are those of the nodes of Chain, in the same order. */
    lemma {:induction false} ListSlotsFollowChain()
      requires Valid()
      decreases Repr
      ensures |ListSlots()| == |Chain()|
      ensures forall k :: 0 <= k < |Chain()| ==> ListSlots()[k] == Chain()[k].segmentList
    {
      var c, s := Chain(), ListSlots();
      assert c[0] == this && s[0] == segmentList;
      if parent == null {
        assert c == [this] && s == [segmentList];
      } else {
        parent.ListSlotsFollowChain();
        var pc, ps := parent.Chain(), parent.ListSlots();
        assert c == [this] + pc && s == [segmentList] + ps;
        forall k | 0 < k < |c| ensures s[k] == c[k].segmentList {
          assert s[k] == ps[k - 1] && c[k] == pc[k - 1];
        }
      }
    }

    /** InheritSegmentList returns the first filled slot of ListSlots. */
    lemma {:induction false} InheritSegmentListIsFirst()
      requires Valid()
      decreases Repr
      ensures InheritSegmentList() == FirstSome(ListSlots())
    {
      var s := ListSlots();
      assert s[0] == segmentList;
      if segmentList.None? {
        if parent == null {
          assert s[1..] == [];
        } else {
          parent.InheritSegmentListIsFirst();
          assert s[1..] == parent.ListSlots();
        }
      }
    }

    /**
     * inheritSegmentList gives the SegmentList of the nearest node on the
     * parent chain that has one, and nothing exactly when no node does.
     */
    lemma InheritSegmentListIsNearest()
      requires Valid()
      ensures var c, r := Chain(), InheritSegmentList();
        && (r.None? <==> forall k :: 0 <= k < |c| ==> c[k].segmentList.None?)
        && (r.Some? ==> exists k :: 0 <= k < |c| && c[k].segmentList == r &&
                                   forall j :: 0 <= j < k ==> c[j].segmentList.None?)
    {
      var c, s, r := Chain(), ListSlots(), InheritSegmentList();
      ListSlotsFollowChain();
      InheritSegmentListIsFirst();
      FirstSomeIsNearest(s);
      if r.None? {
        forall k | 0 <= k < |c| ensures c[k].segmentList.None? {
          assert s[k] == c[k].segmentList;
        }
      } else {
        var k :| 0 <= k < |s| && s[k] == r && forall j :: 0 <= j < k ==> s[j].None?;
        assert c[k].segmentList == r;
        forall j | 0 <= j < k ensures c[j].segmentList.None? {
          assert s[j] == c[j].segmentList;
        }
      }
    }

    /** The template slots `t` up the parent chain, nearest first. */
    ghost function TemplateSlots(t: InfoType): (s: seq<Option<SegmentTemplate>>)
      reads this, Repr
      requires Valid()
      decreases Repr
    {
      [Template(t)] + (if parent == null then [] else parent.TemplateSlots(t))
    }

    /** The slots of TemplateSlots are those of the nodes of Chain, in the same order. */
    lemma {:induction false} TemplateSlotsFollowChain(t: InfoType)
      requires Valid()
      decreases Repr
      ensures |TemplateSlots(t)| == |Chain()|
      ensures forall k :: 0 <= k < |Chain()| ==> TemplateSlots(t)[k] == Chain()[k].Template(t)
    {
      var c, s := Chain(), TemplateSlots(t);
      assert c[0] == this && s[0] == Template(t);
      if parent == null {
        assert c == [this] && s == [Template(t)];
      } else {
        parent.TemplateSlotsFollowChain(t);
        var pc, ps := parent.Chain(), parent.TemplateSlots(t);
        assert c == [this] + pc && s == [Template(t)] + ps;
        forall k | 0 < k < |c| ensures s[k] == c[k].Template(t) {
          assert s[k] == ps[k - 1] && c[k] == pc[k - 1];
        }
      }
    }

    /** InheritSegmentTemplate returns the first filled slot of TemplateSlots. */
    lemma {:induction false} InheritSegmentTemplateIsFirst(t: InfoType)
      requires Valid()
      decreases Repr
      ensures InheritSegmentTemplate(t) == FirstSome(TemplateSlots(t))
    {
      var s := TemplateSlots(t);
      assert s[0] == Template(t);
      if Template(t).None? {
        if parent == null {
          assert s[1..] == [];
        } else {
          parent.InheritSegmentTemplateIsFirst(t);
          assert s[1..] == parent.TemplateSlots(t);
        }
      }
    }

    /**
     * inheritSegmentTemplate(t) gives slot `t` of the nearest node on the
     * parent chain that has it filled, and nothing exactly when none does.
     */
    lemma InheritSegmentTemplateIsNearest(t: InfoType)
      requires Valid()
      ensures var c, r := Chain(), InheritSegmentTemplate(t);
        && (r.None? <==> forall k :: 0 <= k < |c| ==> c[k].Template(t).None?)
        && (r.Some? ==> exists k :: 0 <= k < |c| && c[k].Template(t) == r &&
                                   forall j :: 0 <= j < k ==> c[j].Template(t).None?)
    {
      var c, s, r := Chain(), TemplateSlots(t), InheritSegmentTemplate(t);
      TemplateSlotsFollowChain(t);
      InheritSegmentTemplateIsFirst(t);
      FirstSomeIsNearest(s);
      if r.None? {
        forall k | 0 <= k < |c| ensures c[k].Template(t).None? {
          assert s[k] == c[k].Template(t);
        }
      } else {
        var k :| 0 <= k < |s| && s[k] == r && forall j :: 0 <= j < k ==> s[j].None?;
        assert c[k].Template(t) == r;
        forall j | 0 <= j < k ensures c[j].Template(t).None? {
          assert s[j] == c[j].Template(t);
        }
      }
    }

    /**
     * The initialisation part of getSegments: at most one segment, taken
     * from the inherited SegmentBase, else the inherited SegmentList, else
     * the inherited init template.
     */
    function InitSegments(): (r: seq<ISegment>)
      reads this, Repr
      requires Valid()
      ensures |r| <= 1
    {
      FirstInitSegment(InheritSegmentBase(), InheritSegmentList(), InheritSegmentTemplate(InfoInit))
    }

    /**
     * getSegments: the initialisation segment, if any, followed by the
     * inherited media template alone when there is one, or else by the
     * sub-segments of every segment of the inherited list, list order kept.
     */
    method GetSegments() returns (ret: seq<ISegment>)
      requires Valid()
      ensures InheritSegmentTemplate(InfoMedia).Some? ==>
        ret == InitSegments() + [InheritSegmentTemplate(InfoMedia).value.AsSegment()]
      ensures InheritSegmentTemplate(InfoMedia).None? && InheritSegmentList().Some? ==>
        ret == InitSegments() + AllSubSegments(InheritSegmentList().value.segments)
      ensures InheritSegmentTemplate(InfoMedia).None? && InheritSegmentList().None? ==>
        ret == InitSegments()
    {
      var segBase := InheritSegmentBase();
      var segList := InheritSegmentList();
      var initTemplate := InheritSegmentTemplate(InfoInit);
      var mediaTemplate := InheritSegmentTemplate(InfoMedia);
      ret := InitSegment(segBase, segList, initTemplate);
      var media := MediaSegments(mediaTemplate, segList);
      ret := ret + media;
    }

    /**
     * SplitUsingIndex: walks the split points and makes the insertions
     * given by Insertions, so that every segment of this node's own list
     * ends up with the sub-segments those insertions add to it, and with the
     * start time of the last insertion it took.
     */
    method SplitUsingIndex(splitlist: seq<SplitPoint>)
      requires segmentList.Some?
      modifies segmentList.value.segments
      ensures var segs := segmentList.value.segments;
        forall s :: s in segs ==>
          && s.subSegments == old(s.subSegments) + AddedTo(segs, Insertions(splitlist), s)
          && s.startTime == TimeAfterInsertions(segs, Insertions(splitlist), s, old(s.startTime))
    {
      SplitSegments(segmentList.value.segments, splitlist);
    }
  }

  /**
   * Every segment of `segs` holds its sub-segments and start time from
   * before (`subs0`, `times0`) as updated by the insertions `done`.
   */
  ghost predicate Recorded(segs: seq<Segment>, subs0: map<Segment, seq<ISegment>>, times0: map<Segment, int>,
                           done: seq<Insertion>)
    reads set s | s in segs
  {
    forall s :: s in segs ==>
      && s in subs0 && s in times0
      && s.subSegments == subs0[s] + AddedTo(segs, done, s)
      && s.startTime == TimeAfterInsertions(segs, done, s, times0[s])
  }

  /** An insertIntoSegment call, with the bookkeeping of SplitUsingIndex advanced by that one insertion. */
  method RecordedInsert(seglist: seq<Segment>, ghost subs0: map<Segment, seq<ISegment>>, ghost times0: map<Segment, int>,
                        ghost done: seq<Insertion>, start: nat, end: nat, time: int)
    requires Recorded(seglist, subs0, times0, done)
    modifies seglist
    ensures Recorded(seglist, subs0, times0, done + [Insertion(start, end, time)])
  {
    InsertIntoSegment(seglist, start, end, time);
    forall s | s in seglist
      ensures AddedTo(seglist, done + [Insertion(start, end, time)], s) ==
              AddedTo(seglist, done, s) + Gained(seglist, start, end, s)
      ensures TimeAfterInsertions(seglist, done + [Insertion(start, end, time)], s, times0[s]) ==
              if IsHost(seglist, end, s) then time else TimeAfterInsertions(seglist, done, s, times0[s])
    {
      AddedToSnoc(seglist, done, Insertion(start, end, time), s, times0[s]);
    }
  }

  /** Snapshots of the sub-segments and start times of `seglist`, from which the bookkeeping starts. */
  ghost method StartRecord(seglist: seq<Segment>) returns (subs0: map<Segment, seq<ISegment>>, times0: map<Segment, int>)
    ensures Recorded(seglist, subs0, times0, [])
    ensures forall s :: s in seglist ==> s in subs0 && s in times0 && subs0[s] == s.subSegments && times0[s] == s.startTime
  {
    subs0 := map s: Segment | s in seglist :: s.subSegments;
    times0 := map s: Segment | s in seglist :: s.startTime;
  }

  /** The body of SplitUsingIndex on the segments of a list. */
  method SplitSegments(seglist: seq<Segment>, splitlist: seq<SplitPoint>)
    modifies seglist
    ensures forall s :: s in seglist ==>
      && s.subSegments == old(s.subSegments) + AddedTo(seglist, Insertions(splitlist), s)
      && s.startTime == TimeAfterInsertions(seglist, Insertions(splitlist), s, old(s.startTime))
  {
    ghost var subs0, times0 := StartRecord(seglist);
    var start, end, time := SplitLoop(seglist, splitlist, subs0, times0);

    if start != 0 {
      start := end;
      end := 0;
      assert TrailingInsertion(splitlist) == Some(Insertion(start, end, time));
      RecordedInsert(seglist, subs0, times0, LoopInsertions(splitlist, |splitlist|), start, end, time);
      assert Insertions(splitlist) == LoopInsertions(splitlist, |splitlist|) + [Insertion(start, end, time)];
    } else {
      assert Insertions(splitlist) == LoopInsertions(splitlist, |splitlist|);
    }
  }

  /**
   * The loop of SplitUsingIndex over the split points: it makes the
   * insertions given by LoopInsertions and leaves `start`, `end` and `time`
   * as they are after the last split point.
   */
  method SplitLoop(seglist: seq<Segment>, splitlist: seq<SplitPoint>,
                   ghost subs0: map<Segment, seq<ISegment>>, ghost times0: map<Segment, int>)
      returns (start: nat, end: nat, time: int)
    requires Recorded(seglist, subs0, times0, [])
    modifies seglist
    ensures Recorded(seglist, subs0, times0, LoopInsertions(splitlist, |splitlist|))
    ensures start == LastStart(splitlist)
    ensures end == EndAfter(splitlist, |splitlist|) && time == TimeAfter(splitlist, |splitlist|)
  {
    start, end, time := 0, 0, 0;
    var i := 0;
    while i < |splitlist|
      invariant i <= |splitlist|
      invariant end == EndAfter(splitlist, i) && time == TimeAfter(splitlist, i)
      invariant i == 0 ==> start == 0
      invariant i > 0 ==> start == EndAfter(splitlist, i - 1)
      invariant Recorded(seglist, subs0, times0, LoopInsertions(splitlist, i))
    {
      start := end;
      var split := splitlist[i];
      end := split.offset;
      if i == 0 && split.offset == 0 {
        assert LoopInsertions(splitlist, 1) == [];
        i := i + 1;
        continue;
      }
      time := split.time;
      assert StepInsertion(splitlist, i) == Some(Insertion(start, end, time));
      RecordedInsert(seglist, subs0, times0, LoopInsertions(splitlist, i), start, end, time);
      assert LoopInsertions(splitlist, i + 1) == LoopInsertions(splitlist, i) + [Insertion(start, end, time)];
      end := end + 1;
      i := i + 1;
    }
    assert i == |splitlist|;
  }

  /**
   * The initialisation segment of getSegments: that of the segment base,
   * else that of the segment list, else the one the init template makes.
   */
  function FirstInitSegment(base: Option<SegmentBase>, list: Option<SegmentList>,
                            init: Option<SegmentTemplate>): (r: seq<ISegment>)
    ensures |r| <= 1
    ensures r == [] <==>
      (base.None? || base.value.initSegment.None?) && (list.None? || list.value.initialisation.None?) && init.None?
  {
    if base.Some? && base.value.initSegment.Some? then [base.value.initSegment.value]
    else if list.Some? && list.value.initialisation.Some? then [list.value.initialisation.value]
    else if init.Some? then [init.value.AsSegment()]
    else []
  }

  /** The first part of getSegments, which appends the initialisation segment found, if any. */
  method InitSegment(base: Option<SegmentBase>, list: Option<SegmentList>,
                     init: Option<SegmentTemplate>) returns (r: seq<ISegment>)
    ensures r == FirstInitSegment(base, list, init)
  {
    r := [];
    if base.Some? && base.value.initSegment.Some? {
      r := r + [base.value.initSegment.value];
    } else if list.Some? && list.value.initialisation.Some? {
      r := r + [list.value.initialisation.value];
    } else if init.Some? {
      r := r + [init.value.AsSegment()];
    }
  }

  /**
   * The media part of getSegments: the media template alone when there is
   * one, or else the sub-segments of every segment of the list, list order
   * kept, or else nothing.
   */
  method MediaSegments(mediaTemplate: Option<SegmentTemplate>, segList: Option<SegmentList>) returns (r: seq<ISegment>)
    ensures mediaTemplate.Some? ==> r == [mediaTemplate.value.AsSegment()]
    ensures mediaTemplate.None? && segList.Some? ==> r == AllSubSegments(segList.value.segments)
    ensures mediaTemplate.None? && segList.None? ==> r == []
  {
    r := [];
    if mediaTemplate.Some? {
      r := [mediaTemplate.value.AsSegment()];
    } else if segList.Some? && |segList.value.segments| != 0 {
      r := ConcatSubSegments(segList.value.segments);
    } else if segList.Some? {
      assert AllSubSegments(segList.value.segments) == [];
    }
  }

  /** The loop of getSegments that appends the sub-segments of each list segment in turn. */
  method ConcatSubSegments(segs: seq<Segment>) returns (ret: seq<ISegment>)
    ensures ret == AllSubSegments(segs)
  {
    ret := [];
    var k := 0;
    assert segs[..0] == [];
    while k < |segs|
      invariant k <= |segs|
      invariant ret == AllSubSegments(segs[..k])
    {
      AllSubSegmentsSnoc(segs[..k], segs[k]);
      assert segs[..k + 1] == segs[..k] + [segs[k]];
      ret := ret + segs[k].SubSegmentList();
      k := k + 1;
    }
    assert segs[..k] == segs;
  }

  /** The sub-segments of every segment of `segs`, concatenated in list order. */
  ghost function AllSubSegments(segs: seq<Segment>): seq<ISegment>
    reads set s | s in segs
  {
    if segs == [] then [] else AllSubSegments(segs[..|segs| - 1]) + segs[|segs| - 1].SubSegmentList()
  }

  lemma AllSubSegmentsSnoc(segs: seq<Segment>, s: Segment)
    ensures AllSubSegments(segs + [s]) == AllSubSegments(segs) + s.SubSegmentList()
  {
    assert (segs + [s])[..|segs + [s]| - 1] == segs;
  }

  /** A sub-segment is listed exactly when some segment of the list holds it. */
  lemma {:induction false} AllSubSegmentsMembers(segs: seq<Segment>, x: ISegment)
    ensures x in AllSubSegments(segs) <==> exists k :: 0 <= k < |segs| && x in segs[k].SubSegmentList()
  {
    if segs != [] {
      var init := segs[..|segs| - 1];
      AllSubSegmentsMembers(init, x);
      if x in AllSubSegments(init) {
        var k :| 0 <= k < |init| && x in init[k].SubSegmentList();
        assert segs[k] == init[k];
      }
      if exists k :: 0 <= k < |segs| && x in segs[k].SubSegmentList() {
        var k :| 0 <= k < |segs| && x in segs[k].SubSegmentList();
        if k < |segs| - 1 {
          assert init[k] == segs[k];
        }
      }
    }
  }
}
