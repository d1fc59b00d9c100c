/**
 * The DVD command interpreter of the Matroska demuxer
 * (dvd_command_interpretor_c): a bank of 16-bit parameter registers and
 * the execution of one 8-byte command against it and the navigator.
 *
 * `Execute` says what one command does: its result, the jump it asks for
 * and the registers afterwards. `DvdInterpreter.Interpret` carries the
 * command out the way the interpreter does, field by field, and is proved
 * to do what `Execute` says.
 */
module DvdVm {

  import opened Wrappers
  import opened DvdPrivate
  import opened DvdCommand
  import opened Navigation

  /** The title number carried by a chapter's DVD data (chapter_item_c::GetTitleNumber); -1 without data. */
  function ChapterTitleNumber(c: Chapter): (r: int)
    ensures -0x8000 <= r < 0x8000
    ensures c.blob.None? ==> r == -1
  {
    if c.blob.Some? then GetTitleNumber(c.blob.value) else -1
  }

  /** The chapter under the chapter of `j`, itself included, that `q` selects, in the segment of `j`. */
  function Descend(q: Query, j: Jump): (r: Option<Jump>)
    ensures r.Some? ==> r.value.segment == j.segment && Selects(q, r.value.chapter)
    ensures r.Some? ==> InTree(r.value.chapter, j.chapter)
    ensures r.None? <==> forall n :: InTree(n, j.chapter) ==> !Selects(q, n)
  {
    match FindInChapter(q, j.chapter)
    case None => None
    case Some(c) => Some(Jump(j.segment, c))
  }

  /** The chapter of segment `s` that `q` selects, with `s`. */
  function Within(q: Query, s: VSegment): (r: Option<Jump>)
    ensures r.Some? ==> r.value.segment == s && Selects(q, r.value.chapter) && InSegment(r.value.chapter, s)
    ensures r.None? <==> forall n :: InSegment(n, s) ==> !Selects(q, n)
  {
    match FindInSegment(q, s)
    case None => None
    case Some(c) => Some(Jump(s, c))
  }

  /** JumpTT: the first cell under a chapter of title `title`, in that chapter's segment. */
  function TitleTarget(vm: Navigator, title: bv8): (r: Option<Jump>)
    ensures r.Some? ==> MatchCellNumber(r.value.chapter.blob, 1) && r.value.segment in vm.segments
    ensures r.Some? ==>
      exists t :: InSegment(t, r.value.segment) && MatchTitleNumber(t.blob, title) && InTree(r.value.chapter, t)
  {
    match vm.Browse(ByCodec(TitleNumber(title)))
    case None => None
    case Some(j) => Descend(ByCodec(CellNumber(1)), j)
  }

  /** CallSS form 0: the first cell under a PGC of type `pgcType`, in that PGC's segment. */
  function PgcTypeTarget(vm: Navigator, pgcType: bv8): (r: Option<Jump>)
    ensures r.Some? ==> MatchCellNumber(r.value.chapter.blob, 1) && r.value.segment in vm.segments
    ensures r.Some? ==>
      exists p :: InSegment(p, r.value.segment) && MatchPgcType(p.blob, pgcType) && InTree(r.value.chapter, p)
  {
    match vm.Browse(ByCodec(PgcType(pgcType)))
    case None => None
    case Some(j) => Descend(ByCodec(CellNumber(1)), j)
  }

  /** JumpSS form 1: a PGC of type `pgcType` in the segment of the video manager. */
  function VmgmTarget(vm: Navigator, pgcType: bv8): (r: Option<Jump>)
    ensures r.Some? ==> MatchPgcType(r.value.chapter.blob, pgcType) && r.value.segment in vm.segments
    ensures r.Some? ==> InSegment(r.value.chapter, r.value.segment)
    ensures r.Some? ==> exists v :: InSegment(v, r.value.segment) && MatchIsVMG(v.blob)
  {
    match vm.Browse(ByCodec(IsVMG))
    case None => None
    case Some(j) => Within(ByCodec(PgcType(pgcType)), j.segment)
  }

  /** JumpSS form 2: a PGC of type `pgcType` in the segment of the menu of title set `vts`, which holds title `title`. */
  function VtsmTarget(vm: Navigator, vts: bv8, title: bv8, pgcType: bv8): (r: Option<Jump>)
    ensures r.Some? ==> MatchPgcType(r.value.chapter.blob, pgcType) && r.value.segment in vm.segments
    ensures r.Some? ==> InSegment(r.value.chapter, r.value.segment)
    ensures r.Some? ==>
      exists v, t :: InSegment(v, r.value.segment) && MatchVTSMNumber(v.blob, vts) &&
                     InTree(t, v) && MatchTitleNumber(t.blob, title)
  {
    match vm.Browse(ByCodec(VTSMNumber(vts)))
    case None => None
    case Some(j) =>
      match Descend(ByCodec(TitleNumber(title)), j)
      case None => None
      case Some(t) => Within(ByCodec(PgcType(pgcType)), j.segment)
  }

  /**
   * JumpVTS_PTT: chapter `ptt` under title `title` of the title set whose
   * number the current segment's domain carries; none when that number is
   * not positive.
   */
  function ChapterTarget(vm: Navigator, title: bv8, ptt: bv8): (r: Option<Jump>)
    ensures r.Some? ==> MatchChapterNumber(r.value.chapter.blob, ptt) && r.value.segment in vm.segments
    ensures r.Some? ==>
      exists t :: InSegment(t, r.value.segment) && MatchTitleNumber(t.blob, title) && InTree(r.value.chapter, t)
    ensures r.Some? ==>
      exists d, v, t :: InSegment(d, vm.currentSegment) && MatchIsDomain(d.blob) && ChapterTitleNumber(d) > 0 &&
                        InSegment(v, r.value.segment) && MatchVTSNumber(v.blob, ChapterTitleNumber(d) as bv16) &&
                        InTree(t, v) && MatchTitleNumber(t.blob, title) && InTree(r.value.chapter, t)
    ensures (forall n :: InSegment(n, vm.currentSegment) ==> !MatchIsDomain(n.blob)) ==> r.None?
    ensures (FindInSegment(ByCodec(IsDomain), vm.currentSegment).Some? &&
             ChapterTitleNumber(FindInSegment(ByCodec(IsDomain), vm.currentSegment).value) <= 0) ==> r.None?
  {
    match FindInSegment(ByCodec(IsDomain), vm.currentSegment)
    case None => None
    case Some(d) =>
      var current := ChapterTitleNumber(d);
      if current <= 0 then None
      else
        match vm.Browse(ByCodec(VTSNumber(current as bv16)))
        case None => None
        case Some(j) =>
          match Descend(ByCodec(TitleNumber(title)), j)
          case None => None
          case Some(t) =>
            var r := Descend(ByCodec(ChapterNumber(ptt)), t);
            if r.Some? then
              InSegmentOfTree(t, j);
              r
            else r
  }

  /** A chapter under a chapter of a segment is in that segment. */
  lemma InSegmentOfTree(t: Jump, j: Jump)
    requires InSegment(j.chapter, j.segment) && t.segment == j.segment && InTree(t.chapter, j.chapter)
    ensures InSegment(t.chapter, t.segment)
  {
    var k :| 0 <= k < |j.segment.chapters| && InTree(j.chapter, j.segment.chapters[k]);
    InTreeTransitive(t.chapter, j.chapter, j.segment.chapters[k]);
  }

  /** Where instruction `inst` asks playback to jump, or None; only navigating instructions jump. */
  function Target(vm: Navigator, inst: Instruction): (r: Option<Jump>)
    ensures r.Some? ==> (inst.JumpTitle? || inst.CallPgcType? || inst.JumpVmgmPgcType? ||
                         inst.JumpVtsmPgcType? || inst.JumpVtsPtt? || inst.LinkPgcn? || inst.LinkCn?)
  {
    match inst
    case JumpTitle(title) => TitleTarget(vm, title)
    case CallPgcType(p) => PgcTypeTarget(vm, p)
    case JumpVmgmPgcType(p) => VmgmTarget(vm, p)
    case JumpVtsmPgcType(vts, title, p) => VtsmTarget(vm, vts, title, p)
    case JumpVtsPtt(title, ptt) => ChapterTarget(vm, title, ptt)
    // LinkPGCN: PGC number `pgcn` of the current segment
    case LinkPgcn(n) => Within(ByCodec(PgcNumber(n)), vm.currentSegment)
    // LinkCN: cell `cell` under the current chapter, in the current segment
    case LinkCn(cell) => Descend(ByCodec(CellNumber(cell)), Jump(vm.currentSegment, vm.currentChapter))
    case _ => None
  }

  /** What one command does: its result, the jump it asks for, and the registers afterwards. */
  datatype Outcome = Outcome(result: bool, jump: Option<Jump>, prm: map<nat, bv16>)

  /**
   * The register bank after instruction `inst`: SetGPRMMD writes a general
   * register and SetHL_BTNN writes system register 0x88, each only when
   * the register accepts the write.
   */
  function Registers(gprmAccepts: bv16 -> bool, sprmAccepts: bv16 -> bool, prm: map<nat, bv16>,
                     inst: Instruction): (r: map<nat, bv16>)
    ensures r != prm ==> inst.SetGprm? || inst.SetHighlightButton?
    ensures inst.SetGprm? ==> r == if gprmAccepts(inst.index) then prm[inst.index as nat := inst.value] else prm
    ensures inst.SetHighlightButton? ==>
      r == if sprmAccepts(0x88) then prm[0x88 := inst.button as bv16] else prm
  {
    match inst
    case SetGprm(index, value) => if gprmAccepts(index) then prm[index as nat := value] else prm
    case SetHighlightButton(button) => if sprmAccepts(0x88) then prm[0x88 := button as bv16] else prm
    case _ => prm
  }

  /** What command `cmd` does on registers `prm`. */
  function Execute(t: OpcodeTable, vm: Navigator, gprmAccepts: bv16 -> bool, sprmAccepts: bv16 -> bool,
                   prm: map<nat, bv16>, cmd: seq<bv8>): (o: Outcome)
    // a command of any other size than 8 does nothing
    ensures |cmd| != 8 ==> o == Outcome(false, None, prm)
    // a command whose register test fails does nothing
    ensures |cmd| == 8 && !Passes(t, cmd, prm) ==> o == Outcome(false, None, prm)
    // the result says whether there is a jump
    ensures o.result <==> o.jump.Some?
    // a command that writes a register never jumps
    ensures o.prm != prm ==> !o.result
  {
    if |cmd| != 8 || !Passes(t, cmd, prm) then Outcome(false, None, prm)
    else
      var inst := Decode(t, cmd);
      var j := Target(vm, inst);
      Outcome(j.Some?, j, Registers(gprmAccepts, sprmAccepts, prm, inst))
  }

  /** NOP, Break, GotoLine, the CallSS and JumpSS forms not carried out, and unknown opcodes do nothing. */
  lemma InertInstructions(t: OpcodeTable, vm: Navigator, ga: bv16 -> bool, sa: bv16 -> bool,
                          prm: map<nat, bv16>, cmd: Command)
    requires Passes(t, cmd, prm)
    requires Decode(t, cmd) in {Nop, Break, GotoLine, JumpFirstPlay, JumpVmgmPgc, Unsupported} ||
      Decode(t, cmd).CallSsOther?
    ensures Execute(t, vm, ga, sa, prm, cmd) == Outcome(false, None, prm)
  {
  }

  /** The only instructions that write registers are SetGPRMMD and SetHL_BTNN; they never jump. */
  lemma RegisterWrites(t: OpcodeTable, vm: Navigator, ga: bv16 -> bool, sa: bv16 -> bool,
                       prm: map<nat, bv16>, cmd: Command)
    requires Passes(t, cmd, prm)
    ensures Decode(t, cmd).SetGprm? || Decode(t, cmd).SetHighlightButton? ==>
      Execute(t, vm, ga, sa, prm, cmd) == Outcome(false, None, Registers(ga, sa, prm, Decode(t, cmd)))
    ensures !(Decode(t, cmd).SetGprm? || Decode(t, cmd).SetHighlightButton?) ==>
      Execute(t, vm, ga, sa, prm, cmd).prm == prm
  {
  }

  /** LinkCN succeeds exactly when some chapter under the current chapter is the requested cell. */
  lemma LinkCnComplete(vm: Navigator, cell: bv8)
    ensures Target(vm, LinkCn(cell)).Some? <==>
      exists n :: InTree(n, vm.currentChapter) && MatchCellNumber(n.blob, cell)
  {
  }

  /** LinkPGCN succeeds exactly when some chapter of the current segment is the requested PGC. */
  lemma LinkPgcnComplete(vm: Navigator, pgcn: bv16)
    ensures Target(vm, LinkPgcn(pgcn)).Some? <==>
      exists n :: InSegment(n, vm.currentSegment) && MatchPgcNumber(n.blob, pgcn)
  {
  }

  /** JumpTT makes no jump when no chapter of any segment is the requested title. */
  lemma JumpTitleNeedsTitle(vm: Navigator, title: bv8)
    requires forall s, n :: s in vm.segments && InSegment(n, s) ==> !MatchTitleNumber(n.blob, title)
    ensures Target(vm, JumpTitle(title)).None?
  {
  }

  /**
   * The interpreter: the register bank, and the navigator its jumps go to.
   * Which registers accept a write is decided by SetGPRM and SetSPRM in
   * chapter_command.hpp, and is a parameter here.
   */
  class DvdInterpreter {
    const table: OpcodeTable
    const vm: Navigator
    const gprmAccepts: bv16 -> bool
    const sprmAccepts: bv16 -> bool
    /** The parameter registers; a register never written reads 0. */
    var prm: map<nat, bv16>

    constructor (table: OpcodeTable, vm: Navigator, gprmAccepts: bv16 -> bool, sprmAccepts: bv16 -> bool)
      ensures this.table == table && this.vm == vm
      ensures this.gprmAccepts == gprmAccepts && this.sprmAccepts == sprmAccepts
      ensures prm == map[]
    {
      this.table := table;
      this.vm := vm;
      this.gprmAccepts := gprmAccepts;
      this.sprmAccepts := sprmAccepts;
      prm := map[];
    }

    /** What command `cmd` does when the registers hold `regs`. */
    function Effect(regs: map<nat, bv16>, cmd: seq<bv8>): Outcome
    {
      Execute(table, vm, gprmAccepts, sprmAccepts, regs, cmd)
    }

    /** SetGPRM: writes general register `index` if it accepts the write, and says whether it did. */
    method SetGPRM(index: bv16, value: bv16) returns (accepted: bool)
      modifies this
      ensures accepted == gprmAccepts(index)
      ensures prm == if accepted then old(prm)[index as nat := value] else old(prm)
    {
      accepted := gprmAccepts(index);
      if accepted {
        prm := prm[index as nat := value];
      }
    }

    /** SetSPRM: writes system register `index` if it accepts the write, and says whether it did. */
    method SetSPRM(index: bv16, value: bv16) returns (accepted: bool)
      modifies this
      ensures accepted == sprmAccepts(index)
      ensures prm == if accepted then old(prm)[index as nat := value] else old(prm)
    {
      accepted := sprmAccepts(index);
      if accepted {
        prm := prm[index as nat := value];
      }
    }

    /**
     * Whether a command may run: it has no register test, or register cr1
     * stands in the test's relation to the second operand, itself when
     * immediate and otherwise the register it names.
     */
    method TestPasses(cmd: Command) returns (pass: bool)
      ensures pass == Passes(table, cmd, prm)
    {
      pass := true;
      var command := BE16(cmd[0], cmd[1]);
      if command & 0xF0 != 0 {
        var operands := SelectOperands(table, cmd);
        var value := if operands.immediate then operands.cr2 else GetPRM(prm, operands.cr2 as nat);
        pass := Holds(RelationOf(table, TestCode(cmd)), GetPRM(prm, operands.cr1 as nat), value);
      }
    }

    /** dvd_command_interpretor_c::Interpret: carries out one command. */
    method Interpret(cmd: seq<bv8>) returns (r: bool)
      modifies this, vm
      ensures r == Effect(old(prm), cmd).result
      ensures prm == Effect(old(prm), cmd).prm
      ensures vm.jumps == old(vm.jumps) + OptionToSeq(Effect(old(prm), cmd).jump)
    {
      if |cmd| != 8 {
        return false;
      }
      var pass := TestPasses(cmd);
      if !pass {
        return false;
      }
      r := Perform(cmd);
    }

    /** The case of the switch on the opcode word (test bits cleared) that the command selects. */
    method Perform(cmd: Command) returns (r: bool)
      modifies this, vm
      ensures r == Target(vm, Decode(table, cmd)).Some?
      ensures prm == Registers(gprmAccepts, sprmAccepts, old(prm), Decode(table, cmd))
      ensures vm.jumps == old(vm.jumps) + OptionToSeq(Target(vm, Decode(table, cmd)))
    {
      var inst := Decode(table, cmd);
      if inst.SetGprm? {
        var _ := SetGPRM(inst.index, inst.value);
        r := false;
      } else if inst.SetHighlightButton? {
        var _ := SetSPRM(0x88, inst.button as bv16);
        r := false;
      } else {
        r := Go(Target(vm, inst));
      }
    }

    /** Asks for the jump `target`, if any, and says whether there was one. */
    method Go(target: Option<Jump>) returns (r: bool)
      modifies vm
      ensures r == target.Some? && vm.jumps == old(vm.jumps) + OptionToSeq(target)
    {
      r := false;
      if target.Some? {
        vm.JumpTo(target.value.segment, target.value.chapter);
        r := true;
      }
    }
  }
}
