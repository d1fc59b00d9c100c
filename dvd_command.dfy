/**
 * The 8-byte DVD virtual-machine commands stored in Matroska chapter
 * process data. Bytes 0 and 1 form the big-endian opcode word; its bits
 * 4 to 7 (the high nibble of byte 1) hold an optional register test, and
 * the word with those bits cleared selects the instruction. The operand
 * bytes of each instruction sit at fixed places in bytes 2 to 7.
 *
 * The numeric values of the CMD_DVD_* opcodes and of the test codes are
 * defined in chapter_command.hpp; here they are the fields of an
 * OpcodeTable, and the properties hold for every table whose switch
 * labels are distinct.
 */
module DvdCommand {

  import opened DvdPrivate

  /** The CMD_DVD_* constants. */
  datatype OpcodeTable = OpcodeTable(
    nop: bv16, nop2: bv16, brk: bv16, jumpTT: bv16, callSSVtsm1: bv16, jumpSS: bv16,
    jumpVtsPtt: bv16, setGprmmd: bv16, linkPgcn: bv16, linkCn: bv16, gotoLine: bv16,
    setHlBtnn1: bv16,
    /** CMD_DVD_TEST_VALUE: the bit saying the second test operand is an immediate value */
    testValue: bv16,
    /** the CMD_DVD_IF_GPREG_* codes compared with bits 4 to 6 of the opcode word */
    ifEqual: bv8, ifNotEqual: bv8, ifInf: bv8, ifInfEqual: bv8, ifAnd: bv8, ifSup: bv8,
    ifSupEqual: bv8)
  {
    function Opcodes(): seq<bv16>
    {
      [nop, nop2, brk, jumpTT, callSSVtsm1, jumpSS, jumpVtsPtt, setGprmmd, linkPgcn, linkCn,
       gotoLine, setHlBtnn1]
    }

    function TestCodes(): seq<bv8>
    {
      [ifEqual, ifNotEqual, ifInf, ifInfEqual, ifAnd, ifSup, ifSupEqual]
    }

    /** The labels of each switch of the interpreter are distinct, as C++ requires. */
    predicate Valid()
    {
      (forall i, j :: 0 <= i < j < |Opcodes()| ==> Opcodes()[i] != Opcodes()[j]) &&
      (forall i, j :: 0 <= i < j < |TestCodes()| ==> TestCodes()[i] != TestCodes()[j])
    }

    /** No opcode carries test bits, so each one is reachable by a command without a test. */
    predicate Dispatchable()
    {
      forall i :: 0 <= i < |Opcodes()| ==> Opcodes()[i] & 0xF0 == 0
    }
  }

  /** An 8-byte command. */
  type Command = c: seq<bv8> | |c| == 8 witness [0, 0, 0, 0, 0, 0, 0, 0]

  /** The opcode word of a command. */
  function Opcode(cmd: Command): bv16
  {
    BE16(cmd[0], cmd[1])
  }

  /** The command starts with a register test. */
  predicate HasTest(cmd: Command)
  {
    Opcode(cmd) & 0xF0 != 0
  }

  /** The test code: bits 4 to 6 of the opcode word. */
  function TestCode(cmd: Command): bv8
  {
    (Opcode(cmd) & 0x70) as bv8
  }

  /*
   * The register test
   */

  /** The operands of a register test: register `cr1`, and `cr2`, a register or an immediate value. */
  datatype TestOperands = TestOperands(cr1: bv8, cr2: bv16, immediate: bool)

  /**
   * Where the test operands sit, by the top nibble of the opcode word: in
   * groups 3 to 5 bytes 6 and 7, never immediate; in groups 6 and 7 byte
   * 4 or 5 (byte 4 when the test code is 0) and bytes 6-7; otherwise
   * byte 3 and bytes 4-5.
   */
  function SelectOperands(t: OpcodeTable, cmd: Command): TestOperands
  {
    var op := Opcode(cmd);
    var immediate := op & t.testValue != 0;
    var group := op >> 12;
    if 3 <= group <= 5 then TestOperands(cmd[6], cmd[7] as bv16, false)
    else if 6 <= group <= 7 then
      TestOperands(if (cmd[1] >> 4) & 0x7 == 0 then cmd[4] else cmd[5], BE16(cmd[6], cmd[7]), immediate)
    else TestOperands(cmd[3], BE16(cmd[4], cmd[5]), immediate)
  }

  /** The operand places of SelectOperands, group by group of the top nibble of the opcode word. */
  lemma OperandPlaces(t: OpcodeTable, cmd: Command)
    ensures var o := SelectOperands(t, cmd);
      && (3 <= Opcode(cmd) >> 12 <= 5 ==> o == TestOperands(cmd[6], cmd[7] as bv16, false))
      && (6 <= Opcode(cmd) >> 12 <= 7 ==>
            o.cr2 == BE16(cmd[6], cmd[7]) && o.cr1 == (if (cmd[1] >> 4) & 7 == 0 then cmd[4] else cmd[5]))
      && (!(3 <= Opcode(cmd) >> 12 <= 7) ==> o.cr1 == cmd[3] && o.cr2 == BE16(cmd[4], cmd[5]))
      && (!(3 <= Opcode(cmd) >> 12 <= 5) ==> (o.immediate <==> Opcode(cmd) & t.testValue != 0))
  {
  }

  /** GetPRM: the value of a parameter register; a register never set reads 0. */
  function GetPRM(prm: map<nat, bv16>, i: nat): (v: bv16)
    ensures i in prm ==> v == prm[i]
    ensures i !in prm ==> v == 0
  {
    if i in prm then prm[i] else 0
  }

  /** The relation a test code asks for between register cr1 and the second operand. */
  datatype Relation = Equal | NotEqual | Less | LessEqual | And | Greater | GreaterEqual | NoRelation

  function RelationOf(t: OpcodeTable, code: bv8): Relation
  {
    if code == t.ifEqual then Equal
    else if code == t.ifNotEqual then NotEqual
    else if code == t.ifInf then Less
    else if code == t.ifInfEqual then LessEqual
    else if code == t.ifAnd then And
    else if code == t.ifSup then Greater
    else if code == t.ifSupEqual then GreaterEqual
    else NoRelation
  }

  /** Whether `a` and `b` stand in relation `rel`; an unknown code constrains nothing. */
  predicate Holds(rel: Relation, a: bv16, b: bv16)
  {
    match rel
    case Equal => a == b
    case NotEqual => a != b
    case Less => a < b
    case LessEqual => a <= b
    case And => a & b != 0
    case Greater => a > b
    case GreaterEqual => a >= b
    case NoRelation => true
  }

  /** The value register cr1 is compared with: cr2 itself when immediate, else register cr2. */
  function CompareValue(o: TestOperands, prm: map<nat, bv16>): bv16
  {
    if o.immediate then o.cr2 else GetPRM(prm, o.cr2 as nat)
  }

  /** Register cr1 of `o` stands in relation `rel` to the value it is compared with. */
  predicate Related(rel: Relation, o: TestOperands, prm: map<nat, bv16>)
  {
    Holds(rel, GetPRM(prm, o.cr1 as nat), CompareValue(o, prm))
  }

  /** The command may run: it has no test, or its test holds on the registers `prm`. */
  predicate Passes(t: OpcodeTable, cmd: Command, prm: map<nat, bv16>)
  {
    !HasTest(cmd) || Related(RelationOf(t, TestCode(cmd)), SelectOperands(t, cmd), prm)
  }

  /** A command without test bits always runs. */
  lemma NoTestPasses(t: OpcodeTable, cmd: Command, prm: map<nat, bv16>)
    requires cmd[1] & 0xF0 == 0
    ensures Passes(t, cmd, prm)
  {
    assert Opcode(cmd) & 0xF0 == ((cmd[1] as bv16) & 0xF0);
  }

  /** A tested command runs exactly when its relation holds between register cr1 and the compared value. */
  lemma PassesBy(t: OpcodeTable, cmd: Command, prm: map<nat, bv16>, rel: Relation)
    requires HasTest(cmd) && RelationOf(t, TestCode(cmd)) == rel
    ensures Passes(t, cmd, prm) == Related(rel, SelectOperands(t, cmd), prm)
  {
  }

  /** The complementary pairs of relations: EQUAL and NOT_EQUAL, INF and SUP_EQUAL, SUP and INF_EQUAL. */
  predicate Complementary(ra: Relation, rb: Relation)
  {
    || (ra == Equal && rb == NotEqual)
    || (ra == Less && rb == GreaterEqual)
    || (ra == Greater && rb == LessEqual)
  }

  /**
   * Two tested commands with the same operands whose relations are
   * complementary: exactly one of them runs.
   */
  lemma ComplementaryTests(t: OpcodeTable, a: Command, b: Command, prm: map<nat, bv16>, ra: Relation, rb: Relation)
    requires HasTest(a) && HasTest(b)
    requires SelectOperands(t, a) == SelectOperands(t, b)
    requires RelationOf(t, TestCode(a)) == ra && RelationOf(t, TestCode(b)) == rb
    requires Complementary(ra, rb)
    ensures Passes(t, a, prm) != Passes(t, b, prm)
  {
    PassesBy(t, a, prm, ra);
    PassesBy(t, b, prm, rb);
    var o := SelectOperands(t, a);
    ComplementaryHolds(ra, rb, GetPRM(prm, o.cr1 as nat), CompareValue(o, prm));
  }

  /** Complementary relations never both hold, nor both fail. */
  lemma ComplementaryHolds(ra: Relation, rb: Relation, x: bv16, y: bv16)
    requires Complementary(ra, rb)
    ensures Holds(ra, x, y) != Holds(rb, x, y)
  {
  }

  /** Two commands with the same test operands, one testing EQUAL and one NOT_EQUAL: exactly one runs. */
  lemma EqualComplementsNotEqual(t: OpcodeTable, a: Command, b: Command, prm: map<nat, bv16>)
    requires t.Valid() && HasTest(a) && HasTest(b)
    requires SelectOperands(t, a) == SelectOperands(t, b)
    requires TestCode(a) == t.ifEqual && TestCode(b) == t.ifNotEqual
    ensures Passes(t, a, prm) != Passes(t, b, prm)
  {
    TestCodesDistinct(t);
    ComplementaryTests(t, a, b, prm, Equal, NotEqual);
  }

  /** Two commands with the same test operands, one testing INF and one SUP_EQUAL: exactly one runs. */
  lemma LessComplementsGreaterEqual(t: OpcodeTable, a: Command, b: Command, prm: map<nat, bv16>)
    requires t.Valid() && HasTest(a) && HasTest(b)
    requires SelectOperands(t, a) == SelectOperands(t, b)
    requires TestCode(a) == t.ifInf && TestCode(b) == t.ifSupEqual
    ensures Passes(t, a, prm) != Passes(t, b, prm)
  {
    TestCodesDistinct(t);
    ComplementaryTests(t, a, b, prm, Less, GreaterEqual);
  }

  /** Two commands with the same test operands, one testing SUP and one INF_EQUAL: exactly one runs. */
  lemma GreaterComplementsLessEqual(t: OpcodeTable, a: Command, b: Command, prm: map<nat, bv16>)
    requires t.Valid() && HasTest(a) && HasTest(b)
    requires SelectOperands(t, a) == SelectOperands(t, b)
    requires TestCode(a) == t.ifSup && TestCode(b) == t.ifInfEqual
    ensures Passes(t, a, prm) != Passes(t, b, prm)
  {
    TestCodesDistinct(t);
    ComplementaryTests(t, a, b, prm, Greater, LessEqual);
  }

  /** A test whose code is none of the seven runs the command whatever the registers hold. */
  lemma UnknownTestPasses(t: OpcodeTable, cmd: Command, prm: map<nat, bv16>)
    requires TestCode(cmd) !in t.TestCodes()
    ensures Passes(t, cmd, prm)
  {
  }

  /** Under distinct test codes, each code stands for its own relation. */
  lemma TestCodesDistinct(t: OpcodeTable)
    requires t.Valid()
    ensures RelationOf(t, t.ifEqual) == Equal && RelationOf(t, t.ifNotEqual) == NotEqual
    ensures RelationOf(t, t.ifInf) == Less && RelationOf(t, t.ifInfEqual) == LessEqual
    ensures RelationOf(t, t.ifAnd) == And && RelationOf(t, t.ifSup) == Greater
    ensures RelationOf(t, t.ifSupEqual) == GreaterEqual
  {
    var c := t.TestCodes();
    assert c[0] != c[1] && c[0] != c[2] && c[0] != c[3] && c[0] != c[4] && c[0] != c[5] && c[0] != c[6];
    assert c[1] != c[2] && c[1] != c[3] && c[1] != c[4] && c[1] != c[5] && c[1] != c[6];
    assert c[2] != c[3] && c[2] != c[4] && c[2] != c[5] && c[2] != c[6];
    assert c[3] != c[4] && c[3] != c[5] && c[3] != c[6];
    assert c[4] != c[5] && c[4] != c[6];
    assert c[5] != c[6];
  }

  /*
   * Instructions
   */

  /** What a command asks for once its test, if any, has passed. */
  datatype Instruction =
    | Nop
    | Break
    | GotoLine
    /** JumpTT: play title `title`, entered through its first cell */
    | JumpTitle(title: bv8)
    /** CallSS to the PGC of type `pgcType`, entered through its first cell */
    | CallPgcType(pgcType: bv8)
    /** CallSS forms 1 to 3 (a VMGM or VTSM menu, a VMGM PGC), which are not carried out */
    | CallSsOther(form: bv8)
    /** JumpSS to the first-play PGC, which is not carried out */
    | JumpFirstPlay
    /** JumpSS to the video manager's PGC of type `pgcType` */
    | JumpVmgmPgcType(pgcType: bv8)
    /** JumpSS to the PGC of type `pgcType` of the menu of title set `vts`, title `title` */
    | JumpVtsmPgcType(vts: bv8, title: bv8, pgcType: bv8)
    /** JumpSS to a VMGM PGC by number, which is not carried out */
    | JumpVmgmPgc
    /** JumpVTS_PTT: play chapter `ptt` of title `title` of the current title set */
    | JumpVtsPtt(title: bv8, ptt: bv8)
    /** SetGPRMMD: general register `index` := `value` */
    | SetGprm(index: bv16, value: bv16)
    /** LinkPGCN: play PGC number `pgcn` of the current segment */
    | LinkPgcn(pgcn: bv16)
    /** LinkCN: play cell `cell` of the current chapter */
    | LinkCn(cell: bv8)
    /** SetHL_BTNN: highlight button `button` (system register 0x88) */
    | SetHighlightButton(button: bv8)
    | Unsupported

  /** The instruction a command selects by its opcode word with the test bits cleared. */
  function Decode(t: OpcodeTable, cmd: Command): Instruction
  {
    Dispatch(t, Opcode(cmd) & 0xFF0F, cmd[2], cmd[3], cmd[4], cmd[5], cmd[6], cmd[7])
  }

  /** The instruction of opcode word `op` (test bits cleared) and operand bytes 2 to 7. */
  function Dispatch(t: OpcodeTable, op: bv16, b2: bv8, b3: bv8, b4: bv8, b5: bv8, b6: bv8, b7: bv8): Instruction
  {
    if op == t.nop || op == t.nop2 then Nop
    else if op == t.brk then Break
    else if op == t.jumpTT then JumpTitle(b5)
    else if op == t.callSSVtsm1 then
      var form := (b6 & 0xC0) >> 6;
      if form == 0 then CallPgcType(b5 & 0x0F) else CallSsOther(form)
    else if op == t.jumpSS then
      var form := (b5 & 0xC0) >> 6;
      if form == 0 then JumpFirstPlay
      else if form == 1 then JumpVmgmPgcType(b5 & 0x0F)
      else if form == 2 then JumpVtsmPgcType(b4, b3, b5 & 0x0F)
      else JumpVmgmPgc
    else if op == t.jumpVtsPtt then JumpVtsPtt(b5, b3)
    else if op == t.setGprmmd then SetGprm(BE16(b4, b5), BE16(b2, b3))
    else if op == t.linkPgcn then LinkPgcn(BE16(b6, b7))
    else if op == t.linkCn then LinkCn(b7)
    else if op == t.gotoLine then GotoLine
    else if op == t.setHlBtnn1 then SetHighlightButton(b4)
    else Unsupported
  }

  /** The test bits do not take part in choosing the instruction or its operands. */
  lemma DecodeIgnoresTestBits(t: OpcodeTable, a: Command, b: Command)
    requires a[0] == b[0] && a[1] & 0x0F == b[1] & 0x0F && a[2..] == b[2..]
    ensures Decode(t, a) == Decode(t, b)
  {
    assert Opcode(a) & 0xFF0F == Opcode(b) & 0xFF0F;
    assert a[2] == a[2..][0] == b[2] && a[3] == a[2..][1] == b[3] && a[4] == a[2..][2] == b[4];
    assert a[5] == a[2..][3] == b[5] && a[6] == a[2..][4] == b[6] && a[7] == a[2..][5] == b[7];
  }

  /** The instructions a command can encode: nibble-sized PGC types, and CallSS forms 1 to 3. */
  predicate Encodable(i: Instruction)
  {
    match i
    case CallPgcType(p) => p < 16
    case CallSsOther(f) => 1 <= f <= 3
    case JumpVmgmPgcType(p) => p < 16
    case JumpVtsmPgcType(_, _, p) => p < 16
    case Unsupported => false
    case _ => true
  }

  /** The opcodes of a valid table, pairwise distinct. */
  lemma OpcodesDistinct(t: OpcodeTable)
    requires t.Valid()
    ensures t.nop != t.nop2 && t.nop != t.brk && t.nop != t.jumpTT && t.nop != t.callSSVtsm1 && t.nop != t.jumpSS && t.nop != t.jumpVtsPtt && t.nop != t.setGprmmd && t.nop != t.linkPgcn && t.nop != t.linkCn && t.nop != t.gotoLine && t.nop != t.setHlBtnn1
    ensures t.nop2 != t.brk && t.nop2 != t.jumpTT && t.nop2 != t.callSSVtsm1 && t.nop2 != t.jumpSS && t.nop2 != t.jumpVtsPtt && t.nop2 != t.setGprmmd && t.nop2 != t.linkPgcn && t.nop2 != t.linkCn && t.nop2 != t.gotoLine && t.nop2 != t.setHlBtnn1
    ensures t.brk != t.jumpTT && t.brk != t.callSSVtsm1 && t.brk != t.jumpSS && t.brk != t.jumpVtsPtt && t.brk != t.setGprmmd && t.brk != t.linkPgcn && t.brk != t.linkCn && t.brk != t.gotoLine && t.brk != t.setHlBtnn1
    ensures t.jumpTT != t.callSSVtsm1 && t.jumpTT != t.jumpSS && t.jumpTT != t.jumpVtsPtt && t.jumpTT != t.setGprmmd && t.jumpTT != t.linkPgcn && t.jumpTT != t.linkCn && t.jumpTT != t.gotoLine && t.jumpTT != t.setHlBtnn1
    ensures t.callSSVtsm1 != t.jumpSS && t.callSSVtsm1 != t.jumpVtsPtt && t.callSSVtsm1 != t.setGprmmd && t.callSSVtsm1 != t.linkPgcn && t.callSSVtsm1 != t.linkCn && t.callSSVtsm1 != t.gotoLine && t.callSSVtsm1 != t.setHlBtnn1
    ensures t.jumpSS != t.jumpVtsPtt && t.jumpSS != t.setGprmmd && t.jumpSS != t.linkPgcn && t.jumpSS != t.linkCn && t.jumpSS != t.gotoLine && t.jumpSS != t.setHlBtnn1
    ensures t.jumpVtsPtt != t.setGprmmd && t.jumpVtsPtt != t.linkPgcn && t.jumpVtsPtt != t.linkCn && t.jumpVtsPtt != t.gotoLine && t.jumpVtsPtt != t.setHlBtnn1
    ensures t.setGprmmd != t.linkPgcn && t.setGprmmd != t.linkCn && t.setGprmmd != t.gotoLine && t.setGprmmd != t.setHlBtnn1
    ensures t.linkPgcn != t.linkCn && t.linkPgcn != t.gotoLine && t.linkPgcn != t.setHlBtnn1
    ensures t.linkCn != t.gotoLine && t.linkCn != t.setHlBtnn1
    ensures t.gotoLine != t.setHlBtnn1
  {
    var c := t.Opcodes();
    assert c[0] != c[1] && c[0] != c[2] && c[0] != c[3] && c[0] != c[4] && c[0] != c[5] && c[0] != c[6] && c[0] != c[7] && c[0] != c[8] && c[0] != c[9] && c[0] != c[10] && c[0] != c[11];
    assert c[1] != c[2] && c[1] != c[3] && c[1] != c[4] && c[1] != c[5] && c[1] != c[6] && c[1] != c[7] && c[1] != c[8] && c[1] != c[9] && c[1] != c[10] && c[1] != c[11];
    assert c[2] != c[3] && c[2] != c[4] && c[2] != c[5] && c[2] != c[6] && c[2] != c[7] && c[2] != c[8] && c[2] != c[9] && c[2] != c[10] && c[2] != c[11];
    assert c[3] != c[4] && c[3] != c[5] && c[3] != c[6] && c[3] != c[7] && c[3] != c[8] && c[3] != c[9] && c[3] != c[10] && c[3] != c[11];
    assert c[4] != c[5] && c[4] != c[6] && c[4] != c[7] && c[4] != c[8] && c[4] != c[9] && c[4] != c[10] && c[4] != c[11];
    assert c[5] != c[6] && c[5] != c[7] && c[5] != c[8] && c[5] != c[9] && c[5] != c[10] && c[5] != c[11];
    assert c[6] != c[7] && c[6] != c[8] && c[6] != c[9] && c[6] != c[10] && c[6] != c[11];
    assert c[7] != c[8] && c[7] != c[9] && c[7] != c[10] && c[7] != c[11];
    assert c[8] != c[9] && c[8] != c[10] && c[8] != c[11];
    assert c[9] != c[10] && c[9] != c[11];
    assert c[10] != c[11];
  }

  /** The opcodes of a dispatchable table keep their value when the test bits are cleared. */
  lemma MaskedOpcodes(t: OpcodeTable)
    requires t.Dispatchable()
    ensures t.nop & 0xFF0F == t.nop
    ensures t.nop2 & 0xFF0F == t.nop2
    ensures t.brk & 0xFF0F == t.brk
    ensures t.jumpTT & 0xFF0F == t.jumpTT
    ensures t.callSSVtsm1 & 0xFF0F == t.callSSVtsm1
    ensures t.jumpSS & 0xFF0F == t.jumpSS
    ensures t.jumpVtsPtt & 0xFF0F == t.jumpVtsPtt
    ensures t.setGprmmd & 0xFF0F == t.setGprmmd
    ensures t.linkPgcn & 0xFF0F == t.linkPgcn
    ensures t.linkCn & 0xFF0F == t.linkCn
    ensures t.gotoLine & 0xFF0F == t.gotoLine
    ensures t.setHlBtnn1 & 0xFF0F == t.setHlBtnn1
  {
    var c := t.Opcodes();
    assert c[0] & 0xF0 == 0;
    assert c[1] & 0xF0 == 0;
    assert c[2] & 0xF0 == 0;
    assert c[3] & 0xF0 == 0;
    assert c[4] & 0xF0 == 0;
    assert c[5] & 0xF0 == 0;
    assert c[6] & 0xF0 == 0;
    assert c[7] & 0xF0 == 0;
    assert c[8] & 0xF0 == 0;
    assert c[9] & 0xF0 == 0;
    assert c[10] & 0xF0 == 0;
    assert c[11] & 0xF0 == 0;
  }

  /** Which instruction each opcode of a valid table selects, and which operand bytes it takes. */
  lemma DispatchTable(t: OpcodeTable, b2: bv8, b3: bv8, b4: bv8, b5: bv8, b6: bv8, b7: bv8)
    requires t.Valid()
    ensures Dispatch(t, t.nop, b2, b3, b4, b5, b6, b7) == Nop
    ensures Dispatch(t, t.nop2, b2, b3, b4, b5, b6, b7) == Nop
    ensures Dispatch(t, t.brk, b2, b3, b4, b5, b6, b7) == Break
    ensures Dispatch(t, t.jumpTT, b2, b3, b4, b5, b6, b7) == JumpTitle(b5)
    ensures Dispatch(t, t.callSSVtsm1, b2, b3, b4, b5, b6, b7) ==
      (if (b6 & 0xC0) >> 6 == 0 then CallPgcType(b5 & 0x0F) else CallSsOther((b6 & 0xC0) >> 6))
    ensures Dispatch(t, t.jumpSS, b2, b3, b4, b5, b6, b7) ==
      (match (b5 & 0xC0) >> 6
       case 0 => JumpFirstPlay
       case 1 => JumpVmgmPgcType(b5 & 0x0F)
       case 2 => JumpVtsmPgcType(b4, b3, b5 & 0x0F)
       case _ => JumpVmgmPgc)
    ensures Dispatch(t, t.jumpVtsPtt, b2, b3, b4, b5, b6, b7) == JumpVtsPtt(b5, b3)
    ensures Dispatch(t, t.setGprmmd, b2, b3, b4, b5, b6, b7) == SetGprm(BE16(b4, b5), BE16(b2, b3))
    ensures Dispatch(t, t.linkPgcn, b2, b3, b4, b5, b6, b7) == LinkPgcn(BE16(b6, b7))
    ensures Dispatch(t, t.linkCn, b2, b3, b4, b5, b6, b7) == LinkCn(b7)
    ensures Dispatch(t, t.gotoLine, b2, b3, b4, b5, b6, b7) == GotoLine
    ensures Dispatch(t, t.setHlBtnn1, b2, b3, b4, b5, b6, b7) == SetHighlightButton(b4)
  {
    OpcodesDistinct(t);
  }

  /** A CallSS form stored in the top two bits of byte 6 reads back unchanged. */
  lemma FormBits(f: bv8)
    requires 1 <= f <= 3
    ensures ((f << 6) & 0xC0) >> 6 == f
  {
  }

  /** Every encodable instruction is decoded from the command Assemble makes for it. */
  lemma DecodeAssemble(t: OpcodeTable, i: Instruction)
    requires t.Valid() && t.Dispatchable() && Encodable(i)
    ensures Decode(t, Assemble(t, i)) == i
  {
    match i
    case Nop => DecodeAssembleNop(t);
    case Break => DecodeAssembleBreak(t);
    case GotoLine => DecodeAssembleGotoLine(t);
    case JumpTitle(title) => DecodeAssembleJumpTitle(t, title);
    case CallPgcType(p) => DecodeAssembleCallPgcType(t, p);
    case CallSsOther(f) => DecodeAssembleCallSsOther(t, f);
    case JumpFirstPlay => DecodeAssembleJumpFirstPlay(t);
    case JumpVmgmPgcType(p) => DecodeAssembleJumpVmgmPgcType(t, p);
    case JumpVtsmPgcType(vts, title, p) => DecodeAssembleJumpVtsmPgcType(t, vts, title, p);
    case JumpVmgmPgc => DecodeAssembleJumpVmgmPgc(t);
    case JumpVtsPtt(title, ptt) => DecodeAssembleJumpVtsPtt(t, title, ptt);
    case SetGprm(index, value) => DecodeAssembleSetGprm(t, index, value);
    case LinkPgcn(n) => DecodeAssembleLinkPgcn(t, n);
    case LinkCn(cell) => DecodeAssembleLinkCn(t, cell);
    case SetHighlightButton(button) => DecodeAssembleSetHighlightButton(t, button);
  }

  /*
   * DecodeAssemble, one instruction at a time
   */

  lemma DecodeAssembleNop(t: OpcodeTable)
    requires t.Valid() && t.Dispatchable()
    ensures Decode(t, Assemble(t, Nop)) == Nop
  {
    var cmd := Assemble(t, Nop);
    assert Opcode(cmd) & 0xFF0F == t.nop by { MaskedOpcodes(t); }
    assert Dispatch(t, t.nop, cmd[2], cmd[3], cmd[4], cmd[5], cmd[6], cmd[7]) == Nop by {
      DispatchTable(t, cmd[2], cmd[3], cmd[4], cmd[5], cmd[6], cmd[7]);
    }
  }

  lemma DecodeAssembleBreak(t: OpcodeTable)
    requires t.Valid() && t.Dispatchable()
    ensures Decode(t, Assemble(t, Break)) == Break
  {
    var cmd := Assemble(t, Break);
    assert Opcode(cmd) & 0xFF0F == t.brk by { MaskedOpcodes(t); }
    assert Dispatch(t, t.brk, cmd[2], cmd[3], cmd[4], cmd[5], cmd[6], cmd[7]) == Break by {
      DispatchTable(t, cmd[2], cmd[3], cmd[4], cmd[5], cmd[6], cmd[7]);
    }
  }

  lemma DecodeAssembleGotoLine(t: OpcodeTable)
    requires t.Valid() && t.Dispatchable()
    ensures Decode(t, Assemble(t, GotoLine)) == GotoLine
  {
    var cmd := Assemble(t, GotoLine);
    assert Opcode(cmd) & 0xFF0F == t.gotoLine by { MaskedOpcodes(t); }
    assert Dispatch(t, t.gotoLine, cmd[2], cmd[3], cmd[4], cmd[5], cmd[6], cmd[7]) == GotoLine by {
      DispatchTable(t, cmd[2], cmd[3], cmd[4], cmd[5], cmd[6], cmd[7]);
    }
  }

  lemma DecodeAssembleJumpTitle(t: OpcodeTable, title: bv8)
    requires t.Valid() && t.Dispatchable()
    ensures Decode(t, Assemble(t, JumpTitle(title))) == JumpTitle(title)
  {
    var cmd := Assemble(t, JumpTitle(title));
    assert Opcode(cmd) & 0xFF0F == t.jumpTT by { MaskedOpcodes(t); }
    assert Dispatch(t, t.jumpTT, cmd[2], cmd[3], cmd[4], cmd[5], cmd[6], cmd[7]) == JumpTitle(title) by {
      DispatchTable(t, cmd[2], cmd[3], cmd[4], cmd[5], cmd[6], cmd[7]);
    }
  }

  lemma DecodeAssembleCallPgcType(t: OpcodeTable, p: bv8)
    requires t.Valid() && t.Dispatchable() && p < 16
    ensures Decode(t, Assemble(t, CallPgcType(p))) == CallPgcType(p)
  {
    var cmd := Assemble(t, CallPgcType(p));
    assert Opcode(cmd) & 0xFF0F == t.callSSVtsm1 by { MaskedOpcodes(t); }
    assert Dispatch(t, t.callSSVtsm1, cmd[2], cmd[3], cmd[4], cmd[5], cmd[6], cmd[7]) == CallPgcType(p) by {
      DispatchTable(t, cmd[2], cmd[3], cmd[4], cmd[5], cmd[6], cmd[7]);
    }
  }

  lemma DecodeAssembleCallSsOther(t: OpcodeTable, f: bv8)
    requires t.Valid() && t.Dispatchable() && 1 <= f <= 3
    ensures Decode(t, Assemble(t, CallSsOther(f))) == CallSsOther(f)
  {
    var cmd := Assemble(t, CallSsOther(f));
    assert Opcode(cmd) & 0xFF0F == t.callSSVtsm1 by { MaskedOpcodes(t); }
    assert Dispatch(t, t.callSSVtsm1, cmd[2], cmd[3], cmd[4], cmd[5], cmd[6], cmd[7]) == CallSsOther(f) by {
      DispatchTable(t, cmd[2], cmd[3], cmd[4], cmd[5], cmd[6], cmd[7]);
      FormBits(f);
    }
  }

  lemma DecodeAssembleJumpFirstPlay(t: OpcodeTable)
    requires t.Valid() && t.Dispatchable()
    ensures Decode(t, Assemble(t, JumpFirstPlay)) == JumpFirstPlay
  {
    var cmd := Assemble(t, JumpFirstPlay);
    assert Opcode(cmd) & 0xFF0F == t.jumpSS by { MaskedOpcodes(t); }
    assert Dispatch(t, t.jumpSS, cmd[2], cmd[3], cmd[4], cmd[5], cmd[6], cmd[7]) == JumpFirstPlay by {
      DispatchTable(t, cmd[2], cmd[3], cmd[4], cmd[5], cmd[6], cmd[7]);
    }
  }

  lemma DecodeAssembleJumpVmgmPgcType(t: OpcodeTable, p: bv8)
    requires t.Valid() && t.Dispatchable() && p < 16
    ensures Decode(t, Assemble(t, JumpVmgmPgcType(p))) == JumpVmgmPgcType(p)
  {
    var cmd := Assemble(t, JumpVmgmPgcType(p));
    assert Opcode(cmd) & 0xFF0F == t.jumpSS by { MaskedOpcodes(t); }
    assert Dispatch(t, t.jumpSS, cmd[2], cmd[3], cmd[4], cmd[5], cmd[6], cmd[7]) == JumpVmgmPgcType(p) by {
      DispatchTable(t, cmd[2], cmd[3], cmd[4], cmd[5], cmd[6], cmd[7]);
      assert ((0x40 | p) & 0xC0) >> 6 == 1 && (0x40 | p) & 0x0F == p;
    }
  }

  lemma DecodeAssembleJumpVtsmPgcType(t: OpcodeTable, vts: bv8, title: bv8, p: bv8)
    requires t.Valid() && t.Dispatchable() && p < 16
    ensures Decode(t, Assemble(t, JumpVtsmPgcType(vts, title, p))) == JumpVtsmPgcType(vts, title, p)
  {
    var cmd := Assemble(t, JumpVtsmPgcType(vts, title, p));
    assert Opcode(cmd) & 0xFF0F == t.jumpSS by { MaskedOpcodes(t); }
    assert Dispatch(t, t.jumpSS, cmd[2], cmd[3], cmd[4], cmd[5], cmd[6], cmd[7]) == JumpVtsmPgcType(vts, title, p) by {
      DispatchTable(t, cmd[2], cmd[3], cmd[4], cmd[5], cmd[6], cmd[7]);
      assert ((0x80 | p) & 0xC0) >> 6 == 2 && (0x80 | p) & 0x0F == p;
    }
  }

  lemma DecodeAssembleJumpVmgmPgc(t: OpcodeTable)
    requires t.Valid() && t.Dispatchable()
    ensures Decode(t, Assemble(t, JumpVmgmPgc)) == JumpVmgmPgc
  {
    var cmd := Assemble(t, JumpVmgmPgc);
    assert Opcode(cmd) & 0xFF0F == t.jumpSS by { MaskedOpcodes(t); }
    assert Dispatch(t, t.jumpSS, cmd[2], cmd[3], cmd[4], cmd[5], cmd[6], cmd[7]) == JumpVmgmPgc by {
      DispatchTable(t, cmd[2], cmd[3], cmd[4], cmd[5], cmd[6], cmd[7]);
    }
  }

  lemma DecodeAssembleJumpVtsPtt(t: OpcodeTable, title: bv8, ptt: bv8)
    requires t.Valid() && t.Dispatchable()
    ensures Decode(t, Assemble(t, JumpVtsPtt(title, ptt))) == JumpVtsPtt(title, ptt)
  {
    var cmd := Assemble(t, JumpVtsPtt(title, ptt));
    assert Opcode(cmd) & 0xFF0F == t.jumpVtsPtt by { MaskedOpcodes(t); }
    assert Dispatch(t, t.jumpVtsPtt, cmd[2], cmd[3], cmd[4], cmd[5], cmd[6], cmd[7]) == JumpVtsPtt(title, ptt) by {
      DispatchTable(t, cmd[2], cmd[3], cmd[4], cmd[5], cmd[6], cmd[7]);
    }
  }

  lemma DecodeAssembleSetGprm(t: OpcodeTable, index: bv16, value: bv16)
    requires t.Valid() && t.Dispatchable()
    ensures Decode(t, Assemble(t, SetGprm(index, value))) == SetGprm(index, value)
  {
    var cmd := Assemble(t, SetGprm(index, value));
    assert Opcode(cmd) & 0xFF0F == t.setGprmmd by { MaskedOpcodes(t); }
    assert Dispatch(t, t.setGprmmd, cmd[2], cmd[3], cmd[4], cmd[5], cmd[6], cmd[7]) == SetGprm(index, value) by {
      DispatchTable(t, cmd[2], cmd[3], cmd[4], cmd[5], cmd[6], cmd[7]);
      BE16OfBytes(index);
      BE16OfBytes(value);
    }
  }

  lemma DecodeAssembleLinkPgcn(t: OpcodeTable, n: bv16)
    requires t.Valid() && t.Dispatchable()
    ensures Decode(t, Assemble(t, LinkPgcn(n))) == LinkPgcn(n)
  {
    var cmd := Assemble(t, LinkPgcn(n));
    assert Opcode(cmd) & 0xFF0F == t.linkPgcn by { MaskedOpcodes(t); }
    assert Dispatch(t, t.linkPgcn, cmd[2], cmd[3], cmd[4], cmd[5], cmd[6], cmd[7]) == LinkPgcn(n) by {
      DispatchTable(t, cmd[2], cmd[3], cmd[4], cmd[5], cmd[6], cmd[7]);
      BE16OfBytes(n);
    }
  }

  lemma DecodeAssembleLinkCn(t: OpcodeTable, cell: bv8)
    requires t.Valid() && t.Dispatchable()
    ensures Decode(t, Assemble(t, LinkCn(cell))) == LinkCn(cell)
  {
    var cmd := Assemble(t, LinkCn(cell));
    assert Opcode(cmd) & 0xFF0F == t.linkCn by { MaskedOpcodes(t); }
    assert Dispatch(t, t.linkCn, cmd[2], cmd[3], cmd[4], cmd[5], cmd[6], cmd[7]) == LinkCn(cell) by {
      DispatchTable(t, cmd[2], cmd[3], cmd[4], cmd[5], cmd[6], cmd[7]);
    }
  }

  lemma DecodeAssembleSetHighlightButton(t: OpcodeTable, button: bv8)
    requires t.Valid() && t.Dispatchable()
    ensures Decode(t, Assemble(t, SetHighlightButton(button))) == SetHighlightButton(button)
  {
    var cmd := Assemble(t, SetHighlightButton(button));
    assert Opcode(cmd) & 0xFF0F == t.setHlBtnn1 by { MaskedOpcodes(t); }
    assert Dispatch(t, t.setHlBtnn1, cmd[2], cmd[3], cmd[4], cmd[5], cmd[6], cmd[7]) == SetHighlightButton(button) by {
      DispatchTable(t, cmd[2], cmd[3], cmd[4], cmd[5], cmd[6], cmd[7]);
    }
  }

  /** A command for instruction `i`, with no test and every unused byte 0: the reference encoder. */
  function Assemble(t: OpcodeTable, i: Instruction): Command
  {
    match i
    case Nop => Build(t.nop, 0, 0, 0, 0, 0, 0)
    case Break => Build(t.brk, 0, 0, 0, 0, 0, 0)
    case GotoLine => Build(t.gotoLine, 0, 0, 0, 0, 0, 0)
    case JumpTitle(title) => Build(t.jumpTT, 0, 0, 0, title, 0, 0)
    case CallPgcType(p) => Build(t.callSSVtsm1, 0, 0, 0, p, 0, 0)
    case CallSsOther(f) => Build(t.callSSVtsm1, 0, 0, 0, 0, f << 6, 0)
    case JumpFirstPlay => Build(t.jumpSS, 0, 0, 0, 0, 0, 0)
    case JumpVmgmPgcType(p) => Build(t.jumpSS, 0, 0, 0, 0x40 | p, 0, 0)
    case JumpVtsmPgcType(vts, title, p) => Build(t.jumpSS, 0, title, vts, 0x80 | p, 0, 0)
    case JumpVmgmPgc => Build(t.jumpSS, 0, 0, 0, 0xC0, 0, 0)
    case JumpVtsPtt(title, ptt) => Build(t.jumpVtsPtt, 0, ptt, 0, title, 0, 0)
    case SetGprm(index, value) => Build(t.setGprmmd, Hi(value), Lo(value), Hi(index), Lo(index), 0, 0)
    case LinkPgcn(n) => Build(t.linkPgcn, 0, 0, 0, 0, Hi(n), Lo(n))
    case LinkCn(c) => Build(t.linkCn, 0, 0, 0, 0, 0, c)
    case SetHighlightButton(b) => Build(t.setHlBtnn1, 0, 0, b, 0, 0, 0)
    case Unsupported => Build(t.nop, 0, 0, 0, 0, 0, 0)
  }

  /** The command with opcode word `op` and operand bytes 2 to 7. */
  function Build(op: bv16, b2: bv8, b3: bv8, b4: bv8, b5: bv8, b6: bv8, b7: bv8): (c: Command)
    ensures Opcode(c) == op
  {
    BE16OfBytes(op);
    [Hi(op), Lo(op), b2, b3, b4, b5, b6, b7]
  }
}
