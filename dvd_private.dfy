/**
 * The private data of a Matroska chapter's DVD codec: one level byte
 * (SS, LU, TT, PGC, PG, PTT or CN) followed by the fields of that level.
 * The interpreter finds chapters by testing this data with the Match*
 * predicates, and a chapter's title number is read from it.
 *
 * A chapter whose DVD codec has no private data is `None`.
 */
module DvdPrivate {

  import opened Wrappers

  /** The private data of a DVD chapter codec; None when the codec has none. */
  type Blob = Option<seq<bv8>>

  const LevelSS: bv8 := 0x30
  const LevelLU: bv8 := 0x2A
  const LevelTT: bv8 := 0x28
  const LevelPGC: bv8 := 0x20
  const LevelPG: bv8 := 0x18
  const LevelPTT: bv8 := 0x10
  const LevelCN: bv8 := 0x08

  /** The big-endian 16-bit value of two bytes. */
  function BE16(hi: bv8, lo: bv8): (v: bv16)
    ensures (v >> 8) as bv8 == hi && (v & 0xFF) as bv8 == lo
  {
    ((hi as bv16) << 8) | (lo as bv16)
  }

  /** Two bytes are recovered from their big-endian value. */
  lemma BE16Injective(a: bv8, b: bv8, c: bv8, d: bv8)
    ensures BE16(a, b) == BE16(c, d) <==> a == c && b == d
  {
  }

  /** The high byte of a 16-bit value. */
  function Hi(v: bv16): bv8 { (v >> 8) as bv8 }

  /** The low byte of a 16-bit value. */
  function Lo(v: bv16): bv8 { (v & 0xFF) as bv8 }

  /** A 16-bit value is rebuilt from its two bytes. */
  lemma BE16OfBytes(v: bv16)
    ensures BE16(Hi(v), Lo(v)) == v
  {
  }

  /*
   * The Match* predicates
   */

  /** The data is the SS level (the domain of a DVD structure). */
  predicate MatchIsDomain(data: Blob)
  {
    data.Some? && |data.value| >= 1 && data.value[0] == LevelSS
  }

  /** The data is the SS level of the video manager. */
  predicate MatchIsVMG(data: Blob)
  {
    data.Some? && |data.value| >= 2 && data.value[0] == LevelSS && data.value[1] == 0xC0
  }

  /** The data is the SS level of video title set `title`. */
  predicate MatchVTSNumber(data: Blob, title: bv16)
  {
    data.Some? && |data.value| >= 4 && data.value[0] == LevelSS && data.value[1] == 0x80
    && BE16(data.value[2], data.value[3]) == title
  }

  /** The data is the SS level of the menu of video title set `title`. */
  predicate MatchVTSMNumber(data: Blob, title: bv8)
  {
    data.Some? && |data.value| >= 4 && data.value[0] == LevelSS && data.value[1] == 0x40
    && data.value[3] == title
  }

  /** The data is the TT level of title `title`; the stored number is 16 bits wide. */
  predicate MatchTitleNumber(data: Blob, title: bv8)
  {
    data.Some? && |data.value| >= 4 && data.value[0] == LevelTT
    && BE16(data.value[1], data.value[2]) == title as bv16
  }

  /** The data is a PGC of type `pgcType` (low nibble of byte 3). */
  predicate MatchPgcType(data: Blob, pgcType: bv8)
  {
    data.Some? && |data.value| >= 8 && data.value[0] == LevelPGC
    && data.value[3] & 0x0F == pgcType
  }

  /** The data is PGC number `pgcn`. */
  predicate MatchPgcNumber(data: Blob, pgcn: bv16)
  {
    data.Some? && |data.value| >= 8 && data.value[0] == LevelPGC
    && BE16(data.value[1], data.value[2]) == pgcn
  }

  /** The data is part-of-title (chapter) number `ptt`. */
  predicate MatchChapterNumber(data: Blob, ptt: bv8)
  {
    data.Some? && |data.value| >= 2 && data.value[0] == LevelPTT && data.value[1] == ptt
  }

  /** The data is cell number `cell`. */
  predicate MatchCellNumber(data: Blob, cell: bv8)
  {
    data.Some? && |data.value| >= 5 && data.value[0] == LevelCN && data.value[3] == cell
  }

  /** One of the Match* predicates with its argument: what a browse of the chapters looks for. */
  datatype Matcher =
    | IsDomain
    | IsVMG
    | VTSNumber(vts: bv16)
    | VTSMNumber(vtsm: bv8)
    | TitleNumber(title: bv8)
    | PgcType(pgcType: bv8)
    | PgcNumber(pgcn: bv16)
    | ChapterNumber(ptt: bv8)
    | CellNumber(cell: bv8)

  predicate Matches(m: Matcher, data: Blob)
  {
    match m
    case IsDomain => MatchIsDomain(data)
    case IsVMG => MatchIsVMG(data)
    case VTSNumber(v) => MatchVTSNumber(data, v)
    case VTSMNumber(v) => MatchVTSMNumber(data, v)
    case TitleNumber(t) => MatchTitleNumber(data, t)
    case PgcType(t) => MatchPgcType(data, t)
    case PgcNumber(n) => MatchPgcNumber(data, n)
    case ChapterNumber(p) => MatchChapterNumber(data, p)
    case CellNumber(c) => MatchCellNumber(data, c)
  }

  /** The level byte each matcher requires. */
  function Level(m: Matcher): bv8
  {
    match m
    case IsDomain => LevelSS
    case IsVMG => LevelSS
    case VTSNumber(_) => LevelSS
    case VTSMNumber(_) => LevelSS
    case TitleNumber(_) => LevelTT
    case PgcType(_) => LevelPGC
    case PgcNumber(_) => LevelPGC
    case ChapterNumber(_) => LevelPTT
    case CellNumber(_) => LevelCN
  }

  /** The fewest bytes of private data each matcher accepts. */
  function MinLength(m: Matcher): nat
  {
    match m
    case IsDomain => 1
    case IsVMG => 2
    case VTSNumber(_) => 4
    case VTSMNumber(_) => 4
    case TitleNumber(_) => 4
    case PgcType(_) => 8
    case PgcNumber(_) => 8
    case ChapterNumber(_) => 2
    case CellNumber(_) => 5
  }

  /**
   * Every matcher rejects missing data and data shorter than its minimum
   * length, and accepts only data that starts with its level byte.
   */
  lemma MatchGuards(m: Matcher, data: Blob)
    ensures Matches(m, data) ==>
      data.Some? && |data.value| >= MinLength(m) && data.value[0] == Level(m)
  {
  }

  /** A chapter's private data matches no two matchers of different levels. */
  lemma MatchersExclusive(m1: Matcher, m2: Matcher, data: Blob)
    requires Level(m1) != Level(m2)
    ensures !(Matches(m1, data) && Matches(m2, data))
  {
  }

  /** The three kinds of SS data (video manager, title set, title-set menu) are told apart by byte 1. */
  lemma DomainKindsExclusive(data: Blob, vts: bv16, vtsm: bv8)
    ensures !(MatchIsVMG(data) && MatchVTSNumber(data, vts))
    ensures !(MatchIsVMG(data) && MatchVTSMNumber(data, vtsm))
    ensures !(MatchVTSNumber(data, vts) && MatchVTSMNumber(data, vtsm))
    ensures MatchIsVMG(data) || MatchVTSNumber(data, vts) || MatchVTSMNumber(data, vtsm) ==> MatchIsDomain(data)
  {
  }

  /** Which Match* predicate a matcher stands for, ignoring its argument. */
  function Kind(m: Matcher): nat
  {
    match m
    case IsDomain => 0
    case IsVMG => 1
    case VTSNumber(_) => 2
    case VTSMNumber(_) => 3
    case TitleNumber(_) => 4
    case PgcType(_) => 5
    case PgcNumber(_) => 6
    case ChapterNumber(_) => 7
    case CellNumber(_) => 8
  }

  /** A datum matches each Match* predicate for at most one argument. */
  lemma MatchArgumentUnique(m1: Matcher, m2: Matcher, data: Blob)
    requires Kind(m1) == Kind(m2) && Matches(m1, data) && Matches(m2, data)
    ensures m1 == m2
  {
    if m1.VTSNumber? {
      BE16Injective(data.value[2], data.value[3], data.value[2], data.value[3]);
    }
  }

  /*
   * GetTitleNumber
   */

  /** A 16-bit value converted to int16_t (two's complement). */
  function ToInt16(v: bv16): (r: int)
    ensures -0x8000 <= r < 0x8000
    ensures r >= 0 <==> v as int < 0x8000
    ensures r % 0x10000 == v as int
  {
    var x := v as int;
    if x < 0x8000 then x else x - 0x10000
  }

  /**
   * The title number of a chapter's DVD private data: the 16-bit value of
   * bytes 2 and 3 of SS data, or -1 for any other data. The data must hold
   * both bytes it reads.
   */
  function GetTitleNumber(data: seq<bv8>): (r: int)
    ensures r == -1 <==> !(|data| >= 4 && data[0] == LevelSS) || BE16(data[2], data[3]) == 0xFFFF
    ensures -0x8000 <= r < 0x8000
  {
    if |data| >= 4 && data[0] == LevelSS then ToInt16(BE16(data[2], data[3])) else -1
  }

  /** The title number stored by a video-title-set datum is the one MatchVTSNumber finds it by. */
  lemma TitleNumberOfVTS(data: seq<bv8>, vts: bv16)
    requires MatchVTSNumber(Some(data), vts) && vts as int < 0x8000
    ensures GetTitleNumber(data) == vts as int
  {
  }

  /** A positive title number is found again by MatchVTSNumber of the same number, when the datum is a title set. */
  lemma PositiveTitleNumberFindsVTS(data: seq<bv8>)
    requires |data| >= 4 && data[0] == LevelSS && data[1] == 0x80 && GetTitleNumber(data) > 0
    ensures MatchVTSNumber(Some(data), GetTitleNumber(data) as bv16)
  {
  }

  /** One read of GetTitleNumber and MatchIsDomain as written: a byte, or a read past the end. */
  datatype Read<T> = Value(v: T) | OutOfBounds

  /** GetTitleNumber as written: it checks for 3 bytes but reads byte 3. */
  function GetTitleNumberAsWritten(data: seq<bv8>): (r: Read<int>)
    ensures r.OutOfBounds? <==> |data| == 3 && data[0] == LevelSS
  {
    if |data| >= 3 then
      if data[0] == LevelSS then
        if 3 < |data| then Value(ToInt16(BE16(data[2], data[3]))) else OutOfBounds
      else Value(-1)
    else Value(-1)
  }

  /** Three bytes of SS data make GetTitleNumber read one byte past the data. */
  lemma GetTitleNumberOverread()
    ensures GetTitleNumberAsWritten([LevelSS, 0x80, 0x00]).OutOfBounds?
  {
  }

  /** Where the as-written GetTitleNumber stays in bounds, it agrees with the guarded one. */
  lemma GetTitleNumberAgrees(data: seq<bv8>)
    requires !(|data| == 3 && data[0] == LevelSS)
    ensures GetTitleNumberAsWritten(data) == Value(GetTitleNumber(data))
  {
  }

  /** MatchIsDomain as written: a null check, but no length check, before reading byte 0. */
  function MatchIsDomainAsWritten(data: Blob): (r: Read<bool>)
    ensures r.OutOfBounds? <==> data == Some([])
  {
    if data.None? then Value(false)
    else if |data.value| == 0 then OutOfBounds
    else Value(data.value[0] == LevelSS)
  }

  /** Empty private data makes MatchIsDomain read past its end; elsewhere it agrees with the guarded one. */
  lemma MatchIsDomainOverread(data: Blob)
    ensures MatchIsDomainAsWritten(Some([])).OutOfBounds?
    ensures data != Some([]) ==> MatchIsDomainAsWritten(data) == Value(MatchIsDomain(data))
  {
  }
}
