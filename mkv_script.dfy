/**
 * The Matroska script command language of chapter process data
 * (matroska_script_interpretor_c). The one command it knows is
 * `GotoAndPlay(<uid>)`, which plays the chapter with that UID.
 *
 * The argument is the text after the first '(' that follows the command
 * name, up to the next ')' (or the end of the text). It is read as an
 * unsigned decimal number the way std::stoul reads one: leading white
 * space, an optional sign, the longest run of digits, anything after it
 * ignored.
 */
module MkvScript {

  import opened Wrappers
  import opened Navigation

  const GotoAndPlay: string := "GotoAndPlay"

  /** 2 to the 64: the range of unsigned long and of chapter UIDs. */
  const ULongRange: nat := 0x1_0000_0000_0000_0000

  /** The command bytes as text, one character per byte. */
  function Text(bytes: seq<bv8>): (s: string)
    ensures |s| == |bytes|
    ensures forall i :: 0 <= i < |s| ==> s[i] as int == bytes[i] as int
  {
    seq(|bytes|, i requires 0 <= i < |bytes| => (bytes[i] as int) as char)
  }

  /** The text starts with the command name. */
  predicate IsGotoAndPlay(text: string)
  {
    |text| >= |GotoAndPlay| && text[..|GotoAndPlay|] == GotoAndPlay
  }

  /** The first index at or after `from` where `text` holds `c`, or |text| when there is none. */
  function FindFrom(text: string, c: char, from: nat): (k: nat)
    requires from <= |text|
    decreases |text| - from
    ensures from <= k <= |text|
    ensures k < |text| ==> text[k] == c
    ensures forall m :: from <= m < k ==> text[m] != c
  {
    if from == |text| || text[from] == c then from else FindFrom(text, c, from + 1)
  }

  /** The scanning loops of the interpreter: from `from`, step forward until `c` or the end of the text. */
  method Scan(text: string, c: char, from: nat) returns (k: nat)
    requires from <= |text|
    ensures k == FindFrom(text, c, from)
  {
    k := from;
    while k < |text| && text[k] != c
      invariant from <= k <= |text|
      invariant FindFrom(text, c, from) == FindFrom(text, c, k)
      decreases |text| - k
    {
      k := k + 1;
    }
  }

  /** FindFrom finds the first `c`: it is the length of a prefix without `c`, followed by `c` or the end. */
  lemma FindFromIs(text: string, c: char, from: nat, k: nat)
    requires from <= k <= |text|
    requires forall m :: from <= m < k ==> text[m] != c
    requires k == |text| || text[k] == c
    ensures FindFrom(text, c, from) == k
  {
  }

  /**
   * The argument of a GotoAndPlay command: the text after the first '('
   * following the name, up to the next ')' or the end; None when no '('
   * follows the name.
   */
  function Argument(text: string): (r: Option<string>)
    requires IsGotoAndPlay(text)
    ensures r.None? <==> forall k :: |GotoAndPlay| <= k < |text| ==> text[k] != '('
    ensures r.Some? ==> forall k :: 0 <= k < |r.value| ==> r.value[k] != ')'
  {
    var open := FindFrom(text, '(', |GotoAndPlay|);
    if open == |text| then None
    else Some(text[open + 1..FindFrom(text, ')', open + 1)])
  }

  /** A command written out as name, text without '(', '(', an argument without ')', then ')' and anything. */
  lemma ArgumentBetweenParentheses(skipped: string, arg: string, rest: string)
    requires forall k :: 0 <= k < |skipped| ==> skipped[k] != '('
    requires forall k :: 0 <= k < |arg| ==> arg[k] != ')'
    ensures IsGotoAndPlay(GotoAndPlay + skipped + "(" + arg + ")" + rest)
    ensures Argument(GotoAndPlay + skipped + "(" + arg + ")" + rest) == Some(arg)
  {
    var unclosed := GotoAndPlay + skipped + "(" + arg;
    ArgumentUnclosed(skipped, arg);
    var text := unclosed + ")" + rest;
    assert text[..|unclosed|] == unclosed;
    assert text[|unclosed|] == ')';
    ArgumentExtended(unclosed, text, |GotoAndPlay| + |skipped|);
  }

  /** Without a closing ')', the argument runs to the end of the text. */
  lemma ArgumentUnclosed(skipped: string, arg: string)
    requires forall k :: 0 <= k < |skipped| ==> skipped[k] != '('
    requires forall k :: 0 <= k < |arg| ==> arg[k] != ')'
    ensures IsGotoAndPlay(GotoAndPlay + skipped + "(" + arg)
    ensures Argument(GotoAndPlay + skipped + "(" + arg) == Some(arg)
  {
    var text := GotoAndPlay + skipped + "(" + arg;
    var n := |GotoAndPlay|;
    var open := n + |skipped|;
    assert text[..n] == GotoAndPlay;
    assert forall m :: n <= m < open ==> text[m] == skipped[m - n];
    assert text[open] == '(';
    FindFromIs(text, '(', n, open);
    assert forall m :: open + 1 <= m < |text| ==> text[m] == arg[m - open - 1];
    FindFromIs(text, ')', open + 1, |text|);
    assert text[open + 1..|text|] == arg;
  }

  /**
   * An unclosed command `unclosed` whose '(' is at `open`, continued by a
   * ')': the argument stays what it was.
   */
  lemma ArgumentExtended(unclosed: string, text: string, open: nat)
    requires IsGotoAndPlay(unclosed) && |GotoAndPlay| <= open < |unclosed| && unclosed[open] == '('
    requires forall m :: |GotoAndPlay| <= m < open ==> unclosed[m] != '('
    requires forall m :: open < m < |unclosed| ==> unclosed[m] != ')'
    requires |text| > |unclosed| && text[..|unclosed|] == unclosed && text[|unclosed|] == ')'
    ensures IsGotoAndPlay(text)
    ensures Argument(text) == Argument(unclosed)
  {
    var n := |GotoAndPlay|;
    assert text[..n] == unclosed[..n];
    FindFromIs(unclosed, '(', n, open);
    FindFromIs(text, '(', n, open);
    FindFromIs(unclosed, ')', open + 1, |unclosed|);
    FindFromIs(text, ')', open + 1, |unclosed|);
    assert text[open + 1..|unclosed|] == unclosed[open + 1..|unclosed|];
  }

  /*
   * The argument as the interpreter extracts it
   */

  /** The argument as the interpreter extracts it, from the first '(' after the name (or the end of the text). */
  function ArgumentAsWritten(text: string): (r: Option<string>)
    requires IsGotoAndPlay(text)
  {
    ExtractAsWritten(text, FindFrom(text, '(', |GotoAndPlay|))
  }

  /**
   * The text `substr(i + 1, j - i - 1)` of the interpreter, where the scan
   * for '(' stopped at `open` and leaves `i` one past it (or at the end),
   * the scan for ')' leaves `j` on it (or at the end), and `i` moves back
   * by one only when a ')' is found. None where substr throws, because its
   * start is past the end of the text.
   */
  function ExtractAsWritten(text: string, open: nat): (r: Option<string>)
    requires open <= |text|
  {
    var i := if open < |text| then open + 1 else |text|;
    var close := FindFrom(text, ')', i);
    var i' := if close < |text| then i - 1 else i;
    Substr(text, i' + 1, SizeT(close - i' - 1))
  }

  /** std::string::substr: at most `count` characters from `start`; None, for the exception, when `start` is past the end. */
  function Substr(text: string, start: nat, count: nat): Option<string>
  {
    if start > |text| then None
    else Some(text[start..start + if count < |text| - start then count else |text| - start])
  }

  /** An integer converted to size_t: modulo 2 to the 64, by adding or taking away 2 to the 64 until it is in range. */
  function SizeT(x: int): (r: nat)
    decreases if x < 0 then ULongRange - x else x
    ensures r < ULongRange
    ensures 0 <= x < ULongRange ==> r == x
    ensures -(ULongRange as int) <= x < 0 ==> r == x + ULongRange
  {
    if x < 0 then SizeT(x + ULongRange)
    else if x >= ULongRange then SizeT(x - ULongRange)
    else x
  }

  /** Where a ')' follows the '(', the interpreter extracts the argument. */
  lemma ArgumentAsWrittenAgrees(text: string)
    requires IsGotoAndPlay(text) && |text| < ULongRange
    requires FindFrom(text, '(', |GotoAndPlay|) < |text|
    requires FindFrom(text, ')', FindFrom(text, '(', |GotoAndPlay|) + 1) < |text|
    ensures ArgumentAsWritten(text) == Argument(text)
  {
    ExtractAsWrittenClosed(text, FindFrom(text, '(', |GotoAndPlay|));
  }

  /** From a '(' at `open` with a ')' after it, the interpreter extracts what lies between them. */
  lemma ExtractAsWrittenClosed(text: string, open: nat)
    requires open < |text| < ULongRange
    requires FindFrom(text, ')', open + 1) < |text|
    ensures ExtractAsWritten(text, open) == Some(text[open + 1..FindFrom(text, ')', open + 1)])
  {
    var close := FindFrom(text, ')', open + 1);
    assert ExtractAsWritten(text, open) == Substr(text, open + 1, SizeT(close - open - 1));
    assert SizeT(close - open - 1) == close - open - 1;
  }

  /** Without a ')', the interpreter drops the first character of the argument: "GotoAndPlay(42" names chapter 2. */
  lemma ArgumentAsWrittenDropsDigit()
    ensures IsGotoAndPlay("GotoAndPlay(42")
    ensures ArgumentAsWritten("GotoAndPlay(42") == Some("2")
    ensures Argument("GotoAndPlay(42") == Some("42")
  {
    ArgumentUnclosed("", "42");
    assert GotoAndPlay + "" + "(" + "42" == "GotoAndPlay(42";
    var text := "GotoAndPlay(42";
    FindFromIs(text, '(', 11, 11);
    FindFromIs(text, ')', 12, 14);
    assert text[13..14] == "2";
  }

  /** Without a '(', substr is asked to start past the end of the text and throws. */
  lemma ArgumentAsWrittenThrows(text: string)
    requires IsGotoAndPlay(text)
    requires forall k :: |GotoAndPlay| <= k < |text| ==> text[k] != '('
    ensures ArgumentAsWritten(text).None?
  {
    FindFromIs(text, '(', |GotoAndPlay|, |text|);
  }

  /**
   * Two malformed commands the interpreter throws on: "GotoAndPlay" has no
   * '(', so substr is asked to start past the end (out_of_range), and
   * "GotoAndPlay()" has an empty argument, which stoul refuses
   * (invalid_argument). Neither names a chapter.
   */
  lemma MalformedCommandsThrow()
    ensures IsGotoAndPlay(GotoAndPlay) && ArgumentAsWritten(GotoAndPlay).None?
    ensures IsGotoAndPlay(GotoAndPlay + "()") && ArgumentAsWritten(GotoAndPlay + "()") == Some("")
    ensures Stoul("").None?
    ensures CommandUid(GotoAndPlay).None? && CommandUid(GotoAndPlay + "()").None?
  {
    ArgumentAsWrittenThrows(GotoAndPlay);
    ArgumentBetweenParentheses("", "", "");
    var text := GotoAndPlay + "()";
    assert GotoAndPlay + "" + "(" + "" + ")" + "" == text;
    FindFromIs(text, '(', |GotoAndPlay|, |GotoAndPlay|);
    ExtractAsWrittenClosed(text, |GotoAndPlay|);
    assert text[|GotoAndPlay| + 1..|GotoAndPlay| + 1] == "";
  }

  /*
   * std::stoul
   */

  /** isspace in the C locale. */
  predicate IsSpace(c: char)
  {
    c == ' ' || 9 <= c as int <= 13
  }

  predicate IsDigit(c: char)
  {
    '0' <= c <= '9'
  }

  predicate AllDigits(s: string)
  {
    forall k :: 0 <= k < |s| ==> IsDigit(s[k])
  }

  /** The text after its leading white space. */
  function SkipSpaces(s: string): (r: string)
    ensures |r| <= |s|
    ensures forall k :: 0 <= k < |s| - |r| ==> IsSpace(s[k])
    ensures |r| > 0 ==> !IsSpace(r[0])
  {
    if |s| > 0 && IsSpace(s[0]) then SkipSpaces(s[1..]) else s
  }

  /** What SkipSpaces leaves is the end of the text. */
  lemma {:induction false} SkipSpacesIsSuffix(s: string)
    ensures SkipSpaces(s) == s[|s| - |SkipSpaces(s)|..]
  {
    if |s| > 0 && IsSpace(s[0]) {
      SkipSpacesIsSuffix(s[1..]);
      assert s[1..][|s| - 1 - |SkipSpaces(s[1..])|..] == s[|s| - |SkipSpaces(s)|..];
    }
  }

  /** The length of the run of digits the text starts with. */
  function DigitCount(s: string): (n: nat)
    ensures n <= |s| && AllDigits(s[..n])
    ensures n < |s| ==> !IsDigit(s[n])
  {
    if |s| > 0 && IsDigit(s[0]) then
      var n := 1 + DigitCount(s[1..]);
      assert forall k :: 1 <= k < n ==> s[..n][k] == s[1..][..n - 1][k - 1];
      n
    else 0
  }

  /** The value of a string of decimal digits. */
  function DecimalValue(ds: string): nat
    requires AllDigits(ds)
  {
    if |ds| == 0 then 0
    else DecimalValue(ds[..|ds| - 1]) * 10 + (ds[|ds| - 1] as int - '0' as int)
  }

  /**
   * std::stoul on `s`: None where it throws, because no digit follows the
   * white space and sign (invalid_argument) or the digits exceed unsigned
   * long (out_of_range). A '-' negates modulo 2 to the 64, as strtoul does
   * (written out: 2 to the 64 minus the value, and 0 for 0).
   */
  function Stoul(s: string): (r: Option<nat>)
    ensures r.Some? ==> r.value < ULongRange
  {
    ParseSigned(SkipSpaces(s))
  }

  /** The number after the white space: an optional sign, then the digits. */
  function ParseSigned(t: string): (r: Option<nat>)
    ensures r.Some? ==> r.value < ULongRange
  {
    if |t| > 0 && (t[0] == '+' || t[0] == '-') then ParseMagnitude(t[1..], t[0] == '-')
    else ParseMagnitude(t, false)
  }

  /** The digits the text starts with, negated modulo 2 to the 64 when `negative`. */
  function ParseMagnitude(u: string, negative: bool): (r: Option<nat>)
    ensures r.Some? ==> r.value < ULongRange
  {
    var n := DigitCount(u);
    if n == 0 then None
    else
      var magnitude := DecimalValue(u[..n]);
      if magnitude >= ULongRange then None
      else Some(if negative && magnitude > 0 then ULongRange - magnitude else magnitude)
  }

  /** stoul of text with no digit after the white space and sign throws. */
  lemma StoulNoDigits(s: string, t: string)
    requires t == (if |SkipSpaces(s)| > 0 && (SkipSpaces(s)[0] == '+' || SkipSpaces(s)[0] == '-') then SkipSpaces(s)[1..] else SkipSpaces(s))
    requires |t| == 0 || !IsDigit(t[0])
    ensures Stoul(s).None?
  {
  }

  /** stoul skips leading white space. */
  lemma StoulSkipsSpace(c: char, s: string)
    requires IsSpace(c)
    ensures Stoul([c] + s) == Stoul(s)
  {
    assert ([c] + s)[1..] == s;
  }

  /** A sign before the digits: '+' keeps their value, '-' negates it modulo 2 to the 64. */
  lemma StoulSigned(sign: char, ds: string, rest: string)
    requires sign == '+' || sign == '-'
    requires |ds| >= 1 && AllDigits(ds) && DecimalValue(ds) < ULongRange
    requires |rest| == 0 || !IsDigit(rest[0])
    ensures Stoul([sign] + (ds + rest))
         == Some(if sign == '-' && DecimalValue(ds) > 0 then ULongRange - DecimalValue(ds) else DecimalValue(ds))
  {
    var s := [sign] + (ds + rest);
    assert SkipSpaces(s) == s;
    assert s[1..] == ds + rest;
    MagnitudeOfDigits(ds, rest, sign == '-');
  }

  /** The digits a text starts with, when a non-digit or the end follows them and their value is an unsigned long. */
  lemma MagnitudeOfDigits(ds: string, rest: string, negative: bool)
    requires |ds| >= 1 && AllDigits(ds) && DecimalValue(ds) < ULongRange
    requires |rest| == 0 || !IsDigit(rest[0])
    ensures ParseMagnitude(ds + rest, negative)
         == Some(if negative && DecimalValue(ds) > 0 then ULongRange - DecimalValue(ds) else DecimalValue(ds))
  {
    DigitRun(ds, rest);
    assert (ds + rest)[..|ds|] == ds;
  }

  /** The decimal digits of `n`, without leading zeros. */
  function DecimalString(n: nat): (s: string)
    ensures |s| >= 1 && AllDigits(s)
    ensures s[0] == '0' ==> n == 0
  {
    var digit := ('0' as int + n % 10) as char;
    if n < 10 then [digit] else DecimalString(n / 10) + [digit]
  }

  /** The digits of `n` have the value `n`. */
  lemma {:induction false} DecimalValueOfString(n: nat)
    ensures DecimalValue(DecimalString(n)) == n
  {
    var s := DecimalString(n);
    if n >= 10 {
      DecimalValueOfString(n / 10);
      assert s[..|s| - 1] == DecimalString(n / 10);
    }
  }

  /** stoul reads back the digits of any unsigned long, whatever non-digit text follows them. */
  lemma StoulDecimalString(n: nat, rest: string)
    requires n < ULongRange
    requires |rest| == 0 || !IsDigit(rest[0])
    ensures Stoul(DecimalString(n) + rest) == Some(n)
  {
    DecimalValueOfString(n);
    StoulDigits(DecimalString(n), rest);
  }

  /** stoul of a run of digits followed by a non-digit, when the run's value is an unsigned long. */
  lemma StoulDigits(ds: string, rest: string)
    requires |ds| >= 1 && AllDigits(ds) && DecimalValue(ds) < ULongRange
    requires |rest| == 0 || !IsDigit(rest[0])
    ensures Stoul(ds + rest) == Some(DecimalValue(ds))
  {
    var s := ds + rest;
    assert s[0] == ds[0];
    assert SkipSpaces(s) == s;
    assert ParseSigned(s) == ParseMagnitude(s, false);
    MagnitudeOfDigits(ds, rest, false);
  }

  /** stoul of a run of digits whose value exceeds unsigned long throws out_of_range. */
  lemma StoulOutOfRange(ds: string, rest: string)
    requires |ds| >= 1 && AllDigits(ds) && DecimalValue(ds) >= ULongRange
    requires |rest| == 0 || !IsDigit(rest[0])
    ensures Stoul(ds + rest).None?
  {
    var s := ds + rest;
    assert s[0] == ds[0];
    assert SkipSpaces(s) == s;
    assert ParseSigned(s) == ParseMagnitude(s, false);
    DigitRun(ds, rest);
    assert s[..|ds|] == ds;
  }

  /** The digit run of digits followed by a non-digit is exactly those digits. */
  lemma {:induction false} DigitRun(ds: string, rest: string)
    requires AllDigits(ds)
    requires |rest| == 0 || !IsDigit(rest[0])
    ensures DigitCount(ds + rest) == |ds|
  {
    if |ds| > 0 {
      assert (ds + rest)[1..] == ds[1..] + rest;
      DigitRun(ds[1..], rest);
    } else {
      assert ds + rest == rest;
    }
  }

  /*
   * The interpreter
   */

  /** The UID a script command names, when it is a GotoAndPlay command whose argument reads as a number. */
  function CommandUid(text: string): (r: Option<nat>)
    ensures r.Some? ==> IsGotoAndPlay(text) && Argument(text).Some? && r == Stoul(Argument(text).value)
    ensures !IsGotoAndPlay(text) ==> r.None?
  {
    if !IsGotoAndPlay(text) then None
    else match Argument(text)
      case None => None
      case Some(arg) => Stoul(arg)
  }

  /** The command that plays chapter `uid`. */
  function GotoAndPlayCommand(uid: nat): string
  {
    GotoAndPlay + "(" + DecimalString(uid) + ")"
  }

  /** The command written for a chapter UID names that UID. */
  lemma CommandUidOfCommand(uid: nat)
    requires uid < ULongRange
    ensures CommandUid(GotoAndPlayCommand(uid)) == Some(uid)
  {
    var ds := DecimalString(uid);
    assert forall k :: 0 <= k < |ds| ==> ds[k] != ')' by {
      forall k | 0 <= k < |ds| ensures ds[k] != ')' {
        assert IsDigit(ds[k]);
      }
    }
    ArgumentBetweenParentheses("", ds, "");
    assert GotoAndPlay + "" + "(" + ds + ")" + "" == GotoAndPlayCommand(uid);
    StoulDecimalString(uid, "");
    assert ds + "" == ds;
  }

  /** The chapter a script command plays, with its segment: the chapter FindVChapter finds for the UID. */
  function ScriptTarget(vm: Navigator, command: seq<bv8>): (r: Option<Jump>)
    ensures r.Some? ==> CommandUid(Text(command)).Some? && r.value.chapter.uid == CommandUid(Text(command)).value
    ensures r.Some? ==> r.value.segment in vm.segments && InSegment(r.value.chapter, r.value.segment)
    ensures CommandUid(Text(command)).Some? && r.None? ==>
      forall s, n :: s in vm.segments && InSegment(n, s) ==> n.uid != CommandUid(Text(command)).value
  {
    match CommandUid(Text(command))
    case None => None
    case Some(uid) => vm.Browse(ByUid(uid))
  }

  /** The jump a script command asks for: none when EnterAndLeave takes care of entering the chapter. */
  function ScriptJumps(vm: Navigator, command: seq<bv8>): (r: seq<Jump>)
    ensures |r| <= 1
    ensures |r| == 1 ==> ScriptTarget(vm, command) == Some(r[0])
    ensures |r| == 1 <==>
      (ScriptTarget(vm, command).Some? && !vm.enterAndLeave(ScriptTarget(vm, command).value.chapter, vm.currentChapter))
  {
    match ScriptTarget(vm, command)
    case None => []
    case Some(j) => if vm.enterAndLeave(j.chapter, vm.currentChapter) then [] else [j]
  }

  /** The script interpreter, with the navigator its jumps go to. */
  class ScriptInterpreter {
    const vm: Navigator

    constructor (vm: Navigator)
      ensures this.vm == vm
    {
      this.vm := vm;
    }

    /**
     * matroska_script_interpretor_c::Interpret: true when the command
     * names a chapter that exists; playback jumps there unless
     * EnterAndLeave already took care of it.
     */
    method Interpret(command: seq<bv8>) returns (r: bool)
      modifies vm
      ensures r <==> ScriptTarget(vm, command).Some?
      ensures vm.jumps == old(vm.jumps) + ScriptJumps(vm, command)
    {
      r := false;
      var text := Text(command);
      if |text| >= |GotoAndPlay| && text[..|GotoAndPlay|] == GotoAndPlay {
        // find the (
        var i := Scan(text, '(', |GotoAndPlay|);
        if i < |text| {
          i := i + 1;
          // find the )
          var j := Scan(text, ')', i);
          assert CommandUid(text) == Stoul(text[i..j]);
          var uid := Stoul(text[i..j]);
          if uid.Some? {
            var found := vm.Browse(ByUid(uid.value));
            if found.Some? {
              if !vm.enterAndLeave(found.value.chapter, vm.currentChapter) {
                vm.JumpTo(found.value.segment, found.value.chapter);
              }
              r := true;
            }
          }
        }
      }
    }
  }
}
