/**
 * The chapter codecs: the commands a Matroska chapter carries
 * (ChapterProcessCommand elements, sorted by their time tag into the
 * commands run during, on entering and on leaving the chapter), and the
 * Enter and Leave of the DVD and script codecs, which run those commands
 * through their interpreters.
 */
module ChapterCodec {

  import opened Wrappers
  import opened Navigation
  import opened DvdVm
  import opened MkvScript

  /** The children of a ChapterProcessCommand: its time tag, a command payload, or any other element. */
  datatype ProcessElement = ProcessTime(time: nat) | ProcessData(payload: seq<bv8>) | OtherElement

  /** 0xFFFFFFFF, the time of a command without a ChapterProcessTime. */
  const NoTime: nat := 0xFFFF_FFFF

  /** The first ChapterProcessTime of a command, truncated to 32 bits; NoTime when it has none. */
  function CodecTime(elements: seq<ProcessElement>): (t: nat)
    ensures t < 0x1_0000_0000
    ensures (forall k :: 0 <= k < |elements| ==> !elements[k].ProcessTime?) ==> t == NoTime
  {
    if |elements| == 0 then NoTime
    else if elements[0].ProcessTime? then elements[0].time % 0x1_0000_0000
    else CodecTime(elements[1..])
  }

  /** The time of a command is that of its first time tag, modulo 2 to the 32. */
  lemma {:induction false} CodecTimeOfFirst(elements: seq<ProcessElement>, k: nat)
    requires k < |elements| && elements[k].ProcessTime?
    requires forall m :: 0 <= m < k ==> !elements[m].ProcessTime?
    ensures CodecTime(elements) == elements[k].time % 0x1_0000_0000
  {
    if k > 0 {
      assert !elements[0].ProcessTime?;
      CodecTimeOfFirst(elements[1..], k - 1);
    }
  }

  /** The payloads of the ChapterProcessData elements of a command, in order. */
  function Payloads(elements: seq<ProcessElement>): (r: seq<seq<bv8>>)
    ensures |r| <= |elements|
  {
    if |elements| == 0 then []
    else
      var last := elements[|elements| - 1];
      Payloads(elements[..|elements| - 1]) + if last.ProcessData? then [last.payload] else []
  }

  /** Appending one more item after a concatenation. */
  lemma AppendOne<T>(a: seq<T>, p: seq<T>, x: T)
    ensures a + (p + [x]) == (a + p) + [x]
  {
  }

  /** The payloads of the first i+1 elements: those of the first i, then that of element i if it carries one. */
  lemma PayloadsNext(elements: seq<ProcessElement>, i: nat)
    requires i < |elements|
    ensures Payloads(elements[..i + 1]) ==
      Payloads(elements[..i]) + if elements[i].ProcessData? then [elements[i].payload] else []
  {
    assert elements[..i + 1][..i] == elements[..i];
  }

  /** The payloads of two runs of elements are those of the first, then those of the second. */
  lemma {:induction false} PayloadsAppend(a: seq<ProcessElement>, b: seq<ProcessElement>)
    ensures Payloads(a + b) == Payloads(a) + Payloads(b)
    decreases |b|
  {
    if |b| == 0 {
      assert a + b == a;
    } else {
      var b' := b[..|b| - 1];
      assert (a + b)[..|a + b| - 1] == a + b';
      PayloadsAppend(a, b');
    }
  }

  /** One element contributes its payload when it is a ChapterProcessData, and nothing otherwise. */
  lemma PayloadsOfOne(e: ProcessElement)
    ensures Payloads([e]) == if e.ProcessData? then [e.payload] else []
  {
    assert [e][..0] == [];
  }

  /** The first loop of AddCommand: the time of the first ChapterProcessTime, NoTime when there is none. */
  method FindCodecTime(elements: seq<ProcessElement>) returns (codecTime: nat)
    ensures codecTime == CodecTime(elements)
  {
    codecTime := NoTime;
    var i := 0;
    while i < |elements|
      invariant 0 <= i <= |elements|
      invariant CodecTime(elements) == CodecTime(elements[i..])
    {
      if elements[i].ProcessTime? {
        codecTime := elements[i].time % 0x1_0000_0000;
        break;
      }
      assert elements[i..][1..] == elements[i + 1..];
      i := i + 1;
    }
  }

  /** The commands of a chapter codec, by when they run (chapter_codec_cmds_c). */
  class ChapterCodecCmds {
    /** Time 0. */
    var during: seq<seq<bv8>>
    /** Time 1. */
    var enter: seq<seq<bv8>>
    /** Time 2. */
    var leave: seq<seq<bv8>>

    constructor ()
      ensures during == [] && enter == [] && leave == []
    {
      during := [];
      enter := [];
      leave := [];
    }

    /**
     * AddCommand: the payloads of a ChapterProcessCommand go, in order, to
     * the commands of its time (0 during, 1 enter, 2 leave); a command of
     * any other time, or without one, adds nothing.
     */
    method AddCommand(elements: seq<ProcessElement>)
      modifies this
      ensures during == old(during) + if CodecTime(elements) == 0 then Payloads(elements) else []
      ensures enter == old(enter) + if CodecTime(elements) == 1 then Payloads(elements) else []
      ensures leave == old(leave) + if CodecTime(elements) == 2 then Payloads(elements) else []
    {
      var codecTime := FindCodecTime(elements);
      var i := 0;
      while i < |elements|
        invariant 0 <= i <= |elements|
        invariant during == old(during) + if codecTime == 0 then Payloads(elements[..i]) else []
        invariant enter == old(enter) + if codecTime == 1 then Payloads(elements[..i]) else []
        invariant leave == old(leave) + if codecTime == 2 then Payloads(elements[..i]) else []
      {
        PayloadsNext(elements, i);
        if elements[i].ProcessData? {
          if codecTime == 0 {
            AppendOne(old(during), Payloads(elements[..i]), elements[i].payload);
            during := during + [elements[i].payload];
          } else if codecTime == 1 {
            AppendOne(old(enter), Payloads(elements[..i]), elements[i].payload);
            enter := enter + [elements[i].payload];
          } else if codecTime == 2 {
            AppendOne(old(leave), Payloads(elements[..i]), elements[i].payload);
            leave := leave + [elements[i].payload];
          }
        } else {
          assert Payloads(elements[..i]) + [] == Payloads(elements[..i]);
        }
        i := i + 1;
      }
      assert elements[..i] == elements;
      assert Payloads(elements[..i]) == Payloads(elements);
    }
  }

  /*
   * The DVD codec
   */

  /**
   * The number of 8-byte commands EnterLeaveHelper runs from a buffer: the
   * count in byte 0, capped by the commands the rest of the buffer holds.
   */
  function WordCount(buffer: seq<bv8>): (n: nat)
    ensures |buffer| == 0 ==> n == 0
    ensures |buffer| > 0 ==> n <= buffer[0] as int && 1 + 8 * n <= |buffer|
    ensures |buffer| > 0 ==> n == buffer[0] as int || |buffer| < 1 + 8 * (n + 1)
  {
    if |buffer| == 0 then 0
    else
      var room := (|buffer| - 1) / 8;
      if buffer[0] as int < room then buffer[0] as int else room
  }

  /** The commands EnterLeaveHelper runs from a buffer: the 8 bytes at 1 + 8k, for each k below WordCount. */
  function Words(buffer: seq<bv8>): (r: seq<seq<bv8>>)
    ensures |r| == WordCount(buffer)
    ensures forall k :: 0 <= k < |r| ==> r[k] == buffer[1 + 8 * k..9 + 8 * k]
  {
    seq(WordCount(buffer), k requires 0 <= k < WordCount(buffer) => buffer[1 + 8 * k..9 + 8 * k])
  }

  /** The commands of a list of buffers, buffer after buffer. */
  function AllWords(container: seq<seq<bv8>>): seq<seq<bv8>>
  {
    if |container| == 0 then []
    else AllWords(container[..|container| - 1]) + Words(container[|container| - 1])
  }

  /** An empty buffer runs no command. */
  lemma AllWordsSkipsEmpty(container: seq<seq<bv8>>)
    requires |container| > 0 && |container[|container| - 1]| == 0
    ensures AllWords(container) == AllWords(container[..|container| - 1])
  {
    assert Words(container[|container| - 1]) == [];
  }

  /** No buffer has no commands; all of them have the commands of the whole container. */
  lemma AllWordsEnds(container: seq<seq<bv8>>)
    ensures AllWords(container[..0]) == []
    ensures AllWords(container[..|container|]) == AllWords(container)
  {
    assert container[..0] == [];
    assert container[..|container|] == container;
  }

  /** The commands of the first it+1 buffers: those of the first `it`, then those of buffer `it`. */
  lemma AllWordsNext(container: seq<seq<bv8>>, it: nat)
    requires it < |container|
    ensures AllWords(container[..it + 1]) == AllWords(container[..it]) + Words(container[it])
  {
    assert container[..it + 1][..it] == container[..it];
  }

  /** What running a list of DVD commands did: any result, the registers after it, the jumps asked for. */
  datatype Run = Run(result: bool, prm: map<nat, bv16>, jumps: seq<Jump>)

  /** Two runs one after the other. */
  function Then(first: Run, second: Run): Run
  {
    Run(first.result || second.result, second.prm, first.jumps + second.jumps)
  }

  /** What one command does to registers: DvdInterpreter.Effect, or any other such function. */
  type Effect = (map<nat, bv16>, seq<bv8>) -> Outcome

  /** A run followed by one more command: its result joins the run's, its registers follow, its jump is appended. */
  function Step(effect: Effect, before: Run, w: seq<bv8>): Run
  {
    var o := effect(before.prm, w);
    Run(before.result || o.result, o.prm, before.jumps + OptionToSeq(o.jump))
  }

  /**
   * The commands run one after the other from registers `regs`, each on the
   * registers the one before it left.
   */
  function RunWords(effect: Effect, words: seq<seq<bv8>>, regs: map<nat, bv16>): (r: Run)
    ensures |r.jumps| <= |words|
  {
    if |words| == 0 then Run(false, regs, [])
    else Step(effect, RunWords(effect, words[..|words| - 1], regs), words[|words| - 1])
  }

  /** Running two lists of commands is running the first, then the second on the registers it left. */
  lemma {:induction false} RunWordsAppend(effect: Effect, a: seq<seq<bv8>>, b: seq<seq<bv8>>, regs: map<nat, bv16>)
    ensures RunWords(effect, a + b, regs) == Then(RunWords(effect, a, regs), RunWords(effect, b, RunWords(effect, a, regs).prm))
    decreases |b|
  {
    if |b| == 0 {
      assert a + b == a;
    } else {
      var b' := b[..|b| - 1];
      assert (a + b)[..|a + b| - 1] == a + b';
      assert (a + b)[|a + b| - 1] == b[|b| - 1];
      RunWordsAppend(effect, a, b', regs);
    }
  }

  /** The commands of an interpreter, run in order, are true exactly when one of them jumps. */
  lemma {:induction false} RunWordsResult(it: DvdInterpreter, words: seq<seq<bv8>>, regs: map<nat, bv16>)
    ensures RunWords(it.Effect, words, regs).result <==> |RunWords(it.Effect, words, regs).jumps| > 0
  {
    if |words| > 0 {
      RunWordsResult(it, words[..|words| - 1], regs);
    }
  }

  /** A command whose test fails, or that is not 8 bytes, is skipped: it changes no register and asks for no jump. */
  lemma RunWordsSkipsInert(it: DvdInterpreter, words: seq<seq<bv8>>, w: seq<bv8>, regs: map<nat, bv16>)
    requires |w| != 8 || !DvdCommand.Passes(it.table, w, RunWords(it.Effect, words, regs).prm)
    ensures RunWords(it.Effect, words + [w], regs) == RunWords(it.Effect, words, regs)
  {
    assert (words + [w])[..|words|] == words;
  }

  /** The run of a buffer's commands up to the k+1-st is that up to the k-th, then the k+1-st. */
  lemma RunWordsNext(effect: Effect, done: seq<seq<bv8>>, buffer: seq<bv8>, k: nat, regs: map<nat, bv16>)
    requires k < WordCount(buffer)
    ensures RunWords(effect, done + Words(buffer)[..k + 1], regs)
         == Step(effect, RunWords(effect, done + Words(buffer)[..k], regs), buffer[1 + 8 * k..9 + 8 * k])
  {
    var words := Words(buffer);
    assert (done + words[..k + 1])[..|done| + k] == done + words[..k];
    assert (done + words[..k + 1])[|done| + k] == words[k];
  }

  /** Marks the applications of Effect that DvdChapterCodec.Valid speaks about. */
  ghost predicate Applied(regs: map<nat, bv16>, cmd: seq<bv8>)
  {
    true
  }

  /** A DVD chapter codec (dvd_chapter_codec_c): its commands and the interpreter that runs them. */
  class DvdChapterCodec {
    const cmds: ChapterCodecCmds
    const interpreter: DvdInterpreter
    /** What one command does, as the interpreter defines it (see Valid). */
    const effect: Effect

    /**
     * `effect` is the interpreter's Effect, on every command it is applied
     * to. The equation is triggered by Applied rather than by
     * `effect(regs, cmd)`: the runs of EnterLeaveHelper unfold into many
     * applications of `effect`, and unfolding each into the interpreter's
     * Execute makes the loop proofs too costly.
     */
    ghost predicate Valid()
    {
      forall regs, cmd {:trigger Applied(regs, cmd)} :: effect(regs, cmd) == interpreter.Effect(regs, cmd)
    }

    constructor (cmds: ChapterCodecCmds, interpreter: DvdInterpreter)
      ensures this.cmds == cmds && this.interpreter == interpreter
      ensures Valid()
    {
      this.cmds := cmds;
      this.interpreter := interpreter;
      this.effect := interpreter.Effect;
    }

    /** Enter: the enter commands run. */
    method Enter() returns (r: bool)
      modifies interpreter, interpreter.vm
      requires Valid()
      ensures var run := RunWords(effect, AllWords(cmds.enter), old(interpreter.prm));
        r == run.result && interpreter.prm == run.prm && interpreter.vm.jumps == old(interpreter.vm.jumps) + run.jumps
    {
      r := EnterLeaveHelper(cmds.enter);
    }

    /** Leave: the leave commands run. */
    method Leave() returns (r: bool)
      modifies interpreter, interpreter.vm
      requires Valid()
      ensures var run := RunWords(effect, AllWords(cmds.leave), old(interpreter.prm));
        r == run.result && interpreter.prm == run.prm && interpreter.vm.jumps == old(interpreter.vm.jumps) + run.jumps
    {
      r := EnterLeaveHelper(cmds.leave);
    }

    /** The state of the interpreter and its navigator is that of `run` after jumps `jumps0`. */
    predicate Shows(run: Run, r: bool, jumps0: seq<Jump>)
      reads interpreter, interpreter.vm
    {
      r == run.result && interpreter.prm == run.prm && interpreter.vm.jumps == jumps0 + run.jumps
    }

    /** One command of EnterLeaveHelper, run after `before`. */
    method InterpretWord(word: seq<bv8>, ghost before: Run, ghost jumps0: seq<Jump>, r: bool) returns (r': bool)
      modifies interpreter, interpreter.vm
      requires Valid()
      requires Shows(before, r, jumps0)
      ensures Shows(Step(effect, before, word), r', jumps0)
    {
      assert Applied(interpreter.prm, word);
      var result := interpreter.Interpret(word);
      r' := r || result;
    }

    /**
     * EnterLeaveHelper: every command of every non-empty buffer runs, in
     * order; the result is true when any command's is.
     */
    method EnterLeaveHelper(container: seq<seq<bv8>>) returns (r: bool)
      modifies interpreter, interpreter.vm
      requires Valid()
      ensures var run := RunWords(effect, AllWords(container), old(interpreter.prm));
        r == run.result && interpreter.prm == run.prm && interpreter.vm.jumps == old(interpreter.vm.jumps) + run.jumps
    {
      ghost var regs0 := interpreter.prm;
      ghost var jumps0 := interpreter.vm.jumps;
      r := false;
      var it := 0;
      AllWordsEnds(container);
      assert jumps0 + [] == jumps0;
      while it < |container|
        invariant 0 <= it <= |container|
        invariant Shows(ContainerRun(container, regs0, it), r, jumps0)
      {
        ghost var done := AllWords(container[..it]);
        AllWordsNext(container, it);
        if |container[it]| > 0 {
          PrefixRunEnds(container[it], done, regs0);
          r := InterpretBuffer(container[it], done, regs0, jumps0, r);
        } else {
          assert done + Words(container[it]) == done;
        }
        it := it + 1;
      }
    }

    /** The run of the commands of the first `it` buffers of `container`. */
    ghost function ContainerRun(container: seq<seq<bv8>>, regs0: map<nat, bv16>, it: nat): Run
      requires it <= |container|
    {
      RunWords(effect, AllWords(container[..it]), regs0)
    }

    /** The run of `done`, then of the first k commands of `buffer`. */
    ghost function PrefixRun(buffer: seq<bv8>, done: seq<seq<bv8>>, regs0: map<nat, bv16>, k: nat): Run
      requires k <= WordCount(buffer)
    {
      RunWords(effect, done + Words(buffer)[..k], regs0)
    }

    /** None of a buffer's commands is `done` alone; all of them is `done` followed by Words(buffer). */
    lemma PrefixRunEnds(buffer: seq<bv8>, done: seq<seq<bv8>>, regs0: map<nat, bv16>)
      ensures PrefixRun(buffer, done, regs0, 0) == RunWords(effect, done, regs0)
      ensures PrefixRun(buffer, done, regs0, WordCount(buffer)) == RunWords(effect, done + Words(buffer), regs0)
    {
      assert done + Words(buffer)[..0] == done;
      assert Words(buffer)[..WordCount(buffer)] == Words(buffer);
    }

    /** The k-th command of a buffer of EnterLeaveHelper, the one at `data`, run after `done` and the k before it. */
    method InterpretNext(buffer: seq<bv8>, data: nat, ghost done: seq<seq<bv8>>, ghost regs0: map<nat, bv16>,
                         ghost jumps0: seq<Jump>, ghost k: nat, r: bool) returns (r': bool)
      modifies interpreter, interpreter.vm
      requires Valid()
      requires k < WordCount(buffer) && data == 1 + 8 * k
      requires Shows(PrefixRun(buffer, done, regs0, k), r, jumps0)
      ensures Shows(PrefixRun(buffer, done, regs0, k + 1), r', jumps0)
    {
      RunWordsNext(effect, done, buffer, k, regs0);
      r' := InterpretWord(buffer[data..data + 8], RunWords(effect, done + Words(buffer)[..k], regs0), jumps0, r);
    }

    /** The commands of one non-empty buffer of EnterLeaveHelper, run after `done`. */
    method InterpretBuffer(buffer: seq<bv8>, ghost done: seq<seq<bv8>>, ghost regs0: map<nat, bv16>,
                           ghost jumps0: seq<Jump>, r: bool) returns (r': bool)
      modifies interpreter, interpreter.vm
      requires Valid()
      requires |buffer| > 0
      requires Shows(PrefixRun(buffer, done, regs0, 0), r, jumps0)
      ensures Shows(PrefixRun(buffer, done, regs0, WordCount(buffer)), r', jumps0)
    {
      r' := r;
      var data := 1;
      var size := WordCount(buffer);
      ghost var n, k := size, 0;
      while size > 0
        invariant 0 <= k <= n && size == n - k && data == 1 + 8 * k
        invariant Shows(PrefixRun(buffer, done, regs0, k), r', jumps0)
      {
        r' := InterpretNext(buffer, data, done, regs0, jumps0, k, r');
        size := size - 1;
        data := data + 8;
        k := k + 1;
      }
    }
  }

  /*
   * The script codec
   */

  /** What running a list of script commands did: any result, and the jumps asked for. */
  datatype ScriptRun = ScriptRun(result: bool, jumps: seq<Jump>)

  /** The non-empty commands run one after the other: their results joined, their jumps in order. */
  function RunScripts(vm: Navigator, commands: seq<seq<bv8>>): (r: ScriptRun)
    ensures |r.jumps| <= |commands|
  {
    if |commands| == 0 then ScriptRun(false, [])
    else
      var before := RunScripts(vm, commands[..|commands| - 1]);
      var last := commands[|commands| - 1];
      if |last| == 0 then before
      else ScriptRun(before.result || ScriptTarget(vm, last).Some?, before.jumps + ScriptJumps(vm, last))
  }

  /** A run of script commands is true exactly when one of them names a chapter that exists. */
  lemma {:induction false} RunScriptsResult(vm: Navigator, commands: seq<seq<bv8>>)
    ensures RunScripts(vm, commands).result <==> exists k :: 0 <= k < |commands| && ScriptTarget(vm, commands[k]).Some?
  {
    if |commands| > 0 {
      var init := commands[..|commands| - 1];
      RunScriptsResult(vm, init);
      assert forall k :: 0 <= k < |init| ==> init[k] == commands[k];
      EmptyScriptInert(vm, commands[|commands| - 1]);
    }
  }

  /** An empty script command names no chapter, so skipping it changes nothing. */
  lemma EmptyScriptInert(vm: Navigator, command: seq<bv8>)
    ensures |command| == 0 ==> ScriptTarget(vm, command).None? && ScriptJumps(vm, command) == []
  {
  }

  /** The run of the commands up to the `index`+1-st is that up to the `index`-th, then that command unless it is empty. */
  lemma RunScriptsNext(vm: Navigator, commands: seq<seq<bv8>>, index: nat)
    requires index < |commands|
    ensures var before := RunScripts(vm, commands[..index]);
      RunScripts(vm, commands[..index + 1])
      == if |commands[index]| == 0 then before
         else ScriptRun(before.result || ScriptTarget(vm, commands[index]).Some?, before.jumps + ScriptJumps(vm, commands[index]))
  {
    assert commands[..index + 1][..index] == commands[..index];
  }

  /** A script chapter codec (matroska_script_codec_c): its commands and the interpreter that runs them. */
  class ScriptChapterCodec {
    const cmds: ChapterCodecCmds
    const interpreter: ScriptInterpreter

    constructor (cmds: ChapterCodecCmds, interpreter: ScriptInterpreter)
      ensures this.cmds == cmds && this.interpreter == interpreter
    {
      this.cmds := cmds;
      this.interpreter := interpreter;
    }

    /** Enter: the enter commands run. */
    method Enter() returns (r: bool)
      modifies interpreter.vm
      ensures r == RunScripts(interpreter.vm, cmds.enter).result
      ensures interpreter.vm.jumps == old(interpreter.vm.jumps) + RunScripts(interpreter.vm, cmds.enter).jumps
    {
      r := RunAll(cmds.enter);
    }

    /** Leave: the leave commands run. */
    method Leave() returns (r: bool)
      modifies interpreter.vm
      ensures r == RunScripts(interpreter.vm, cmds.leave).result
      ensures interpreter.vm.jumps == old(interpreter.vm.jumps) + RunScripts(interpreter.vm, cmds.leave).jumps
    {
      r := RunAll(cmds.leave);
    }

    /** The `index`-th command of RunAll, run after those before it, when it is not empty. */
    method RunNext(commands: seq<seq<bv8>>, index: nat, ghost jumps0: seq<Jump>, r: bool) returns (r': bool)
      modifies interpreter.vm
      requires index < |commands|
      requires r == RunScripts(interpreter.vm, commands[..index]).result
      requires interpreter.vm.jumps == jumps0 + RunScripts(interpreter.vm, commands[..index]).jumps
      ensures r' == RunScripts(interpreter.vm, commands[..index + 1]).result
      ensures interpreter.vm.jumps == jumps0 + RunScripts(interpreter.vm, commands[..index + 1]).jumps
    {
      RunScriptsNext(interpreter.vm, commands, index);
      r' := r;
      if |commands[index]| > 0 {
        var result := interpreter.Interpret(commands[index]);
        r' := r || result;
      }
    }

    /** The loop Enter and Leave share: each non-empty command is interpreted, in order. */
    method RunAll(commands: seq<seq<bv8>>) returns (r: bool)
      modifies interpreter.vm
      ensures r == RunScripts(interpreter.vm, commands).result
      ensures interpreter.vm.jumps == old(interpreter.vm.jumps) + RunScripts(interpreter.vm, commands).jumps
    {
      r := false;
      var index := 0;
      while index < |commands|
        invariant 0 <= index <= |commands|
        invariant r == RunScripts(interpreter.vm, commands[..index]).result
        invariant interpreter.vm.jumps == old(interpreter.vm.jumps) + RunScripts(interpreter.vm, commands[..index]).jumps
      {
        r := RunNext(commands, index, old(interpreter.vm.jumps), r);
        index := index + 1;
      }
      assert commands[..index] == commands;
    }
  }
}
