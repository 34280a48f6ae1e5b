/**
 * The line loop of `assemble`: every line that is neither empty nor a
 * comment line is tokenized and encoded into one 16-bit word, in order; the
 * first line that fails stops the run with its 1-based number and the kind
 * of failure, and then no word at all is produced.
 */
module Assembler {
  import opened Outcomes
  import opened Diagnostics
  import opened Bits
  import opened Tokenizer
  import opened Encoder

  /** `not line or line.startswith("//")`: the loop skips the line. */
  predicate Skipped(line: string)
  {
    line == [] || (|line| >= 2 && line[..2] == "//")
  }

  /** One line that is not skipped: `preproc`, then the lambda or the data word. */
  function AssembleLine(line: string): (r: Result<string, Diagnostic>)
    ensures r.Ok? ==> IsBits(r.value) && |r.value| == 16
    ensures (r.Err? && r.error.BadArgument?) <==> Tokenize(line).Err?
    ensures Tokenize(line).Err? ==> r == Err(Tokenize(line).error)
    ensures Tokenize(line).Ok? ==> r == Encode(Tokenize(line).value.cmd, Tokenize(line).value.args)
  {
    match Tokenize(line)
    case Err(d) => Err(d)
    case Ok(p) => Encode(p.cmd, p.args)
  }

  /** What one iteration of the loop does with a line: skip it, append its word, or stop. */
  datatype LineOutcome = Skip | Emit(word: string) | Fail(diag: Diagnostic)

  function Outcome(line: string): (o: LineOutcome)
    ensures o.Skip? <==> Skipped(line)
    ensures o.Emit? ==> AssembleLine(line) == Ok(o.word)
    ensures o.Fail? ==> AssembleLine(line) == Err(o.diag)
  {
    if Skipped(line) then Skip
    else
      match AssembleLine(line)
      case Err(d) => Fail(d)
      case Ok(w) => Emit(w)
  }

  /** The outcome of each line, in order. */
  function LineOutcomes(data: seq<string>): (os: seq<LineOutcome>)
    ensures |os| == |data|
  {
    if data == [] then [] else LineOutcomes(data[..|data| - 1]) + [Outcome(data[|data| - 1])]
  }

  lemma OutcomesAll(data: seq<string>)
    ensures forall k :: 0 <= k < |data| ==> LineOutcomes(data)[k] == Outcome(data[k])
  {
    forall k | 0 <= k < |data|
      ensures LineOutcomes(data)[k] == Outcome(data[k])
    {
      OutcomeAt(data, k);
    }
  }

  lemma {:induction false} OutcomeAt(data: seq<string>, k: nat)
    requires k < |data|
    ensures LineOutcomes(data)[k] == Outcome(data[k])
  {
    var n := |data|;
    var init := data[..n - 1];
    assert LineOutcomes(data) == LineOutcomes(init) + [Outcome(data[n - 1])];
    if k < n - 1 {
      OutcomeAt(init, k);
      assert init[k] == data[k];
    }
  }

  /**
   * The loop after its first n iterations: the words appended so far, or the
   * first failure with its 1-based line number.
   */
  function Run(os: seq<LineOutcome>, n: nat): Result<seq<string>, AsmError>
    requires n <= |os|
  {
    if n == 0 then Ok([])
    else
      match Run(os, n - 1)
      case Err(e) => Err(e)
      case Ok(ws) =>
        match os[n - 1]
        case Skip => Ok(ws)
        case Emit(w) => Ok(ws + [w])
        case Fail(d) => Err(AsmError(n, d))
  }

  /** What `assemble` returns, or the error it stops with. */
  function Assembled(data: seq<string>): Result<seq<string>, AsmError>
  {
    Run(LineOutcomes(data), |data|)
  }

  /** The lines that are not skipped, in order. */
  function KeptLines(data: seq<string>): (ks: seq<string>)
    ensures |ks| <= |data|
    ensures forall j :: 0 <= j < |ks| ==> !Skipped(ks[j])
  {
    if data == [] then []
    else
      var last := data[|data| - 1];
      KeptLines(data[..|data| - 1]) + (if Skipped(last) then [] else [last])
  }

  /** The words of the lines that emit one, in order. */
  function Emitted(os: seq<LineOutcome>): seq<string>
  {
    if os == [] then []
    else
      var last := os[|os| - 1];
      Emitted(os[..|os| - 1]) + (if last.Emit? then [last.word] else [])
  }

  /** The `try` block for one line that is not skipped: `preproc`, then the lambda or the data word. */
  method AssembleOne(line: string) returns (word: Result<string, Diagnostic>)
    ensures word == AssembleLine(line)
  {
    var parsed := Preproc(line);
    if parsed.Err? {
      return Err(parsed.error);
    }
    word := Encode(parsed.value.cmd, parsed.value.args);
  }

  /** One iteration's work on line i: the skip test, then the `try` block. */
  method Classify(data: seq<string>, i: nat) returns (o: LineOutcome)
    requires i < |data|
    ensures o == LineOutcomes(data)[i]
  {
    var line := data[i];
    OutcomeAt(data, i);
    if Skipped(line) {
      return Skip;
    }
    var word := AssembleOne(line);
    OutcomeOf(line, word);
    o := if word.Ok? then Emit(word.value) else Fail(word.error);
  }

  /** `assemble`'s loop, with the `exit(1)` calls returned as an error. */
  method Assemble(data: seq<string>) returns (r: Result<seq<string>, AsmError>)
    ensures r == Assembled(data)
  {
    ghost var os := LineOutcomes(data);
    assert Assembled(data) == Run(os, |data|);
    var result: seq<string> := [];
    var i := 0;
    while i < |data|
      invariant i <= |data|
      invariant Run(os, i) == Ok(result)
    {
      var o := Classify(data, i);
      RunStep(os, i, result);
      match o {
        case Skip =>
        case Emit(w) =>
          result := result + [w];
        case Fail(d) =>
          ErrorPersists(os, i + 1, |data|);
          return Err(AsmError(i + 1, d));
      }
      i := i + 1;
    }
    return Ok(result);
  }

  // ------------------------------------------------------------- lemmas

  /**
   * The skip test only changes what is reported: a line it skips would, if
   * tokenized, have no runs at all and be a bad argument.
   */
  lemma SkippedLineHasNoTokens(line: string)
    requires Skipped(line)
    ensures Tokenize(line) == Err(BadArgument(NoTokens))
  {
    if line != [] {
      assert line[0] == '/' && line[1] == '/' by { assert line[..2] == "//"; }
      assert StripComment(line) == [];
    }
  }

  /** What a line that is not skipped contributes, given its encoding. */
  lemma OutcomeOf(line: string, word: Result<string, Diagnostic>)
    requires !Skipped(line) && word == AssembleLine(line)
    ensures word.Err? ==> Outcome(line) == Fail(word.error)
    ensures word.Ok? ==> Outcome(line) == Emit(word.value)
  {
  }

  /** One more iteration of the loop, from a state where no line has failed yet. */
  lemma RunStep(os: seq<LineOutcome>, i: nat, ws: seq<string>)
    requires i < |os| && Run(os, i) == Ok(ws)
    ensures os[i] == Skip ==> Run(os, i + 1) == Ok(ws)
    ensures os[i].Emit? ==> Run(os, i + 1) == Ok(ws + [os[i].word])
    ensures os[i].Fail? ==> Run(os, i + 1) == Err(AsmError(i + 1, os[i].diag))
  {
  }

  /** Once a line has failed, no later line changes the outcome. */
  lemma {:induction false} ErrorPersists(os: seq<LineOutcome>, n: nat, m: nat)
    requires n <= m <= |os| && Run(os, n).Err?
    ensures Run(os, m) == Run(os, n)
  {
    if m > n {
      ErrorPersists(os, n, m - 1);
    }
  }

  /** The first n iterations succeed exactly when none of those lines fails. */
  lemma {:induction false} RunOk(os: seq<LineOutcome>, n: nat)
    requires n <= |os|
    ensures Run(os, n).Ok? <==> forall i :: 0 <= i < n ==> !os[i].Fail?
  {
    if n > 0 {
      RunOk(os, n - 1);
    }
  }

  /** A successful run holds the emitted words, in order. */
  lemma {:induction false} RunWords(os: seq<LineOutcome>, n: nat)
    requires n <= |os| && Run(os, n).Ok?
    ensures Run(os, n).value == Emitted(os[..n])
  {
    if n > 0 {
      RunWords(os, n - 1);
      assert os[..n][..n - 1] == os[..n - 1];
    }
  }

  /** A failed run names the first failing line, counting from 1. */
  lemma {:induction false} RunFails(os: seq<LineOutcome>, n: nat, e: AsmError)
    requires n <= |os|
    ensures Run(os, n) == Err(e) <==>
      1 <= e.line <= n && os[e.line - 1] == Fail(e.diag) &&
      forall i :: 0 <= i < e.line - 1 ==> !os[i].Fail?
  {
    if n > 0 {
      RunFails(os, n - 1, e);
      RunOk(os, n - 1);
    }
  }

  /** The emitted words are the encodings of the kept lines, one for one. */
  lemma {:induction false} EmittedKept(data: seq<string>)
    requires forall i :: 0 <= i < |data| ==> !Outcome(data[i]).Fail?
    ensures var ws, ks := Emitted(LineOutcomes(data)), KeptLines(data);
      |ws| == |ks| && forall j :: 0 <= j < |ks| ==> AssembleLine(ks[j]) == Ok(ws[j])
  {
    if data != [] {
      var n := |data|;
      var init := data[..n - 1];
      assert LineOutcomes(data)[..n - 1] == LineOutcomes(init);
      EmittedKept(init);
    }
  }

  /** The program assembles exactly when every line is skipped or encodes. */
  lemma OkIff(data: seq<string>)
    ensures Assembled(data).Ok? <==>
      forall i :: 0 <= i < |data| ==> Skipped(data[i]) || AssembleLine(data[i]).Ok?
  {
    OutcomesAll(data);
    RunOk(LineOutcomes(data), |data|);
  }

  /**
   * On success the result holds one 16-character word per line that is not
   * skipped, in source order, each the encoding of that line.
   */
  lemma Words(data: seq<string>)
    requires Assembled(data).Ok?
    ensures var ws, ks := Assembled(data).value, KeptLines(data);
      |ws| == |ks| &&
      forall j :: 0 <= j < |ks| ==> AssembleLine(ks[j]) == Ok(ws[j]) && IsBits(ws[j]) && |ws[j]| == 16
  {
    var os := LineOutcomes(data);
    OutcomesAll(data);
    RunOk(os, |data|);
    RunWords(os, |data|);
    assert os[..|data|] == os;
    EmittedKept(data);
  }

  /**
   * The run fails with line k (counting from 1, skipped lines included) and a
   * diagnostic exactly when that line is the first one that does not encode,
   * and the diagnostic is that line's.
   */
  lemma FirstError(data: seq<string>, e: AsmError)
    ensures Assembled(data) == Err(e) <==>
      1 <= e.line <= |data| &&
      !Skipped(data[e.line - 1]) && AssembleLine(data[e.line - 1]) == Err(e.diag) &&
      forall i :: 0 <= i < e.line - 1 ==> Skipped(data[i]) || AssembleLine(data[i]).Ok?
  {
    OutcomesAll(data);
    RunFails(LineOutcomes(data), |data|, e);
  }

  // ------------------------------------------------------------- examples

  lemma {:induction false} SkippedLines()
    ensures Skipped("// sum") && Skipped("")
  {
    assert "// sum"[..2] == "//";
  }

  /** A comment line, an instruction and a skipped line assemble to that instruction's word alone. */
  lemma {:induction false} ThreeLines(data: seq<string>, first: string, second: string, third: string, w: string)
    requires data == [first, second, third]
    requires Skipped(first) && !Skipped(second) && AssembleLine(second) == Ok(w) && Skipped(third)
    ensures Assembled(data) == Ok([w])
  {
    var os := LineOutcomes(data);
    OutcomesAll(data);
    assert os[0] == Skip && os[1] == Emit(w) && os[2] == Skip;
    var empty: seq<string> := [];
    assert Run(os, 1) == Ok(empty);
    assert empty + [w] == [w];
    var n := 2;
    assert Run(os, n) == Ok([w]);
    n := 3;
    assert Run(os, n) == Ok([w]);
  }

  /** Two skipped lines and an instruction, then a failing line: the error names line 4. */
  lemma {:induction false} FourthLineFails(data: seq<string>, first: string, second: string, third: string, fourth: string, d: Diagnostic)
    requires data == [first, second, third, fourth]
    requires Skipped(first) && Skipped(second) && !Skipped(third) && AssembleLine(third).Ok?
    requires !Skipped(fourth) && AssembleLine(fourth) == Err(d)
    ensures Assembled(data) == Err(AsmError(4, d))
  {
    var os := LineOutcomes(data);
    OutcomesAll(data);
    assert os[0] == Skip && os[1] == Skip && os[2].Emit? && os[3] == Fail(d);
    var empty: seq<string> := [];
    var n := 1;
    assert Run(os, n) == Ok(empty);
    n := 2;
    assert Run(os, n) == Ok(empty);
    n := 3;
    assert Run(os, n).Ok?;
    n := 4;
    assert Run(os, n) == Err(AsmError(4, d));
  }

  lemma AddLine()
    ensures AssembleLine("add 1,2 // x") == Ok("11" + ("010" + ("001" + ("0000" + "0000"))))
  {
    CommentExample();
    AddExample();
  }

  lemma {:induction false} KeptExampleLines()
    ensures !Skipped("add 1,2 // x") && !Skipped("ADD R1,R2")
  {
    assert "add 1,2 // x"[0] != '/' && "ADD R1,R2"[0] != '/';
  }

  /** Comment lines and empty lines produce no word. */
  lemma OneWordProgram()
    ensures Assembled(["// sum", "add 1,2 // x", ""]) == Ok(["11" + ("010" + ("001" + ("0000" + "0000")))])
  {
    SkippedLines();
    KeptExampleLines();
    AddLine();
    ThreeLines(["// sum", "add 1,2 // x", ""], "// sum", "add 1,2 // x", "", "11" + ("010" + ("001" + ("0000" + "0000"))));
  }

  /** The fourth line names registers as `R1`, which is a bad argument; skipped lines still count. */
  lemma BadArgumentProgram()
    ensures Assembled(["// sum", "", "add 1,2 // x", "ADD R1,R2"]) == Err(AsmError(4, BadArgument(NotAnInteger("R"))))
  {
    SkippedLines();
    KeptExampleLines();
    AddLine();
    RegisterNameExample();
    FourthLineFails(["// sum", "", "add 1,2 // x", "ADD R1,R2"], "// sum", "", "add 1,2 // x", "ADD R1,R2",
                    BadArgument(NotAnInteger("R")));
  }
}
