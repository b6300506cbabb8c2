/** From tokens to output: parse, then call `main`. */
module ZbcRuns {
  import opened ZbcSyntax
  import opened ZbcGrammar
  import opened ZbcNodes
  import opened ZbcStmtSteps
  import opened ZbcForest
  import opened ZbcEval
  import opened ZbcAgreement
  import opened ZbcQuirks
  import opened ZbcParsers
  import opened ZbcMachines
  import opened ZbcLevels
  import opened ZbcReturnValues

  datatype Report = ParseError | Finished(value: int, out: seq<Event>, err: bool) | StillRunning

  lemma {:induction false} ParsedParams(ts: seq<Token>, p: nat, fs: seq<Func>)
    requires FewParams(fs)
    ensures var r := Program(ts, p, fs); r.OkProgram? ==> FewParams(r.funcs)
    decreases ZbcGrammar.Left(ts, p)
  {
    hide FuncAt;
    if (Peek(ts, p) == KwInt || Peek(ts, p) == KwVoid) && |fs| < MAX_FUNCS {
      var f := FuncAt(ts, p + 1);
      if f.OkFunc? {
        ParsedParams(ts, f.pos, fs + [f.f]);
      }
    }
  }

  /** The source is `int main() { return t; }`, with an expression of numbers and operators that needs no parentheses
      and fits into the table. */
  ghost predicate IsReturn(t: Tree, toks: seq<Token>) {
    IsExpr(t) && Ranked(t) && Size(t) + 2 <= MAX_NODES && toks == ReturnTokens(t)
  }

  predicate Gives(w: Walk, v: int) { w.Walk? && w.v == v && w.st.out == [] && !w.st.err }

  lemma ReturnDone(t: Tree, toks: seq<Token>, keys: seq<int>, fuel: nat)
    requires IsSum(t) && IsReturn(t, toks) && fuel > 0
    ensures var p := Program(toks, 0, []); ProgramFits(p) && Gives(Run(p.funcs, keys, fuel), Worth(t))
  {
    hide Program, ProgramRows, CallFunction, Worth;
    ReturnParses(t);
    ReturnFits(t);
    ReturnRuns(t, keys, fuel);
  }

  /** A source that does not parse or does not fit is refused. Any other does what the tree walk of its functions
      does; and when it is plain and its meaning is defined, it writes and returns exactly that. One that returns an
      expression of numbers and operators returns its value. */
  method ZbcRun(toks: seq<Token>, keys: seq<int>, fuel: nat) returns (report: Report)
    ensures var p := Program(toks, 0, []);
      if !ProgramFits(p) then report == ParseError
      else
        var w, m := Run(p.funcs, keys, fuel), MeaningOf(p.funcs, keys, fuel);
        && report == (if w.Walk? then Finished(w.v, w.st.out, w.st.err) else StillRunning)
        && (PlainProgram(p.funcs) && m.Done? ==>
              report.Finished? && !report.err && report.out == m.w.out && (m.e.Value? ==> report.value == m.e.v))
        && OneParent(ProgramRows(p.funcs))
    ensures forall t | IsSum(t) && IsReturn(t, toks) && fuel > 0 :: report == Finished(Worth(t), [], false)
  {
    hide IsReturn, Worth, Program, ProgramRows, FuncTable, ProgramFits, SemCall, CallFunction, PlainProgram, OneParent;
    var parser := new Parser(toks);
    ghost var fs := parser.ParseProgram();
    forall t | IsSum(t) && IsReturn(t, toks) && fuel > 0
      ensures !parser.hadError && Gives(Run(fs, keys, fuel), Worth(t))
    {
      ReturnDone(t, toks, keys, fuel);
    }
    if parser.hadError {
      return ParseError;
    }
    ParsedParams(toks, 0, []);
    FitsTable(toks);
    assert parser.nodes[..|ProgramRows(fs)|] == ProgramRows(fs);
    ProgramIsForest(fs, [], 0, 0);
    var machine := new Machine(parser.nodes, parser.funcs, keys, fs);
    var ok, v := machine.CallFunction("main", [], fuel, MAIN);
    if PlainAndDone(fs, keys, fuel) {
      RunMeans(fs, keys, fuel);
    }
    report := if ok then Finished(v, machine.out, machine.hadError) else StillRunning;
  }

  ghost predicate PlainAndDone(fs: seq<Func>, keys: seq<int>, fuel: nat) {
    PlainProgram(fs) && MeaningOf(fs, keys, fuel).Done?
  }

  lemma FitsTable(ts: seq<Token>)
    ensures var p := Program(ts, 0, []); ProgramFits(p) ==> p.OkProgram? && |ProgramRows(p.funcs)| <= MAX_NODES
  {
  }
}
