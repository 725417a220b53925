/**
 * `to_function` and `to_procedure`: parse once, then run the program with a
 * fresh data pointer and tape on every call.
 */
module Embedding {
  import opened Wrappers
  import opened Syntax
  import opened Parser
  import opened Interp

  /** The two streams a procedure works on, after the run. */
  datatype Streams = Streams(output: seq<int>, input: seq<char>)

  /**
   * A call of the procedure `to_procedure` builds: pointer 0 and an empty
   * tape, writing after what `sink` already holds and reading from `source`.
   */
  function RunProcedure(program: Program, sink: seq<int>, source: seq<char>, fuel: nat): (r: Option<Streams>)
    ensures r.Some? ==> sink <= r.value.output
    ensures r.Some? ==> |r.value.input| <= |source| && r.value.input == source[|source| - |r.value.input|..]
  {
    match ExecSeq(program, State(0, map[], source, sink), fuel)
    case None => None
    case Some(st) =>
      ExecSeqAdvances(program, State(0, map[], source, sink), fuel);
      Some(Streams(st.output, st.input))
  }

  /** A call of the function `to_function` builds: fresh streams, the output returned. */
  function RunFunction(program: Program, input: seq<char>, fuel: nat): (r: Option<seq<int>>)
    ensures r.Some? <==> ExecSeq(program, Fresh(input), fuel).Some?
    ensures r.Some? ==> r.value == ExecSeq(program, Fresh(input), fuel).value.output
  {
    match RunProcedure(program, [], input, fuel)
    case None => None
    case Some(streams) => Some(streams.output)
  }

  /** `to_function(code)(input)`: a parse error at construction, else the call's output. */
  function Brainfuck(code: string, input: seq<char>, fuel: nat): (r: Result<Option<seq<int>>, ParseError>)
    ensures r.Failure? <==> !NoUnderflow(code)
  {
    match Parse(code)
    case Failure(e) => Failure(e)
    case Success(program) => Success(RunFunction(program, input, fuel))
  }

  /**
   * The procedure and the function agree: the procedure appends to its sink
   * exactly what the function returns, and consumes input only from the front.
   */
  lemma ProcedureMatchesFunction(program: Program, sink: seq<int>, source: seq<char>, fuel: nat)
    ensures RunProcedure(program, sink, source, fuel).Some? <==> RunFunction(program, source, fuel).Some?
    ensures RunProcedure(program, sink, source, fuel).Some? ==>
      RunProcedure(program, sink, source, fuel).value.output == sink + RunFunction(program, source, fuel).value
    ensures RunProcedure(program, sink, source, fuel).Some? ==>
      var rest := RunProcedure(program, sink, source, fuel).value.input;
      |rest| <= |source| && rest == source[|source| - |rest|..]
  {
    var st := State(0, map[], source, []);
    ExecSeqOutputIndependent(program, st, sink, fuel);
    assert st.(output := sink + st.output) == State(0, map[], source, sink);
    if ExecSeq(program, st, fuel).Some? {
      ExecSeqAdvances(program, st, fuel);
    }
  }

  /** Comments in the source text never change what the compiled function does. */
  lemma BrainfuckIgnoresComments(code: string, input: seq<char>, fuel: nat)
    ensures Brainfuck(code, input, fuel) == Brainfuck(Strip(code), input, fuel)
  {
    ParseIgnoresComments(code);
  }

  /** More fuel never changes the output of a call that finished. */
  lemma RunFunctionFuelMonotone(program: Program, input: seq<char>, f: nat, g: nat)
    requires f <= g && RunFunction(program, input, f).Some?
    ensures RunFunction(program, input, g) == RunFunction(program, input, f)
  {
    ExecSeqFuelMonotone(program, State(0, map[], input, []), f, g);
  }

  /**
   * `_brainfuck(input_str)`: a fresh machine per call, so that earlier calls
   * leave nothing behind; the result depends on the program and input only.
   */
  method CallFunction(program: Program, input: seq<char>, fuel: nat) returns (output: Option<seq<int>>)
    ensures output == RunFunction(program, input, fuel)
  {
    var m := new Machine(input);
    var done := m.Exec(program, fuel);
    output := if done then Some(m.output) else None;
  }

  /** `to_function(code)`: parse once, or fail with the parse error. */
  method ToFunction(code: string) returns (r: Result<Program, ParseError>)
    ensures r == Parse(code)
    ensures r.Success? <==> NoUnderflow(code)
    ensures Balanced(code) ==> r.Success? && Serialize(r.value) == Strip(code)
  {
    r := ParseAst(code);
    if Balanced(code) {
      ParseBalanced(code);
    }
  }

  /** The loop body of `,+[-.,+]`: print the cell less one, then read and add one. */
  const EchoBody: Program := [Dec, Out, In, Inc]

  /** One iteration of the echo loop, with `c` the cell on entry and `rest` the input left. */
  lemma EchoIteration(c: int, rest: seq<char>, out: seq<int>, fuel: nat)
    ensures ExecSeq(EchoBody, State(0, map[0 := c], rest, out), fuel) ==
      Some(State(0, map[0 := ReadValue(rest) + 1], if rest == [] then [] else rest[1..], out + [c - 1]))
  {
    var st := State(0, map[0 := c], rest, out);
    var r := State(0, map[0 := ReadValue(rest) + 1], if rest == [] then [] else rest[1..], out + [c - 1]);
    var t1 := Prim(Dec, st);
    assert t1 == State(0, map[0 := c - 1], rest, out);
    var t2 := Prim(Out, t1);
    assert t2 == State(0, map[0 := c - 1], rest, out + [c - 1]);
    var t3 := Prim(In, t2);
    assert t3 == State(0, map[0 := ReadValue(rest)], if rest == [] then [] else rest[1..], out + [c - 1]);
    assert Prim(Inc, t3) == r;
    assert EchoBody[1..] == [Out, In, Inc] && [Out, In, Inc][1..] == [In, Inc] && [In, Inc][1..] == [Inc];
    assert PrimAll(EchoBody, st) == PrimAll([Out, In, Inc], t1);
    assert PrimAll([Out, In, Inc], t1) == PrimAll([In, Inc], t2);
    assert PrimAll([In, Inc], t2) == PrimAll([Inc], t3);
    assert [Inc][1..] == [] && PrimAll([Inc], t3) == Prim(Inc, t3);
    Steps(EchoBody, st, fuel, r);
  }

  /** The echo loop, entered with `h` read and incremented, ends with both characters printed. */
  lemma EchoLoop()
    ensures ExecInstr(Loop(EchoBody), State(0, map[0 := 'h' as int + 1], "i", []), 3) ==
      Some(State(0, map[0 := 0], [], ['h' as int, 'i' as int]))
  {
    var s1 := State(0, map[0 := 'h' as int + 1], "i", []);
    var s2 := State(0, map[0 := 'i' as int + 1], [], ['h' as int]);
    var s3 := State(0, map[0 := 0], [], ['h' as int, 'i' as int]);
    EchoIteration('h' as int + 1, "i", [], 1);
    EchoIteration('i' as int + 1, [], ['h' as int], 0);
    assert ExecSeq(EchoBody, s1, 1) == Some(s2) by {
      assert "i"[1..] == [];
      assert ReadValue("i") == 'i' as int;
      assert [] + ['h' as int + 1 - 1] == ['h' as int];
    }
    assert ExecSeq(EchoBody, s2, 0) == Some(s3) by {
      assert ['h' as int] + ['i' as int + 1 - 1] == ['h' as int, 'i' as int];
    }
    assert ExecInstr(Loop(EchoBody), s3, 0) == Some(s3);
    assert ExecInstr(Loop(EchoBody), s2, 1) == Some(s3);
    assert ExecInstr(Loop(EchoBody), s1, 2) == Some(s3);
    ExecInstrFuelMonotone(Loop(EchoBody), s1, 2, 3);
  }

  /**
   * `,+[-.,+]` copies its input to its output and stops at end of input,
   * because the -1 read there becomes 0 after the `+`.
   */
  lemma EchoStopsAtEndOfInput()
    ensures Brainfuck(",+[-.,+]", "hi", 3) == Success(Some(['h' as int, 'i' as int]))
  {
    var p := [In, Inc, Loop(EchoBody)];
    assert Serialize(p) == ",+[-.,+]" by {
      assert Serialize(EchoBody) == "-.,+" by {
        assert EchoBody[1..] == [Out, In, Inc] && [Out, In, Inc][1..] == [In, Inc] && [In, Inc][1..] == [Inc];
      }
      assert p[1..] == [Inc, Loop(EchoBody)] && p[2..] == [Loop(EchoBody)];
      assert Serialize([Loop(EchoBody)]) == "[-.,+]";
    }
    ParseSerialize(p);
    var s0 := State(0, map[], "hi", []);
    var s1 := State(0, map[0 := 'h' as int + 1], "i", []);
    assert "hi"[1..] == "i";
    assert Prim(Inc, Prim(In, s0)) == s1;
    EchoLoop();
    assert ExecSeq(p, s0, 3) == Some(State(0, map[0 := 0], [], ['h' as int, 'i' as int])) by {
      assert ExecSeq(p, s0, 3) == ExecSeq(p[1..], Prim(In, s0), 3);
      assert ExecSeq(p[1..], Prim(In, s0), 3) == ExecSeq(p[2..], s1, 3);
      assert p[2..] == [Loop(EchoBody)];
    }
  }

  /** A list of primitive instructions runs as their composition, whatever the fuel. */
  lemma {:induction false} Steps(p: Program, st: State, fuel: nat, r: State)
    requires forall k :: 0 <= k < |p| ==> !p[k].Loop?
    requires r == PrimAll(p, st)
    ensures ExecSeq(p, st, fuel) == Some(r)
  {
    if p != [] {
      Steps(p[1..], Prim(p[0], st), fuel, r);
    }
  }

  /** Primitive instructions applied one after another. */
  function PrimAll(p: Program, st: State): State
    requires forall k :: 0 <= k < |p| ==> !p[k].Loop?
  {
    if p == [] then st else PrimAll(p[1..], Prim(p[0], st))
  }
}
