/**
 * The meaning of the statements `parse_ast` generates: a data pointer, a tape
 * of integer cells that reads 0 wherever nothing was written, an input stream
 * read one character at a time and an output stream.
 */
module Interp {
  import opened Wrappers
  import opened Syntax

  /** Everything one run of a program reads and writes. */
  datatype State = State(ptr: int, tape: map<int, int>, input: seq<char>, output: seq<int>)

  /** A cell of the tape; a cell never written holds 0, as with `defaultdict(int)`. */
  function Cell(tape: map<int, int>, addr: int): int {
    if addr in tape then tape[addr] else 0
  }

  /** The state each run starts from: pointer 0, every cell 0, nothing written yet. */
  function Fresh(input: seq<char>): (st: State)
    ensures st.ptr == 0 && st.output == [] && st.input == input
    ensures forall a :: Cell(st.tape, a) == 0
  {
    State(0, map[], input, [])
  }

  /** The value `,` stores: the code of the next character, or -1 at end of input. */
  function ReadValue(input: seq<char>): int {
    if input == [] then -1 else input[0] as int
  }

  /** One of the six instructions that are not loops. */
  function Prim(i: Instr, st: State): (r: State)
    requires !i.Loop?
    ensures i.Right? || i.Left? ==>
      r.ptr == st.ptr + (if i.Right? then 1 else -1) &&
      r.tape == st.tape && r.input == st.input && r.output == st.output
    ensures i.Inc? || i.Dec? ==>
      r.ptr == st.ptr && r.input == st.input && r.output == st.output &&
      Cell(r.tape, st.ptr) == Cell(st.tape, st.ptr) + (if i.Inc? then 1 else -1)
    ensures i.Out? ==>
      r.ptr == st.ptr && r.tape == st.tape && r.input == st.input &&
      r.output == st.output + [Cell(st.tape, st.ptr)]
    ensures i.In? ==>
      r.ptr == st.ptr && r.output == st.output &&
      Cell(r.tape, st.ptr) == ReadValue(st.input) &&
      r.input == (if st.input == [] then [] else st.input[1..])
    ensures forall a :: a != st.ptr ==> Cell(r.tape, a) == Cell(st.tape, a)
  {
    match i
    case Right => st.(ptr := st.ptr + 1)
    case Left => st.(ptr := st.ptr - 1)
    case Inc => st.(tape := st.tape[st.ptr := Cell(st.tape, st.ptr) + 1])
    case Dec => st.(tape := st.tape[st.ptr := Cell(st.tape, st.ptr) - 1])
    case Out => st.(output := st.output + [Cell(st.tape, st.ptr)])
    case In =>
      if st.input == [] then st.(tape := st.tape[st.ptr := -1])
      else st.(tape := st.tape[st.ptr := st.input[0] as int], input := st.input[1..])
  }

  /** The output only grows and the input is only consumed from the front. */
  ghost predicate Advances(st: State, r: State) {
    st.output <= r.output &&
    |r.input| <= |st.input| && r.input == st.input[|st.input| - |r.input|..]
  }

  /**
   * One instruction. `fuel` bounds how often a loop may iterate: each
   * iteration takes one unit, and the body and the next iteration run with
   * what is left. `None` means the run did not finish within that bound.
   */
  function ExecInstr(i: Instr, st: State, fuel: nat): (r: Option<State>)
    ensures i.Loop? && Cell(st.tape, st.ptr) == 0 ==> r == Some(st)
    ensures i.Loop? && r.Some? ==> Cell(r.value.tape, r.value.ptr) == 0
    decreases fuel, i
  {
    match i
    case Loop(body) =>
      if Cell(st.tape, st.ptr) == 0 then Some(st)
      else if fuel == 0 then None
      else
        (match ExecSeq(body, st, fuel - 1)
         case None => None
         case Some(st') => ExecInstr(i, st', fuel - 1))
    case _ => Some(Prim(i, st))
  }

  /**
   * A list of instructions, one after the other. Every instruction gets the
   * same `fuel`: it is a bound per loop, not a budget the list shares.
   */
  function ExecSeq(p: Program, st: State, fuel: nat): (r: Option<State>)
    ensures p == [] ==> r == Some(st)
    ensures r.Some? && p != [] && p[|p| - 1].Loop? ==> Cell(r.value.tape, r.value.ptr) == 0
    decreases fuel, p
  {
    if p == [] then Some(st)
    else
      match ExecInstr(p[0], st, fuel)
      case None => None
      case Some(st') => ExecSeq(p[1..], st', fuel)
  }

  /** A run only appends to the output and only consumes input from the front. */
  lemma {:induction false} ExecSeqAdvances(p: Program, st: State, fuel: nat)
    requires ExecSeq(p, st, fuel).Some?
    ensures Advances(st, ExecSeq(p, st, fuel).value)
    decreases fuel, p
  {
    if p != [] {
      var st' := ExecInstr(p[0], st, fuel).value;
      ExecInstrAdvances(p[0], st, fuel);
      ExecSeqAdvances(p[1..], st', fuel);
      AdvancesTransitive(st, st', ExecSeq(p, st, fuel).value);
    }
  }

  lemma {:induction false} ExecInstrAdvances(i: Instr, st: State, fuel: nat)
    requires ExecInstr(i, st, fuel).Some?
    ensures Advances(st, ExecInstr(i, st, fuel).value)
    decreases fuel, i
  {
    if !i.Loop? {
      var r := Prim(i, st);
      if i.In? && st.input != [] {
        assert r.input == st.input[|st.input| - |r.input|..];
      }
    } else if Cell(st.tape, st.ptr) != 0 {
      var st' := ExecSeq(i.body, st, fuel - 1).value;
      ExecSeqAdvances(i.body, st, fuel - 1);
      ExecInstrAdvances(i, st', fuel - 1);
      AdvancesTransitive(st, st', ExecInstr(i, st, fuel).value);
    }
  }

  lemma AdvancesTransitive(a: State, b: State, c: State)
    requires Advances(a, b) && Advances(b, c)
    ensures Advances(a, c)
  {
    var k := |a.input| - |b.input|;
    assert c.input == a.input[k..][|b.input| - |c.input|..];
  }

  /** A finished run stays finished, with the same state, when given more fuel. */
  lemma {:induction false} ExecSeqFuelMonotone(p: Program, st: State, f: nat, g: nat)
    requires f <= g && ExecSeq(p, st, f).Some?
    ensures ExecSeq(p, st, g) == ExecSeq(p, st, f)
    decreases f, p
  {
    if p != [] {
      ExecInstrFuelMonotone(p[0], st, f, g);
      ExecSeqFuelMonotone(p[1..], ExecInstr(p[0], st, f).value, f, g);
    }
  }

  lemma {:induction false} ExecInstrFuelMonotone(i: Instr, st: State, f: nat, g: nat)
    requires f <= g && ExecInstr(i, st, f).Some?
    ensures ExecInstr(i, st, g) == ExecInstr(i, st, f)
    decreases f, i
  {
    if i.Loop? && Cell(st.tape, st.ptr) != 0 {
      assert f > 0;
      var r := ExecSeq(i.body, st, f - 1);
      assert r.Some?;
      ExecSeqFuelMonotone(i.body, st, f - 1, g - 1);
      assert ExecInstr(i, st, f) == ExecInstr(i, r.value, f - 1);
      ExecInstrFuelMonotone(i, r.value, f - 1, g - 1);
      assert ExecInstr(i, st, g) == ExecInstr(i, r.value, g - 1);
    }
  }

  /** A run's outcome with `pre` written before its own output. */
  function Behind(r: Option<State>, pre: seq<int>): Option<State> {
    if r.None? then None else Some(r.value.(output := pre + r.value.output))
  }

  /**
   * What was already in the output stream does not influence a run: the run
   * appends the same characters after it and otherwise ends the same way.
   */
  lemma {:induction false} ExecSeqOutputIndependent(p: Program, st: State, pre: seq<int>, fuel: nat)
    ensures ExecSeq(p, st.(output := pre + st.output), fuel) == Behind(ExecSeq(p, st, fuel), pre)
    decreases fuel, p
  {
    if p != [] {
      var st2 := st.(output := pre + st.output);
      ExecInstrOutputIndependent(p[0], st, pre, fuel);
      var r := ExecInstr(p[0], st, fuel);
      if r.Some? {
        ExecSeqOutputIndependent(p[1..], r.value, pre, fuel);
        assert r.value.(output := pre + r.value.output) == ExecInstr(p[0], st2, fuel).value;
      }
    }
  }

  lemma {:induction false} ExecInstrOutputIndependent(i: Instr, st: State, pre: seq<int>, fuel: nat)
    ensures ExecInstr(i, st.(output := pre + st.output), fuel) == Behind(ExecInstr(i, st, fuel), pre)
    decreases fuel, i
  {
    var st2 := st.(output := pre + st.output);
    if !i.Loop? {
      if i.Out? {
        assert pre + st.output + [Cell(st.tape, st.ptr)] == pre + (st.output + [Cell(st.tape, st.ptr)]);
      }
    } else if Cell(st.tape, st.ptr) != 0 && fuel > 0 {
      ExecSeqOutputIndependent(i.body, st, pre, fuel - 1);
      var r := ExecSeq(i.body, st, fuel - 1);
      if r.Some? {
        ExecInstrOutputIndependent(i, r.value, pre, fuel - 1);
        assert r.value.(output := pre + r.value.output) == ExecSeq(i.body, st2, fuel - 1).value;
      }
    }
  }

  /**
   * The variables one run of a program works on: `data_ptr`, `memory` and
   * the two streams, all updated in place.
   */
  class Machine {
    var ptr: int
    var tape: map<int, int>
    var input: seq<char>
    var output: seq<int>

    function Snapshot(): State
      reads this
    {
      State(ptr, tape, input, output)
    }

    /** `data_ptr = 0` and `memory = defaultdict(int)`, with the given input. */
    constructor (input: seq<char>)
      ensures Snapshot() == Fresh(input)
    {
      ptr, tape := 0, map[];
      this.input, output := input, [];
    }

    /** Runs the statements of `p` in order, stopping when one runs out of fuel. */
    method Exec(p: Program, fuel: nat) returns (done: bool)
      modifies this
      ensures done == ExecSeq(p, old(Snapshot()), fuel).Some?
      ensures done ==> Snapshot() == ExecSeq(p, old(Snapshot()), fuel).value
      decreases fuel, p
    {
      for k := 0 to |p|
        invariant ExecSeq(p[k..], Snapshot(), fuel) == ExecSeq(p, old(Snapshot()), fuel)
      {
        assert p[k..][0] == p[k] && p[k..][1..] == p[k + 1..];
        var ok := ExecOne(p[k], fuel);
        if !ok {
          return false;
        }
      }
      return true;
    }

    /** One statement; a loop is a `while` on the current cell. */
    method ExecOne(i: Instr, fuel: nat) returns (done: bool)
      modifies this
      ensures done == ExecInstr(i, old(Snapshot()), fuel).Some?
      ensures done ==> Snapshot() == ExecInstr(i, old(Snapshot()), fuel).value
      decreases fuel, i
    {
      done := true;
      match i
      case Right =>
        ptr := ptr + 1;
      case Left =>
        ptr := ptr - 1;
      case Inc =>
        tape := tape[ptr := Cell(tape, ptr) + 1];
      case Dec =>
        tape := tape[ptr := Cell(tape, ptr) - 1];
      case Out =>
        output := output + [Cell(tape, ptr)];
      case In =>
        if input == [] {
          tape := tape[ptr := -1];
        } else {
          tape := tape[ptr := input[0] as int];
          input := input[1..];
        }
      case Loop(body) =>
        var f: nat := fuel;
        while Cell(tape, ptr) != 0
          invariant f <= fuel
          invariant ExecInstr(i, Snapshot(), f) == ExecInstr(i, old(Snapshot()), fuel)
          decreases f
        {
          if f == 0 {
            return false;
          }
          var ok := Exec(body, f - 1);
          if !ok {
            return false;
          }
          f := f - 1;
        }
    }
  }
}
