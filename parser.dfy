/**
 * `parse_ast`: one left-to-right scan over the source that keeps the list of
 * instructions being filled and a stack of the enclosing lists.
 */
module Parser {
  import opened Wrappers
  import opened Syntax

  /** The only failure: a `]` pops from an empty stack of enclosing lists. */
  datatype ParseError = PopFromEmptyStack

  /**
   * The parser's state between two characters: the enclosing lists, the
   * innermost first (the source inserts and pops at index 0), and the list
   * being filled; or the state after a `]` found nothing to pop.
   */
  datatype Builder =
    | Building(parents: seq<Program>, current: Program)
    | Underflow

  /** What one character does to the parser's state. */
  function Step(b: Builder, c: char): Builder {
    match b
    case Underflow => Underflow
    case Building(parents, current) =>
      if c == '>' then Building(parents, current + [Right])
      else if c == '<' then Building(parents, current + [Left])
      else if c == '+' then Building(parents, current + [Inc])
      else if c == '-' then Building(parents, current + [Dec])
      else if c == '.' then Building(parents, current + [Out])
      else if c == ',' then Building(parents, current + [In])
      else if c == '[' then Building([current] + parents, [])
      else if c == ']' then
        if parents == [] then Underflow
        else Building(parents[1..], parents[0] + [Loop(current)])
      else b
  }

  /** The state after scanning all of `s` from `b`. */
  function Run(b: Builder, s: string): Builder
    decreases s
  {
    if s == [] then b else Run(Step(b, s[0]), s[1..])
  }

  /**
   * What `parse_ast` returns: the list being filled when the scan ends. For
   * balanced text that is the top-level list; when a `[` is left open it is
   * the body of the innermost open loop.
   */
  function Parse(s: string): (r: Result<Program, ParseError>)
    ensures r.Failure? <==> !NoUnderflow(s)
  {
    RunText([], [], s);
    match Run(Building([], []), s)
    case Underflow => Failure(PopFromEmptyStack)
    case Building(_, current) => Success(current)
  }

  /** The text a parser state stands for: every open list followed by its `[`. */
  function OpenText(parents: seq<Program>): string {
    if parents == [] then [] else OpenText(parents[1..]) + Serialize(parents[0]) + "["
  }

  /** `parse_ast`, with the list and the stack updated in place. */
  method ParseAst(code: string) returns (r: Result<Program, ParseError>)
    ensures r == Parse(code)
  {
    var instructions: Program := [];
    var stack: seq<Program> := [];
    for i := 0 to |code|
      invariant Run(Building(stack, instructions), code[i..]) == Run(Building([], []), code)
    {
      assert code[i..] == [code[i]] + code[i + 1..];
      var c := code[i];
      if c == '>' {
        instructions := instructions + [Right];
      } else if c == '<' {
        instructions := instructions + [Left];
      } else if c == '+' {
        instructions := instructions + [Inc];
      } else if c == '-' {
        instructions := instructions + [Dec];
      } else if c == '.' {
        instructions := instructions + [Out];
      } else if c == ',' {
        instructions := instructions + [In];
      } else if c == '[' {
        stack := [instructions] + stack;
        instructions := [];
      } else if c == ']' {
        if stack == [] {
          UnderflowAbsorbs(code[i + 1..]);
          return Failure(PopFromEmptyStack);
        }
        instructions := stack[0] + [Loop(instructions)];
        stack := stack[1..];
      }
    }
    return Success(instructions);
  }

  lemma {:induction false} UnderflowAbsorbs(s: string)
    ensures Run(Underflow, s) == Underflow
  {
    if s != [] {
      UnderflowAbsorbs(s[1..]);
    }
  }

  lemma {:induction false} RunStrip(b: Builder, s: string)
    ensures Run(b, s) == Run(b, Strip(s))
    decreases s
  {
    if s != [] {
      RunStrip(Step(b, s[0]), s[1..]);
      if IsCommand(s[0]) {
        assert Strip(s) == [s[0]] + Strip(s[1..]);
        assert Strip(s)[1..] == Strip(s[1..]);
      } else {
        assert Step(b, s[0]) == b;
        assert Strip(s) == Strip(s[1..]);
      }
    }
  }

  /** Characters other than the eight commands are ignored. */
  lemma ParseIgnoresComments(s: string)
    ensures Parse(s) == Parse(Strip(s))
  {
    RunStrip(Building([], []), s);
  }

  lemma {:induction false} RunSerialize(parents: seq<Program>, current: Program, p: Program, rest: string)
    ensures Run(Building(parents, current), Serialize(p) + rest) == Run(Building(parents, current + p), rest)
    decreases p
  {
    if p == [] {
      assert current + p == current;
      assert Serialize(p) + rest == rest;
    } else {
      var i := p[0];
      assert Serialize(p) + rest == SerializeInstr(i) + (Serialize(p[1..]) + rest);
      RunSerializeInstr(parents, current, i, Serialize(p[1..]) + rest);
      RunSerialize(parents, current + [i], p[1..], rest);
      assert current + [i] + p[1..] == current + p;
    }
  }

  lemma {:induction false} RunSerializeInstr(parents: seq<Program>, current: Program, i: Instr, rest: string)
    ensures Run(Building(parents, current), SerializeInstr(i) + rest) == Run(Building(parents, current + [i]), rest)
    decreases i
  {
    var t := SerializeInstr(i) + rest;
    if i.Loop? {
      var inner := Serialize(i.body) + ("]" + rest);
      assert t == "[" + inner;
      assert t[1..] == inner;
      RunSerialize([current] + parents, [], i.body, "]" + rest);
      assert [] + i.body == i.body;
      assert ("]" + rest)[1..] == rest;
    } else {
      assert t[1..] == rest;
    }
  }

  /** Parsing the text of a program gives back that program. */
  lemma ParseSerialize(p: Program)
    ensures Parse(Serialize(p)) == Success(p)
  {
    RunSerialize([], [], p, []);
    assert Serialize(p) + [] == Serialize(p);
    assert [] + p == p;
  }

  /** Two programs with the same text are the same program. */
  lemma SerializeInjective(p: Program, q: Program)
    requires Serialize(p) == Serialize(q)
    ensures p == q
  {
    ParseSerialize(p);
    ParseSerialize(q);
  }

  /** One character read in a state that does not underflow on it. */
  lemma StepText(parents: seq<Program>, current: Program, c: char)
    requires !(c == ']' && parents == [])
    ensures Step(Building(parents, current), c).Building?
    ensures |Step(Building(parents, current), c).parents| == |parents| + Delta(c)
    ensures var b := Step(Building(parents, current), c);
      OpenText(b.parents) + Serialize(b.current) == OpenText(parents) + Serialize(current) + Strip([c])
  {
    assert [c][1..] == [];
    if c == '[' {
      StepOpenText(parents, current);
    } else if c == ']' {
      StepCloseText(parents, current);
    } else if IsCommand(c) {
      StepPrimitiveText(parents, current, c);
    } else {
      assert Strip([c]) == [];
    }
  }

  lemma StepOpenText(parents: seq<Program>, current: Program)
    ensures var b := Step(Building(parents, current), '[');
      b == Building([current] + parents, []) &&
      OpenText(b.parents) + Serialize(b.current) == OpenText(parents) + Serialize(current) + "["
  {
    var P := [current] + parents;
    assert P[1..] == parents;
  }

  lemma StepCloseText(parents: seq<Program>, current: Program)
    requires parents != []
    ensures var b := Step(Building(parents, current), ']');
      b == Building(parents[1..], parents[0] + [Loop(current)]) &&
      OpenText(b.parents) + Serialize(b.current) == OpenText(parents) + Serialize(current) + "]"
  {
    CloseText(parents, current);
  }

  /** Closing a loop moves its `[`, body and `]` into the parent's text. */
  lemma CloseText(parents: seq<Program>, current: Program)
    requires parents != []
    ensures OpenText(parents[1..]) + Serialize(parents[0] + [Loop(current)]) ==
      OpenText(parents) + Serialize(current) + "]"
  {
    var a, b, c := OpenText(parents[1..]), Serialize(parents[0]), Serialize(current);
    assert OpenText(parents) == a + b + "[";
    assert Serialize(parents[0] + [Loop(current)]) == b + ("[" + c + "]") by {
      SerializeAppend(parents[0], [Loop(current)]);
      SerializeSingleton(Loop(current));
    }
    BracketAssoc(a, b, c);
  }

  lemma BracketAssoc(a: string, b: string, c: string)
    ensures a + (b + ("[" + c + "]")) == a + b + "[" + c + "]"
  {
  }

  lemma SerializeSingleton(i: Instr)
    ensures Serialize([i]) == SerializeInstr(i)
  {
    assert [i][1..] == [];
  }

  lemma StepPrimitiveText(parents: seq<Program>, current: Program, c: char)
    requires IsCommand(c) && c != '[' && c != ']'
    ensures var b := Step(Building(parents, current), c);
      b.Building? && b.parents == parents &&
      OpenText(b.parents) + Serialize(b.current) == OpenText(parents) + Serialize(current) + [c]
  {
    var C := Step(Building(parents, current), c).current;
    var i := C[|C| - 1];
    assert C == current + [i];
    SerializeAppend(current, [i]);
    assert Serialize([i]) == [c];
  }

  /**
   * The scan keeps the state in step with the text read so far: it fails
   * exactly when some prefix closes more brackets than are open, and
   * otherwise the stack is as deep as the open brackets and the state's
   * text is the command characters read.
   */
  lemma {:induction false} RunText(parents: seq<Program>, current: Program, s: string)
    ensures Run(Building(parents, current), s).Underflow? <==> !StaysAbove(s, |parents|)
    ensures Run(Building(parents, current), s).Building? ==>
      var r := Run(Building(parents, current), s);
      |r.parents| == |parents| + Depth(s) &&
      OpenText(r.parents) + Serialize(r.current) == OpenText(parents) + Serialize(current) + Strip(s)
    decreases s
  {
    if s == [] {
      assert StaysAbove(s, |parents|) by {
        assert forall j :: 0 <= j <= |s| ==> s[..j] == [];
      }
    } else {
      var c := s[0];
      StaysAboveCons(s, |parents|);
      var b' := Step(Building(parents, current), c);
      if c == ']' && parents == [] {
        UnderflowAbsorbs(s[1..]);
        assert !StaysAbove(s[1..], -1) by {
          assert s[1..][..0] == [];
        }
      } else {
        StepText(parents, current, c);
        RunText(b'.parents, b'.current, s[1..]);
        StripAppend([c], s[1..]);
        assert [c] + s[1..] == s;
      }
    }
  }

  /** On balanced text the scan ends on the top-level list, whose text is the input's commands. */
  lemma ParseBalanced(s: string)
    requires Balanced(s)
    ensures Parse(s).Success?
    ensures Serialize(Parse(s).value) == Strip(s)
  {
    RunText([], [], s);
    var r := Run(Building([], []), s);
    assert r.parents == [];
    assert OpenText([]) + Serialize([]) + Strip(s) == Strip(s);
    assert Parse(s) == Success(r.current);
  }

  /**
   * On text with an unclosed `[` the scan ends on the body of the innermost
   * open loop: the input's commands are some text, then `[`, then the text
   * of the result. Whatever came before that `[` is not returned.
   */
  lemma ParseUnclosed(s: string)
    requires NoUnderflow(s) && Depth(s) > 0
    ensures Parse(s).Success?
    ensures exists prefix :: Strip(s) == prefix + "[" + Serialize(Parse(s).value)
  {
    RunText([], [], s);
    var r := Run(Building([], []), s);
    var P := r.parents;
    assert OpenText(P) == OpenText(P[1..]) + Serialize(P[0]) + "[";
    assert Strip(s) == (OpenText(P[1..]) + Serialize(P[0])) + "[" + Serialize(r.current);
  }

  /**
   * The result on text with an unclosed `[` is determined: only one split of
   * the text into some prefix, `[` and the text of a program exists.
   */
  lemma InnermostBodyUnique(x1: string, p1: Program, x2: string, p2: Program)
    requires x1 + "[" + Serialize(p1) == x2 + "[" + Serialize(p2)
    ensures p1 == p2
  {
    var t := x1 + "[" + Serialize(p1);
    if |x1| != |x2| {
      // The later split point would make the earlier body dip below level 0.
      var xa, pa, xb, pb := x1, p1, x2, p2;
      if |x2| < |x1| {
        xa, pa, xb, pb := x2, p2, x1, p1;
      }
      var ba, bb := Serialize(pa), Serialize(pb);
      var m := t[|xa| + 1..|xb|];
      assert t == xa + "[" + ba && t == xb + "[" + bb;
      assert ba == t[|xa| + 1..];
      assert t[|xa| + 1..] == m + t[|xb|..];
      assert t[|xb|..] == "[" + bb;
      assert ba == m + ("[" + bb);
      assert ba[..|m|] == m;
      SerializeBalanced(pa);
      SerializeBalanced(pb);
      DepthAppend(m, "[" + bb);
      DepthAppend("[", bb);
      assert false;
    }
    assert Serialize(p1) == t[|x1| + 1..];
    assert Serialize(p2) == t[|x2| + 1..];
    SerializeInjective(p1, p2);
  }

  /** A stray `]` fails, as in `+]`. */
  lemma StrayCloseFails()
    ensures Parse("+]") == Failure(PopFromEmptyStack)
  {
    assert "+]"[1..] == "]" && "]"[1..] == [];
    assert Run(Building([], []), "+]") == Run(Building([], [Inc]), "]");
  }

  /** An unclosed `[` returns the open body, as in `+[-`, dropping the `+`. */
  lemma UnclosedOpenReturnsBody()
    ensures Parse("+[-") == Success([Dec])
  {
    assert "+[-"[1..] == "[-" && "[-"[1..] == "-" && "-"[1..] == [];
    assert Step(Building([], []), '+') == Building([], [Inc]);
    assert Run(Building([], []), "+[-") == Run(Building([], [Inc]), "[-");
    assert Run(Building([], [Inc]), "[-") == Run(Building([[Inc]], []), "-");
    assert Run(Building([[Inc]], []), "-") == Building([[Inc]], [Dec]);
  }
}
