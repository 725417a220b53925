/**
 * The instruction tree of a brainfuck program, the eight command characters,
 * and the bracket-depth bookkeeping that the parser and its proofs rely on.
 */
module Syntax {

  /** One instruction; a loop owns its body, so a program is a tree. */
  datatype Instr =
    | Right            // `>`: data_ptr += 1
    | Left             // `<`: data_ptr -= 1
    | Inc              // `+`: memory[data_ptr] += 1
    | Dec              // `-`: memory[data_ptr] -= 1
    | Out              // `.`: output.write(chr(memory[data_ptr]))
    | In               // `,`: read one character, -1 at end of input
    | Loop(body: seq<Instr>)  // `[ ... ]`: while memory[data_ptr]: body

  type Program = seq<Instr>

  /** The characters the parser reacts to; everything else is a comment. */
  predicate IsCommand(c: char) {
    c == '>' || c == '<' || c == '+' || c == '-' || c == '.' || c == ',' || c == '[' || c == ']'
  }

  /** The command characters of `s`, in order. */
  function Strip(s: string): (r: string)
    ensures |r| <= |s|
    ensures forall k :: 0 <= k < |r| ==> IsCommand(r[k])
  {
    if s == [] then []
    else (if IsCommand(s[0]) then [s[0]] else []) + Strip(s[1..])
  }

  /** The source text of one instruction. */
  function SerializeInstr(i: Instr): string {
    match i
    case Right => ">"
    case Left => "<"
    case Inc => "+"
    case Dec => "-"
    case Out => "."
    case In => ","
    case Loop(body) => "[" + Serialize(body) + "]"
  }

  /** The source text of a program: its instructions' texts, concatenated. */
  function Serialize(p: Program): string {
    if p == [] then [] else SerializeInstr(p[0]) + Serialize(p[1..])
  }

  /** How much `c` changes the nesting depth. */
  function Delta(c: char): int {
    if c == '[' then 1 else if c == ']' then -1 else 0
  }

  /** Number of `[` minus number of `]` in `s`. */
  function Depth(s: string): int {
    if s == [] then 0 else Delta(s[0]) + Depth(s[1..])
  }

  /** Starting at nesting level `k`, no prefix of `s` takes the level below 0. */
  ghost predicate StaysAbove(s: string, k: int) {
    forall j :: 0 <= j <= |s| ==> k + Depth(s[..j]) >= 0
  }

  /** No `]` of `s` closes more brackets than are open at that point. */
  ghost predicate NoUnderflow(s: string) {
    StaysAbove(s, 0)
  }

  /** Every `[` is closed and no `]` comes too early. */
  ghost predicate Balanced(s: string) {
    NoUnderflow(s) && Depth(s) == 0
  }

  lemma {:induction false} DepthAppend(a: string, b: string)
    ensures Depth(a + b) == Depth(a) + Depth(b)
  {
    if a != [] {
      assert (a + b)[1..] == a[1..] + b;
      DepthAppend(a[1..], b);
    } else {
      assert a + b == b;
    }
  }

  /** StaysAbove unfolded by one character. */
  lemma StaysAboveCons(s: string, k: int)
    requires s != []
    ensures StaysAbove(s, k) <==> k >= 0 && StaysAbove(s[1..], k + Delta(s[0]))
  {
    forall j | 1 <= j <= |s|
      ensures Depth(s[..j]) == Delta(s[0]) + Depth(s[1..][..j - 1])
    {
      assert s[..j][1..] == s[1..][..j - 1];
    }
    if StaysAbove(s, k) {
      assert k + Depth(s[..0]) >= 0;
      forall j | 0 <= j <= |s[1..]|
        ensures k + Delta(s[0]) + Depth(s[1..][..j]) >= 0
      {
        assert k + Depth(s[..j + 1]) >= 0;
      }
    }
    if k >= 0 && StaysAbove(s[1..], k + Delta(s[0])) {
      forall j | 0 <= j <= |s|
        ensures k + Depth(s[..j]) >= 0
      {
        if j > 0 {
          assert k + Delta(s[0]) + Depth(s[1..][..j - 1]) >= 0;
        }
      }
    }
  }

  lemma {:induction false} SerializeAppend(p: Program, q: Program)
    ensures Serialize(p + q) == Serialize(p) + Serialize(q)
  {
    if p == [] {
      assert p + q == q;
    } else {
      assert (p + q)[0] == p[0];
      assert (p + q)[1..] == p[1..] + q;
      SerializeAppend(p[1..], q);
    }
  }

  /** Concatenating two texts that stay at or above level 0 keeps the level. */
  lemma StaysAboveAppend(a: string, b: string, k: int)
    requires StaysAbove(a, k) && StaysAbove(b, k + Depth(a))
    ensures StaysAbove(a + b, k)
  {
    forall j | 0 <= j <= |a + b|
      ensures k + Depth((a + b)[..j]) >= 0
    {
      if j <= |a| {
        assert (a + b)[..j] == a[..j];
      } else {
        assert (a + b)[..j] == a + b[..j - |a|];
        DepthAppend(a, b[..j - |a|]);
      }
    }
  }

  /**
   * The text of every program is well formed: it consists of command
   * characters only and its brackets are balanced.
   */
  lemma {:induction false} SerializeBalanced(p: Program)
    ensures Balanced(Serialize(p))
    ensures Strip(Serialize(p)) == Serialize(p)
    decreases p
  {
    if p != [] {
      SerializeBalanced(p[1..]);
      SerializeInstrBalanced(p[0]);
      DepthAppend(SerializeInstr(p[0]), Serialize(p[1..]));
      StaysAboveAppend(SerializeInstr(p[0]), Serialize(p[1..]), 0);
      StripAppend(SerializeInstr(p[0]), Serialize(p[1..]));
    }
  }

  lemma {:induction false} SerializeInstrBalanced(i: Instr)
    ensures Balanced(SerializeInstr(i))
    ensures Strip(SerializeInstr(i)) == SerializeInstr(i)
    decreases i
  {
    var t := SerializeInstr(i);
    if i.Loop? {
      var b := Serialize(i.body);
      SerializeBalanced(i.body);
      DepthAppend("[", b);
      DepthAppend("[" + b, "]");
      assert StaysAbove("[", 0) by {
        assert forall j :: 0 <= j <= 1 ==> "["[..j] == if j == 0 then [] else "[";
      }
      assert StaysAbove(b, 1) by {
        forall j | 0 <= j <= |b| ensures 1 + Depth(b[..j]) >= 0 {
          assert Depth(b[..j]) >= 0;
        }
      }
      StaysAboveAppend("[", b, 0);
      assert StaysAbove("]", 0 + Depth("[" + b)) by {
        assert forall j :: 0 <= j <= 1 ==> "]"[..j] == if j == 0 then [] else "]";
      }
      StaysAboveAppend("[" + b, "]", 0);
      StripAppend("[", b);
      StripAppend("[" + b, "]");
    } else {
      assert forall j :: 0 <= j <= 1 ==> t[..j] == if j == 0 then [] else t;
    }
  }

  lemma {:induction false} StripAppend(a: string, b: string)
    ensures Strip(a + b) == Strip(a) + Strip(b)
  {
    if a == [] {
      assert a + b == b;
    } else {
      assert (a + b)[0] == a[0];
      assert (a + b)[1..] == a[1..] + b;
      StripAppend(a[1..], b);
    }
  }
}
