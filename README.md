# brainfuck.py, modelled in Dafny

`brainfuck.py` compiles brainfuck source text into Python statements and runs
them, and it offers an import hook so that `.bf`/`.b` files on `sys.path` can
be imported like Python modules. This project models the three parts of that
file that make decisions, and proves properties about them:

- **The parser** (`parse_ast`). One left-to-right scan over the source keeps
  a list of instructions it is filling and a stack of enclosing lists. `[`
  pushes the current list and starts a loop body, `]` pops back to the
  parent, and every other non-command character is skipped. The instruction
  tree is the datatype `Syntax.Instr`. `Parser.ParseAst` is the scan written
  as a loop; `Parser.Parse` is the same scan written as a fold of one-character
  steps, and the method is proved equal to it.
- **The meaning of the generated statements.** The state is `data_ptr`, a
  `memory` tape that reads 0 wherever nothing was written (`defaultdict(int)`),
  and the input and output streams. `Interp.ExecSeq`/`Interp.ExecInstr` are an
  interpreter over the tree. `Interp.Machine` holds the same variables as
  fields that its methods update in place, one statement at a time, and is
  proved to agree with the interpreter. On top of these sit the surfaces
  `to_function` and `to_procedure` (module `Embedding`): parse once, then run
  every call from pointer 0 and an empty tape.
- **The importer.** `_find_module_path` tries every `sys.path` entry with
  every file extension, in order. `load_module` reads the first candidate that
  exists and parses it; `install_import_hook` and `remove_import_hook` replace,
  append to or delete from `sys.meta_path` (module `Importer`).

Conventions fixed by the code and kept by the model:

- Cells are unbounded integers. `+` and `-` never wrap.
- `,` stores the character's code, or -1 at end of input.
- `.` emits the cell's integer value; see "Left out" for `chr`.
- A `]` with no open `[` is an error: it pops from an empty list.
- An unclosed `[` is not an error. `parse_ast` then returns the body of the
  innermost open loop, and everything before that `[` is lost:
  `+[-` parses to `[Dec]`. `parse_ast` does not check that every `[` is
  closed, and the model follows the code. `Parser.ParseUnclosed` and
  `Parser.InnermostBodyUnique` pin down exactly what is returned.
- `BrainfuckImporter.__init__` ignores its `module_factory` argument and
  always stores `to_function`.

Programs may loop forever. The interpreter therefore takes a `fuel` bound.
It bounds how many times each loop may iterate, and the bound shrinks by one
for every enclosing iteration; it is not a budget shared by the statements of
a list, so `+[-]+[-]` runs two iterations with fuel 1. `None` means "not
finished within the bound". `Interp.ExecSeqFuelMonotone` shows that more fuel
never changes a finished run, so the bound only cuts runs short.

The files: `wrappers.dfy` (Option, Result), `syntax.dfy`, `parser.dfy`,
`interp.dfy`, `embedding.dfy`, `importer.dfy`.

## Model

| member | source | states |
|---|---|---|
| `Syntax.Strip` | brainfuck.py:92-124 | The command characters of a text, in order. The result is never longer than the text and holds only the eight command characters. |
| `Syntax.SerializeBalanced` | brainfuck.py:117-124 | The text of every instruction tree is made of command characters only and has balanced brackets: no prefix closes more than it opened, and the depth ends at 0. |
| `Parser.Parse` | brainfuck.py:90-126 | The scan as a fold of one-character steps. It fails exactly when some prefix of the text closes more brackets than it opened. |
| `Parser.ParseAst` | brainfuck.py:90-126 | The imperative scan, with its list and stack updated character by character, returns exactly `Parse(code)`. That includes the error for a stray `]` and the innermost-body result for an unclosed `[`. |
| `Parser.ParseIgnoresComments` | brainfuck.py:92-124 | Parsing a text gives the same result as parsing its command characters alone. |
| `Parser.ParseSerialize` | brainfuck.py:95-124 | Round trip: parsing the text of any program gives back that program. |
| `Parser.SerializeInjective` | brainfuck.py:95-124 | Two programs with the same text are equal. |
| `Parser.RunText` | brainfuck.py:90-124 | Invariant of the scan. It fails exactly when some prefix closes more brackets than are open. Otherwise the stack depth equals the number of open brackets, and the open lists followed by the current list spell the command characters read so far. |
| `Parser.ParseBalanced` | brainfuck.py:117-126 | On balanced text, parsing succeeds and returns the top-level list. Its text is the input's command characters. |
| `Parser.ParseUnclosed` | brainfuck.py:117-126 | When a `[` is left open (and no `]` is stray), parsing succeeds with a list whose text is what follows the last open `[`. The command text is some prefix, then `[`, then the text of the result. |
| `Parser.InnermostBodyUnique` | brainfuck.py:126 | That split is unique: if two programs both complete a prefix plus `[` to the same text, they are equal. So the unclosed-bracket result is fully determined. |
| `Parser.StrayCloseFails` | brainfuck.py:122-124 | `+]` fails with a pop from the empty stack. |
| `Parser.UnclosedOpenReturnsBody` | brainfuck.py:117-126 | `+[-` parses to `[Dec]`: the open body, without the `+` before it. |
| `Interp.Fresh` | brainfuck.py:55-56 | A run starts with pointer 0, every cell 0, nothing written, and all input unread. |
| `Interp.Prim` | brainfuck.py:95-116 | Each primitive touches only what it names. `>`/`<` move only the pointer, by ±1. `+`/`-` change only the current cell, by exactly ±1. `.` appends the current cell to the output. `,` sets the current cell to the next character's code, or -1 at end of input, and consumes at most one character. No cell other than the current one changes. |
| `Interp.ExecInstr` | brainfuck.py:117-121 | A loop whose current cell is 0 on entry runs its body zero times and leaves the state as it was. Whenever a loop finishes, the current cell is 0. |
| `Interp.ExecSeq` | brainfuck.py:95-121 | The statements of a list run one after the other. The empty list leaves the state as it was, and a finished list whose last statement is a loop ends on a zero cell. |
| `Interp.ExecSeqAdvances` | brainfuck.py:107-116 | A finished run only appends to the output and only consumes input from the front. |
| `Interp.ExecSeqFuelMonotone` | brainfuck.py:117-121 | A finished run gives the same final state with any larger bound on loop iterations. |
| `Interp.ExecSeqOutputIndependent` | brainfuck.py:50-57 | What the output stream already holds does not influence a run: the run writes the same characters after it and otherwise ends in the same state. |
| `Interp.Machine.constructor` | brainfuck.py:55-56 | A new machine is in the fresh state for its input. |
| `Interp.Machine.Exec` | brainfuck.py:57 | Running a statement list in place, stopping when a loop runs out of fuel, leaves the machine in the state `ExecSeq` computes. It reports whether the run finished. |
| `Interp.Machine.ExecOne` | brainfuck.py:95-121 | One statement updates the machine in place, a loop as a `while` on the current cell, to the state `ExecInstr` computes. |
| `Embedding.RunProcedure` | brainfuck.py:50-57 | One call of the procedure `to_procedure` builds, from pointer 0 and an empty tape. A finished call only appends to its sink and leaves a suffix of its input unread. |
| `Embedding.RunFunction` | brainfuck.py:34-38 | One call of the function `to_function` builds. It finishes exactly when the program finishes from the fresh state, and returns that run's output. |
| `Embedding.Brainfuck` | brainfuck.py:29-40 | `to_function(code)(input)`. It fails, at construction, exactly when some `]` in the code has no open `[`. |
| `Embedding.ProcedureMatchesFunction` | brainfuck.py:29-59 | The procedure and the string function agree. The procedure finishes exactly when the function does, appends to its sink exactly what the function returns, and leaves a suffix of its input unread. |
| `Embedding.BrainfuckIgnoresComments` | brainfuck.py:29-40 | Comments in the source never change what the compiled function returns. |
| `Embedding.RunFunctionFuelMonotone` | brainfuck.py:34-38 | A call that finished returns the same output with any larger bound. |
| `Embedding.CallFunction` | brainfuck.py:34-38 | One call of the compiled function allocates a fresh machine. Its result depends only on the program and the input, so earlier calls have no effect and equal calls give equal outputs. |
| `Embedding.ToFunction` | brainfuck.py:29-32 | Construction parses once. It fails exactly on a stray `]`. On balanced text the program's text is the source's command characters. |
| `Embedding.EchoStopsAtEndOfInput` | brainfuck.py:110-121 | `,+[-.,+]` on input `hi` outputs the codes of `h` and `i` and stops, because the -1 read at end of input becomes 0 after the `+`. |
| `Importer.NewImporter` | brainfuck.py:139-142 | The importer keeps the extensions it is given, and its factory is always `to_function`, whatever argument was passed. |
| `Importer.Split` | brainfuck.py:158 | `fullname.split(".")` gives at least one part. Joining the parts with `.` gives back the name, and no part contains `.`. |
| `Importer.Candidate` | brainfuck.py:161-169 | A candidate path is the base path (left out when empty), then the parent packages, then `last.ext`. |
| `Importer.FindModulePath` | brainfuck.py:157-172 | The result is none exactly when no candidate exists. Otherwise it is an existing candidate for some search-path entry and extension, and every candidate tried before it (earlier entry, or same entry and earlier extension) does not exist. |
| `Importer.FindModule` | brainfuck.py:144-147 | The importer claims a name exactly when some candidate path for it exists. |
| `Importer.FirstCandidateUnique` | brainfuck.py:157-172 | At most one (search-path entry, extension) pair names an existing candidate with every earlier candidate missing, so the file `_find_module_path` returns is determined. |
| `Importer.LoadModule` | brainfuck.py:149-155 | `ImportError` exactly when no candidate exists. Otherwise the file read is the first existing candidate in search order (an existing candidate with every earlier one missing). The result is the importer's factory around the parsed program when parsing that file succeeds, and `ParseFailed` with the parse error when it fails. |
| `Importer.FirstBrainfuck` | brainfuck.py:188-191 | Finds the index of the first brainfuck importer in the list, with only other finders before it; or finds that there is none. |
| `Importer.Installed` | brainfuck.py:185-193 | The list after an install holds the new finder, is as long as before or one longer, and keeps every other finder at its index. When the list has no brainfuck importer, the new finder is appended at the end. |
| `Importer.Removed` | brainfuck.py:196-202 | The list after a remove is unchanged or one shorter, holds only finders it held before, and still holds every other finder. |
| `Importer.RemovedKeepsOthers` | brainfuck.py:198-202 | When there is a brainfuck importer, the one deleted is the first, and every other entry keeps its order: those before it keep their index, those after it move up by one. |
| `Importer.MetaPath.InstallImportHook` | brainfuck.py:175-193 | Uses the given importer, or a new one with the given or default extensions. It replaces the first brainfuck importer in place and returns false; if there is none, it appends and returns true. |
| `Importer.MetaPath.RemoveImportHook` | brainfuck.py:196-202 | Deletes the first brainfuck importer and returns true; returns false and changes nothing if there is none. |
| `Importer.InstalledCount` | brainfuck.py:185-193 | After installing a brainfuck importer, a list with none holds exactly one and is one longer. A list that had some keeps its count and its length. |
| `Importer.InstalledKeepsOthers` | brainfuck.py:188-191 | Replacing in place changes only the entry at that index. |
| `Importer.InstallTwice` | brainfuck.py:185-193 | Starting from no importer, a second install finds the first one (so it returns false), and the list then holds exactly one importer. |
| `Importer.RemovedCount` | brainfuck.py:196-202 | Removing takes exactly one brainfuck importer away, and one entry, when there is one; otherwise it changes nothing. |
| `Importer.RemoveUndoesInstall` | test_brainfuck.py:76-82 | On a list without a brainfuck importer, install followed by remove restores the list, so no importer is left. |

## Left out

- Building Python AST nodes, `ast.parse`, `compile`, `exec` and `fix_missing_locations` (brainfuck.py:47-48, 57, 64-73, 129-132). The model gives the meaning of the generated statements directly, as an interpreter. Limits of the host compiler are not modelled either: CPython 2 rejects more than 20 statically nested blocks, so a program with 21 nested `[` fails when the generated module is compiled on each call (brainfuck.py:57), while the model runs it.
- `to_module` (brainfuck.py:62-73): it generates a module that runs the same statements against `sys.stdout`/`sys.stdin`. Its behaviour is `Embedding.RunProcedure` with those streams, which are not modelled.
- Real streams: `StringIO`, and the default to `sys.stdout`/`sys.stdin` when no stream is passed (brainfuck.py:51-54). Input is a sequence of characters consumed from the front; output is a sequence of integers.
- Interp.Prim: `.` emits the integer cell value. It does not model that Python 2's `chr` raises for values outside 0..255.
- Interp.Prim: `,` stores the character's code (`char as int`). Input is taken as already decoded characters, not bytes.
- Interp.ExecSeq: non-termination is represented by a fuel bound on the iterations of each loop (shrinking with nesting). A run that needs more fuel than given yields `None`. The source has no such bound.
- Reading a cell of a `defaultdict` inserts a 0 entry. The model reads missing keys as 0 without inserting them; no statement can observe the difference.
- The source appends a loop's node to its parent list at `[` and fills the aliased body afterwards. The model appends `Loop(body)` at the matching `]`. The returned lists are the same in every case, up to the `pass` statement that starts every loop body the source builds (brainfuck.py:118) and the two statements the source emits for each `,` (brainfuck.py:113-116), which the model keeps as one `In`.
- `os.path.join` and `os.path.exists`: a path is the list of its components, and the file system is a map from existing paths to their contents. Absolute components that restart a join are not modelled, nor is the difference between files and directories. Errors from `open` or `read` are not modelled.
- `find_module` returns the importer itself or `None`; `Importer.FindModule` returns whether it would.
- Finders in `sys.meta_path` are values tagged as brainfuck importer (of any subclass) or other. Object identity is not modelled.
- `install_import_hook(**kwargs)`: of the keyword arguments, only `file_extensions` is modelled. `module_factory` is ignored by `__init__` anyway.
- Caching of imported modules in `sys.modules` and the host's import machinery. `brainfuck.py` implements no cache of its own.
- The command-line entry point (brainfuck.py:205-211), setup.py, perftest.py, tests.py and test_brainfuck.py. The hello-world and rot13 tests depend on program files that are not part of this model.
