/** The I/O environment of the game: the recording writer and the scripted
    reader the repository tests with, the `write` wrapper (write, then flush)
    and `prompt` (marker, read one line, blank line, trim).

    Every operation of the game is a pure function of an `Env` (writer and
    reader state) to an `Outcome`: either the Rust function returned a value
    together with the new environment, or it panicked because a `.unwrap()` on
    a failed read fired, together with the environment at that point. */
module Io {
  import opened Wrappers
  import opened Text

  const PROMPT_MARKER := "> "
  const NEWLINE := "\n"
  const NOTHING_TO_WRITE := "Nothing to write!"
  const NO_MORE_VALUES := "No more values to read."

  // ---------------------------------------------------------------------------
  // TestWriter
  // ---------------------------------------------------------------------------

  /** The recording writer: the lines flushed so far and the line being built. */
  datatype TestWriter = TestWriter(written: seq<string>, pending: Option<string>)

  /** `TestWriter::new`. */
  function NewWriter(): TestWriter {
    TestWriter([], None)
  }

  /** The text of the line being built, empty if none is. */
  function PendingText(w: TestWriter): string {
    if w.pending.Some? then w.pending.value else ""
  }

  /** `TestWriter::append_to_line`: concatenate onto the pending line, or start
      one; nothing is flushed. */
  function AppendToLine(w: TestWriter, s: string): (r: TestWriter)
    ensures r.written == w.written
    ensures r.pending == Some(PendingText(w) + s)
  {
    match w.pending
    case Some(line) => w.(pending := Some(line + s))
    case None => assert "" + s == s; w.(pending := Some(s))
  }

  /** `TestWriter::flush`: move the pending line into the flushed lines; with
      no pending line, fail with "Nothing to write!" and change nothing. */
  function Flush(w: TestWriter): (r: (Result<(), string>, TestWriter))
    ensures r.0.Success? <==> w.pending.Some?
    ensures r.0.Success? ==> r.1 == TestWriter(w.written + [w.pending.value], None)
    ensures r.0.Failure? ==> r.0 == Failure(NOTHING_TO_WRITE) && r.1 == w
  {
    match w.pending
    case Some(line) => (Success(()), TestWriter(w.written + [line], None))
    case None => (Failure(NOTHING_TO_WRITE), w)
  }

  /** The `write` wrapper: emit `s`, then flush. The flush follows an append,
      so it cannot fail and the `.unwrap()` on it never panics. On a writer
      with nothing pending, one write is one new line in the record. */
  function Write(w: TestWriter, s: string): (r: TestWriter)
    ensures r.pending.None?
    ensures r.written == w.written + [PendingText(w) + s]
    ensures w.pending.None? ==> r.written == w.written + [s]
  {
    Flush(AppendToLine(w, s)).1
  }

  /** Append several pieces, one `append_to_line` each, as `write_fmt` does
      for the pieces of a format string. */
  function AppendAll(w: TestWriter, pieces: seq<string>): TestWriter
    decreases |pieces|
  {
    if |pieces| == 0 then w else AppendAll(AppendToLine(w, pieces[0]), pieces[1..])
  }

  function Concat(pieces: seq<string>): string
    decreases |pieces|
  {
    if |pieces| == 0 then "" else pieces[0] + Concat(pieces[1..])
  }

  /** A formatted write that reaches the writer in several pieces still ends
      as ONE flushed line: the pieces' concatenation. This is why a write is
      modelled as appending one already formatted string. */
  lemma {:induction false} AppendAllThenFlush(w: TestWriter, pieces: seq<string>)
    requires |pieces| > 0
    ensures Flush(AppendAll(w, pieces))
         == (Success(()), TestWriter(w.written + [PendingText(w) + Concat(pieces)], None))
    decreases |pieces|
  {
    var w1 := AppendToLine(w, pieces[0]);
    if |pieces| == 1 {
      assert pieces[1..] == [];
      assert AppendAll(w, pieces) == AppendAll(w1, []) == w1;
      assert Concat(pieces) == pieces[0] + "" == pieces[0];
      assert PendingText(w1) == PendingText(w) + pieces[0];
    } else {
      AppendAllThenFlush(w1, pieces[1..]);
      assert PendingText(w1) + Concat(pieces[1..]) == PendingText(w) + (pieces[0] + Concat(pieces[1..]));
    }
  }

  /** Writing each string of `items` in turn, as the menu does with its
      option lines. */
  function WriteEach(w: TestWriter, items: seq<string>): (r: TestWriter)
    ensures w.pending.None? ==> r == TestWriter(w.written + items, None)
    decreases |items|
  {
    if |items| == 0 then
      w
    else
      var r := WriteEach(Write(w, items[0]), items[1..]);
      assert w.pending.None? ==> w.written + [items[0]] + items[1..] == w.written + items;
      r
  }

  // ---------------------------------------------------------------------------
  // TestReader
  // ---------------------------------------------------------------------------

  /** The scripted reader: `One` answers every read with the same text,
      `Many` replays its lines in order, `nextCall` being the next to give. */
  datatype TestReader = One(value: string) | Many(values: seq<string>, nextCall: nat)

  /** `TestReader::read_line` into an empty buffer: the line read and the
      reader after the read, or the error of an exhausted `Many` reader. */
  function ReadLine(r: TestReader): (res: Result<(string, TestReader), string>)
    ensures r.One? ==> res == Success((r.value, r))
    ensures r.Many? && r.nextCall < |r.values|
        ==> res == Success((r.values[r.nextCall], r.(nextCall := r.nextCall + 1)))
    ensures r.Many? && r.nextCall >= |r.values| ==> res == Failure(NO_MORE_VALUES)
  {
    match r
    case One(value) => Success((value, r))
    case Many(values, nextCall) =>
      if nextCall < |values| then Success((values[nextCall], Many(values, nextCall + 1)))
      else Failure(NO_MORE_VALUES)
  }

  /** How many lines a `Many` reader has still to give. */
  function Remaining(r: TestReader): nat {
    if r.Many? && r.nextCall < |r.values| then |r.values| - r.nextCall else 0
  }

  /** `n` successive reads: the lines in order, or the first error. */
  function ReadLines(r: TestReader, n: nat): Result<(seq<string>, TestReader), string>
    decreases n
  {
    if n == 0 then Success(([], r))
    else
      match ReadLine(r)
      case Failure(e) => Failure(e)
      case Success((line, r1)) =>
        match ReadLines(r1, n - 1)
        case Failure(e) => Failure(e)
        case Success((rest, r2)) => Success(([line] + rest, r2))
  }

  /** A `Many` reader replays its script: `n` reads from position `c` give
      exactly the next `n` scripted lines and advance the cursor by `n`, and
      reading past the end fails. */
  lemma {:induction false} ManyReplaysScript(lines: seq<string>, c: nat, n: nat)
    requires c <= |lines|
    ensures c + n <= |lines| ==> ReadLines(Many(lines, c), n) == Success((lines[c..c + n], Many(lines, c + n)))
    ensures c + n > |lines| ==> ReadLines(Many(lines, c), n) == Failure(NO_MORE_VALUES)
    decreases n
  {
    if n > 0 && c < |lines| {
      assert ReadLine(Many(lines, c)) == Success((lines[c], Many(lines, c + 1)));
      ManyReplaysScript(lines, c + 1, n - 1);
      if c + n <= |lines| {
        assert ReadLines(Many(lines, c + 1), n - 1) == Success((lines[c + 1..c + n], Many(lines, c + n)));
        assert [lines[c]] + lines[c + 1..c + n] == lines[c..c + n];
      }
    } else if n == 0 {
      assert lines[c..c] == [];
    }
  }

  /** A `One` reader never runs out and answers every read with its value. */
  lemma {:induction false} OneRepeatsValue(v: string, n: nat)
    ensures ReadLines(One(v), n) == Success((seq(n, _ => v), One(v)))
    decreases n
  {
    if n > 0 {
      assert ReadLine(One(v)) == Success((v, One(v)));
      OneRepeatsValue(v, n - 1);
      assert [v] + seq(n - 1, _ => v) == seq(n, _ => v);
    } else {
      assert seq(0, _ => v) == [];
    }
  }

  // ---------------------------------------------------------------------------
  // The environment and `prompt`
  // ---------------------------------------------------------------------------

  datatype Env = Env(writer: TestWriter, reader: TestReader)

  /** How a call into the game ended: it returned `value`, or it panicked on
      an unwrapped read error; `env` is the environment at that point. */
  datatype Outcome<T> = Returned(value: T, env: Env) | Panicked(env: Env)

  /** `env2`'s transcript extends `env1`'s: nothing written is ever lost. */
  predicate Extends(env1: Env, env2: Env) {
    env1.writer.written <= env2.writer.written
  }

  /** `prompt`: write the marker, read one line, write a blank line, return
      the line trimmed. The marker is written before the read, so it is in the
      record even when the read fails. */
  function Prompt(env: Env): (o: Outcome<string>)
    ensures Extends(env, o.env)
    ensures o.Panicked? <==> ReadLine(env.reader).Failure?
    ensures o.Panicked? ==> o.env.reader == env.reader
    ensures o.Panicked? ==> o.env.writer == TestWriter(env.writer.written + [PendingText(env.writer) + PROMPT_MARKER], None)
    ensures o.Returned? ==> var (line, next) := ReadLine(env.reader).value;
      && o.value == Trim(line)
      && o.env.reader == next
      && o.env.writer == TestWriter(env.writer.written + [PendingText(env.writer) + PROMPT_MARKER, NEWLINE], None)
  {
    var w := Write(env.writer, PROMPT_MARKER);
    match ReadLine(env.reader)
    case Failure(_) => Panicked(Env(w, env.reader))
    case Success((answer, next)) => Returned(Trim(answer), Env(Write(w, NEWLINE), next))
  }

  /** The scenarios of `prompt`'s unit tests: the marker is the first line
      written, and the line "given input" comes back as it was typed. */
  lemma PromptScenarios()
    ensures Prompt(Env(NewWriter(), One("1"))).env.writer.written[0] == PROMPT_MARKER
    ensures Prompt(Env(NewWriter(), One("given input"))) == Returned("given input",
              Env(TestWriter([PROMPT_MARKER, NEWLINE], None), One("given input")))
  {
    assert Trim("given input") == "given input" by {
      TrimCharacterised("given input", 0, |"given input"|);
    }
  }
}
