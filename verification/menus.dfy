/** The numbered menu: a header, one line per choice, a prompt, and the
    chosen number checked against the number of choices. */
module Menus {
  import opened Wrappers
  import opened Text
  import opened Io

  const MENU_HEADER := "\nPlease choose from the following...\n"
  const INVALID_CHOICE := "Invalid choice!"

  /** The line listing choice number `n` with its name. */
  function OptionLine(n: nat, name: string): string {
    Show(n) + ") " + name + "\n"
  }

  /** The option lines, numbered from 1 in the order of `choices`. */
  function OptionLines(choices: seq<string>): (r: seq<string>)
    ensures |r| == |choices|
    ensures forall i :: 0 <= i < |choices| ==> r[i] == OptionLine(i + 1, choices[i])
  {
    seq(|choices|, i requires 0 <= i < |choices| => OptionLine(i + 1, choices[i]))
  }

  /** What `menu` makes of the trimmed line `t` when there are `count`
      choices: the number if it parses as a `usize` between 1 and `count`,
      otherwise the invalid-choice error. */
  function Choice(count: nat, t: string): (r: Result<nat, string>)
    ensures r.Success? ==> 1 <= r.value <= count
    ensures r.Failure? ==> r.error == INVALID_CHOICE
  {
    match ParseUsize(t)
    case Some(num) => if num > 0 && num <= count then Success(num) else Failure(INVALID_CHOICE)
    case None => Failure(INVALID_CHOICE)
  }

  /** The verdict without the parser: for any menu a slice can hold, a line
      is accepted exactly when it is a numeral (optional `+`, digits) whose
      value lies between 1 and the number of choices, and the number given
      back is that value. */
  lemma ChoiceSpec(count: nat, t: string)
    requires count <= USIZE_MAX
    ensures Choice(count, t).Success? <==> IsNumeral(t) && 1 <= NumeralValue(t) <= count
    ensures Choice(count, t).Success? ==> Choice(count, t).value == NumeralValue(t)
  {
    ParseUsizeSpec(t);
  }

  /** Typing the number a choice is listed under selects that choice. */
  lemma ChoiceOfListedNumber(count: nat, n: nat)
    requires 1 <= n <= count <= USIZE_MAX
    ensures Choice(count, Show(n)) == Success(n)
  {
    ShowParses(n, USIZE_MAX);
  }

  /** `menu`: write the header and the numbered choices, prompt for one line
      and check it. Exactly one line is read; the transcript is the header,
      one line per choice, the prompt marker and (once the read succeeded)
      the blank line; a panic happens only when the read fails. */
  function Menu(choices: seq<string>, env: Env): (o: Outcome<Result<nat, string>>)
    ensures Extends(env, o.env)
    ensures o.Panicked? <==> ReadLine(env.reader).Failure?
    ensures o.Panicked? ==> o.env.reader == env.reader
    ensures env.writer.pending.None? ==>
      && o.env.writer.pending.None?
      && o.env.writer.written == env.writer.written + [MENU_HEADER] + OptionLines(choices) + [PROMPT_MARKER]
                                 + (if o.Returned? then [NEWLINE] else [])
    ensures o.Returned? ==> var (line, next) := ReadLine(env.reader).value;
      && o.env.reader == next
      && o.value == Choice(|choices|, Trim(line))
    ensures o.Returned? && o.value.Success? ==> 1 <= o.value.value <= |choices|
    ensures o.Returned? && o.value.Failure? ==> o.value.error == INVALID_CHOICE
  {
    var w1 := Write(env.writer, MENU_HEADER);
    var w2 := WriteEach(w1, OptionLines(choices));
    assert env.writer.pending.None? ==> w2.written == env.writer.written + [MENU_HEADER] + OptionLines(choices);
    match Prompt(Env(w2, env.reader))
    case Panicked(e) => Panicked(e)
    case Returned(answer, e) => Returned(Choice(|choices|, answer), e)
  }

  /** A menu with no choices accepts nothing. */
  lemma EmptyMenuRejects(env: Env)
    ensures Menu([], env).Returned? ==> Menu([], env).value == Failure(INVALID_CHOICE)
  {
  }

  // ---------------------------------------------------------------------------
  // The scenarios of the repository's unit tests
  // ---------------------------------------------------------------------------

  /** With choices "first" and "second", the header is the first line written
      and the choices follow it, numbered. */
  lemma MenuListsChoices()
    ensures var o := Menu(["first", "second"], Env(NewWriter(), One("1")));
      && o.env.writer.written[0] == MENU_HEADER
      && o.env.writer.written[1] == "1) first\n"
      && o.env.writer.written[2] == "2) second\n"
  {
    var o := Menu(["first", "second"], Env(NewWriter(), One("1")));
    assert Show(1) == "1" && Show(2) == "2";
    assert o.env.writer.written[1] == OptionLine(1, "first");
    assert o.env.writer.written[2] == OptionLine(2, "second");
  }

  /** With the single choice "choice": "1" selects it; "not a number", "-1",
      "2" and "0" are invalid choices. */
  lemma MenuVerdicts()
    ensures Choice(1, "1") == Success(1)
    ensures Choice(1, "not a number") == Failure(INVALID_CHOICE)
    ensures Choice(1, "-1") == Failure(INVALID_CHOICE)
    ensures Choice(1, "2") == Failure(INVALID_CHOICE)
    ensures Choice(1, "0") == Failure(INVALID_CHOICE)
  {
    assert Choice(1, "1") == Success(1) by {
      assert Show(1) == "1";
      ChoiceOfListedNumber(1, 1);
    }
    assert Choice(1, "not a number") == Failure(INVALID_CHOICE) by {
      ChoiceSpec(1, "not a number");
      assert !IsDigit('n');
    }
    assert Choice(1, "-1") == Failure(INVALID_CHOICE) by {
      ChoiceSpec(1, "-1");
      assert !IsDigit('-');
    }
    assert Choice(1, "2") == Failure(INVALID_CHOICE) by {
      ChoiceSpec(1, "2");
      assert "2"[..0] == [];
    }
    assert Choice(1, "0") == Failure(INVALID_CHOICE) by {
      ChoiceSpec(1, "0");
      assert "0"[..0] == [];
    }
  }

  /** The menu reads its answer through `prompt`: on the line "1" and the
      single choice "choice" it returns 1. */
  lemma MenuReturnsInput()
    ensures Menu(["choice"], Env(NewWriter(), One("1"))) == Returned(Success(1),
      Env(TestWriter([MENU_HEADER, "1) choice\n", PROMPT_MARKER, NEWLINE], None), One("1")))
  {
    assert Trim("1") == "1" by { TrimCharacterised("1", 0, 1); }
    assert Choice(1, "1") == Success(1) by { MenuVerdicts(); }
    assert OptionLines(["choice"]) == ["1) choice\n"] by {
      assert Show(1) == "1";
      assert OptionLines(["choice"])[0] == OptionLine(1, "choice") == "1) choice\n";
    }
  }
}
