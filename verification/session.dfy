/** The program around the rounds: the greeting, then the loop that shows the
    menu, draws a secret, and plays, exits or complains about the choice.
    The random secret of each pass is `draw(round)`, `round` counting the
    passes from 0, so every statement here holds for every generator. */
module Session {
  import opened Wrappers
  import opened Text
  import opened Io
  import opened Game
  import opened Menus
  import opened Rounds

  const CHOICES := ["play game", "exit"]
  const WELCOME := "Welcome to the guessing game!\n\n"
  const YOU_QUIT := "You quit. "
  const UNKNOWN_ERROR := "An unknown Error occurred."
  const YOU_WON := "You won!\n"
  const PLAY_AGAIN := "Play again?\n"

  /** The choice the menu makes of the line `line`. */
  function Selection(line: string): Result<nat, string> {
    Choice(|CHOICES|, Trim(line))
  }

  /** What the program says about a finished round: a distinct message for a
      win, a quit and the unknown error. */
  function Verdict(result: Result<(), GameError>): (r: string)
    ensures r == YOU_WON <==> result.Success?
    ensures r == YOU_QUIT <==> result == Failure(Quit)
    ensures r == UNKNOWN_ERROR <==> result == Failure(Unknown)
  {
    match result
    case Success(_) => YOU_WON
    case Failure(Quit) => YOU_QUIT
    case Failure(Unknown) => UNKNOWN_ERROR
  }

  /** A pass of the loop returns on this reader: a `Many` reader always lets
      it return or panic; a `One` reader only when its line does not start a
      round, or starts one that its line also ends. */
  predicate PassHalts(secret: u8, r: TestReader) {
    r.Many? || Selection(r.value) != Success(1) || Terminal(secret, Trim(r.value))
  }

  /** The session returns on this reader: a `One` reader must choose "exit",
      since any other line repeats forever. */
  predicate SessionHalts(r: TestReader) {
    r.Many? || Selection(r.value) == Success(2)
  }

  /** The menu of the program offers exactly "play game" (1) and "exit" (2),
      so the catch-all arm of the choice match is never taken. */
  lemma OnlyPlayOrExit(env: Env)
    ensures var o := Menu(CHOICES, env);
      o.Returned? && o.value.Success? ==> o.value.value == 1 || o.value.value == 2
  {
  }

  /** One pass of the `while playing` loop: the menu, a fresh game with
      `secret`, then the chosen branch. Returns whether to keep playing. It
      stops exactly when the line read selects "exit", and then writes nothing
      after the menu; it panics only when a read fails. */
  function Pass(secret: u8, env: Env): (o: Outcome<bool>)
    requires PassHalts(secret, env.reader)
    ensures Extends(env, o.env)
    ensures o.Panicked? ==> ReadLine(o.env.reader).Failure?
    ensures o.Returned? ==> ReadLine(env.reader).Success?
    ensures (o.Returned? && !o.value) <==> ReadLine(env.reader).Success? && Selection(ReadLine(env.reader).value.0) == Success(2)
    ensures o.Returned? && !o.value ==> o.env == Menu(CHOICES, env).env
    ensures env.reader.One? ==> o.Returned? && o.env.reader == env.reader
    ensures env.reader.Many? ==> && o.env.reader.Many?
                                 && o.env.reader.values == env.reader.values
                                 && o.env.reader.nextCall >= env.reader.nextCall
                                 && (o.Returned? ==> o.env.reader.nextCall > env.reader.nextCall)
  {
    match Menu(CHOICES, env)
    case Panicked(e) => Panicked(e)
    case Returned(res, e) =>
      match res
      case Failure(reason) => Returned(true, e.(writer := Write(e.writer, reason + "\n")))
      case Success(choice) =>
        if choice == 1 then
          match Play(Game(secret), e)
          case Panicked(e2) => Panicked(e2)
          case Returned(result, e2) =>
            var w := Write(Write(e2.writer, Verdict(result)), PLAY_AGAIN);
            Returned(true, e2.(writer := w))
        else if choice == 2 then
          Returned(false, e)
        else
          Returned(true, e.(writer := Write(e.writer, INVALID_CHOICE + "\n")))
  }

  /** The loop of `main` from pass `round` on, until "exit" is chosen or a
      read panics. What it promises is stated by `SessionKeepsScript` and
      `SessionEndsOnExit`. */
  function Session(draw: nat -> u8, round: nat, env: Env): Outcome<()>
    requires SessionHalts(env.reader)
    decreases Remaining(env.reader)
  {
    match Pass(draw(round), env)
    case Panicked(e) => Panicked(e)
    case Returned(again, e) =>
      if again then Session(draw, round + 1, e) else Returned((), e)
  }

  /** The loop never loses output and panics only on a failed read; it
      leaves a `One` reader as it was, and only moves a `Many` reader
      forward over the same script. */
  lemma {:induction false} SessionKeepsScript(draw: nat -> u8, round: nat, env: Env)
    requires SessionHalts(env.reader)
    ensures var o := Session(draw, round, env);
      && Extends(env, o.env)
      && (o.Panicked? ==> ReadLine(o.env.reader).Failure?)
      && (env.reader.One? ==> o.Returned? && o.env.reader == env.reader)
      && (env.reader.Many? ==> && o.env.reader.Many?
                               && o.env.reader.values == env.reader.values
                               && o.env.reader.nextCall >= env.reader.nextCall)
    decreases Remaining(env.reader)
  {
    var p := Pass(draw(round), env);
    if p.Returned? && p.value {
      SessionKeepsScript(draw, round + 1, p.env);
    }
  }

  /** When the loop returns on a script, the last line it read chose
      "exit". */
  lemma {:induction false} SessionEndsOnExit(draw: nat -> u8, round: nat, env: Env)
    requires SessionHalts(env.reader) && env.reader.Many?
    ensures var o := Session(draw, round, env);
      o.Returned? ==> var r := o.env.reader;
        r.Many? && 0 < r.nextCall <= |r.values| && Selection(r.values[r.nextCall - 1]) == Success(2)
    decreases Remaining(env.reader)
  {
    var p := Pass(draw(round), env);
    if p.Returned? {
      if p.value {
        SessionEndsOnExit(draw, round + 1, p.env);
      } else {
        ExitPassReadsExit(draw(round), env);
      }
    }
  }

  /** A pass that ends the loop on a script has read exactly one line, and
      that line selects "exit". */
  lemma ExitPassReadsExit(secret: u8, env: Env)
    requires PassHalts(secret, env.reader) && env.reader.Many?
    requires Pass(secret, env).Returned? && !Pass(secret, env).value
    ensures var r := Pass(secret, env).env.reader;
      r.Many? && 0 < r.nextCall <= |r.values| && Selection(r.values[r.nextCall - 1]) == Success(2)
  {
    var c := env.reader.nextCall;
    assert ReadLine(env.reader) == Success((env.reader.values[c], env.reader.(nextCall := c + 1)));
  }

  /** `main`: greet, then run the loop from the first pass. */
  function Program(draw: nat -> u8, env: Env): (o: Outcome<()>)
    requires SessionHalts(env.reader)
    ensures env.writer.pending.None? ==> |o.env.writer.written| > |env.writer.written|
                                         && o.env.writer.written[|env.writer.written|] == WELCOME
    ensures o.Panicked? ==> ReadLine(o.env.reader).Failure?
  {
    var e := env.(writer := Write(env.writer, WELCOME));
    SessionKeepsScript(draw, 0, e);
    Session(draw, 0, e)
  }

  /** `main` as written: a `playing` flag, one menu and one fresh secret per
      pass, and `Game::play` run by its own loop. It agrees with `Program`. */
  method MainLoop(draw: nat -> u8, env: Env) returns (o: Outcome<()>)
    requires SessionHalts(env.reader)
    ensures o == Program(draw, env)
  {
    var e := env.(writer := Write(env.writer, WELCOME));
    var playing := true;
    var round := 0;
    while playing
      invariant SessionHalts(e.reader)
      invariant playing ==> Program(draw, env) == Session(draw, round, e)
      invariant !playing ==> Program(draw, env) == Returned((), e)
      decreases if playing then Remaining(e.reader) + 1 else 0
    {
      var before := e;
      var res := Menu(CHOICES, e);
      if res.Panicked? {
        return Panicked(res.env);
      }
      e := res.env;
      var secret := draw(round);
      match res.value {
        case Success(choice) =>
          if choice == 1 {
            var gameResult := PlayLoop(Game(secret), e);
            if gameResult.Panicked? {
              return Panicked(gameResult.env);
            }
            e := gameResult.env;
            e := e.(writer := Write(e.writer, Verdict(gameResult.value)));
            e := e.(writer := Write(e.writer, PLAY_AGAIN));
          } else if choice == 2 {
            playing := false;
          } else {
            e := e.(writer := Write(e.writer, INVALID_CHOICE + "\n"));
          }
        case Failure(reason) =>
          e := e.(writer := Write(e.writer, reason + "\n"));
      }
      assert Pass(secret, before) == Returned(playing, e);
      round := round + 1;
    }
    return Returned((), e);
  }

  // ---------------------------------------------------------------------------
  // Whole sessions on a script
  // ---------------------------------------------------------------------------

  /** The menu of the program as written on a flushed writer. */
  const MENU_LINES := [MENU_HEADER, "1) play game\n", "2) exit\n"]

  /** The program's choices are listed as "1) play game" and "2) exit". */
  lemma ProgramMenuLines()
    ensures [MENU_HEADER] + OptionLines(CHOICES) == MENU_LINES
  {
    assert Show(1) == "1" && Show(2) == "2";
    assert OptionLine(1, "play game") == "1) play game\n";
    assert OptionLine(2, "exit") == "2) exit\n";
    assert OptionLines(CHOICES)[0] == OptionLine(1, "play game");
    assert OptionLines(CHOICES)[1] == OptionLine(2, "exit");
  }

  /** The line "2" chooses "exit", "1" chooses "play game". */
  lemma SelectionsOfDigits()
    ensures Selection("1") == Success(1) && Selection("2") == Success(2)
  {
    assert Trim("1") == "1" by { TrimCharacterised("1", 0, 1); }
    assert Trim("2") == "2" by { TrimCharacterised("2", 0, 1); }
    assert Show(1) == "1" && Show(2) == "2";
    ChoiceOfListedNumber(2, 1);
    ChoiceOfListedNumber(2, 2);
  }

  /** A pass that ends the loop ends the session there. */
  lemma SessionStops(draw: nat -> u8, round: nat, env: Env, e: Env)
    requires SessionHalts(env.reader) && Pass(draw(round), env) == Returned(false, e)
    ensures Session(draw, round, env) == Returned((), e)
  {
  }

  /** A pass that keeps the loop going on a script hands on to the next
      pass. */
  lemma SessionContinues(draw: nat -> u8, round: nat, env: Env, e: Env)
    requires env.reader.Many? && e.reader.Many? && Pass(draw(round), env) == Returned(true, e)
    ensures Session(draw, round, env) == Session(draw, round + 1, e)
  {
  }

  /** Choosing "exit" straight away: the greeting, one menu, and nothing
      else; the line is read and the program returns. */
  lemma ExitAtOnce(draw: nat -> u8)
    ensures SessionHalts(Many(["2"], 0))
         && Program(draw, Env(NewWriter(), Many(["2"], 0)))
         == Returned((), Env(TestWriter([WELCOME] + MENU_LINES + [PROMPT_MARKER, NEWLINE], None), Many(["2"], 1)))
  {
    SelectionsOfDigits();
    ProgramOnFreshWriter(draw, Many(["2"], 0));
    PassExits(draw(0), [WELCOME], ["2"], 0);
    SessionStops(draw, 0, Env(TestWriter([WELCOME], None), Many(["2"], 0)),
                 Env(TestWriter([WELCOME] + MENU_LINES + [PROMPT_MARKER, NEWLINE], None), Many(["2"], 1)));
  }

  /** A `One` reader that answers "2" ends the program after one menu, its
      reader untouched. */
  lemma OneExitLine(draw: nat -> u8)
    ensures SessionHalts(One("2"))
         && Program(draw, Env(NewWriter(), One("2")))
         == Returned((), Env(TestWriter([WELCOME] + MENU_LINES + [PROMPT_MARKER, NEWLINE], None), One("2")))
  {
    SelectionsOfDigits();
    ProgramMenuLines();
    var e := Env(TestWriter([WELCOME], None), One("2"));
    var m := Menu(CHOICES, e);
    assert m == Returned(Success(2), Env(TestWriter([WELCOME] + MENU_LINES + [PROMPT_MARKER, NEWLINE], None), One("2")));
    assert Pass(draw(0), e) == Returned(false, m.env);
  }

  /** The program on a fresh writer greets, then starts the loop. */
  lemma ProgramOnFreshWriter(draw: nat -> u8, r: TestReader)
    requires SessionHalts(r)
    ensures Program(draw, Env(NewWriter(), r)) == Session(draw, 0, Env(TestWriter([WELCOME], None), r))
  {
    assert Write(NewWriter(), WELCOME) == TestWriter([WELCOME], None);
  }

  /** The program's menu on a script: it writes the menu, the marker and the
      blank line, and reads `lines[c]`. */
  lemma MenuOnScript(written: seq<string>, lines: seq<string>, c: nat)
    requires c < |lines|
    ensures Menu(CHOICES, Env(TestWriter(written, None), Many(lines, c)))
         == Returned(Selection(lines[c]),
                     Env(TestWriter(written + MENU_LINES + [PROMPT_MARKER, NEWLINE], None), Many(lines, c + 1)))
  {
    ProgramMenuLines();
    assert written + [MENU_HEADER] + OptionLines(CHOICES) + [PROMPT_MARKER] + [NEWLINE]
        == written + ([MENU_HEADER] + OptionLines(CHOICES)) + [PROMPT_MARKER, NEWLINE];
  }

  /** A pass whose menu line is "play game" plays a round with the pass's
      secret and then writes the verdict and "Play again?". */
  lemma PassPlays(secret: u8, written: seq<string>, lines: seq<string>, c: nat,
                  res: Result<(), GameError>, after: seq<string>, k: nat)
    requires c < |lines| && Selection(lines[c]) == Success(1)
    requires Play(Game(secret), Env(TestWriter(written + MENU_LINES + [PROMPT_MARKER, NEWLINE], None), Many(lines, c + 1)))
          == Returned(res, Env(TestWriter(after, None), Many(lines, k)))
    ensures Pass(secret, Env(TestWriter(written, None), Many(lines, c)))
         == Returned(true, Env(TestWriter(after + [Verdict(res), PLAY_AGAIN], None), Many(lines, k)))
  {
    MenuOnScript(written, lines, c);
  }

  /** A pass whose menu line is rejected prints the reason, "Invalid choice!",
      on a line of its own and keeps the loop going; no round is played. */
  lemma PassRejects(secret: u8, written: seq<string>, lines: seq<string>, c: nat)
    requires c < |lines| && Selection(lines[c]).Failure?
    ensures Pass(secret, Env(TestWriter(written, None), Many(lines, c)))
         == Returned(true, Env(TestWriter(written + MENU_LINES + [PROMPT_MARKER, NEWLINE, INVALID_CHOICE + "\n"], None),
                               Many(lines, c + 1)))
  {
    MenuOnScript(written, lines, c);
  }

  /** A pass whose menu line is "exit" ends the loop after the menu. */
  lemma PassExits(secret: u8, written: seq<string>, lines: seq<string>, c: nat)
    requires c < |lines| && Selection(lines[c]) == Success(2)
    ensures Pass(secret, Env(TestWriter(written, None), Many(lines, c)))
         == Returned(false, Env(TestWriter(written + MENU_LINES + [PROMPT_MARKER, NEWLINE], None), Many(lines, c + 1)))
  {
    MenuOnScript(written, lines, c);
  }

  /** The first pass of `QuitThenExit`: "1" starts a round, "quit" ends it,
      and the verdict and "Play again?" follow the round's exchange. */
  lemma QuitPass(secret: u8)
    ensures var s := ["1", "quit", "2"];
      Pass(secret, Env(TestWriter([WELCOME], None), Many(s, 0)))
      == Returned(true, Env(TestWriter([WELCOME] + MENU_LINES + [PROMPT_MARKER, NEWLINE]
                                       + [GUESS_PROMPT, PROMPT_MARKER, NEWLINE, QUITTING, YOU_QUIT, PLAY_AGAIN], None),
                            Many(s, 2)))
  {
    var s := ["1", "quit", "2"];
    var first := [WELCOME] + MENU_LINES + [PROMPT_MARKER, NEWLINE];
    var round := first + [GUESS_PROMPT, PROMPT_MARKER, NEWLINE, QUITTING];
    assert Selection(s[0]) == Success(1) by { SelectionsOfDigits(); }
    assert Trim(s[1]) == QUIT_COMMAND by { InputQuit(); }
    QuitsOnScriptLine(secret, TestWriter(first, None), s, 1);
    PassPlays(secret, [WELCOME], s, 0, Failure(Quit), round, 2);
    assert Verdict(Failure(Quit)) == YOU_QUIT;
    assert round + [YOU_QUIT, PLAY_AGAIN]
        == first + [GUESS_PROMPT, PROMPT_MARKER, NEWLINE, QUITTING, YOU_QUIT, PLAY_AGAIN] by {
      var x := [GUESS_PROMPT, PROMPT_MARKER, NEWLINE, QUITTING];
      assert (first + x) + [YOU_QUIT, PLAY_AGAIN] == first + (x + [YOU_QUIT, PLAY_AGAIN]);
      assert x + [YOU_QUIT, PLAY_AGAIN] == [GUESS_PROMPT, PROMPT_MARKER, NEWLINE, QUITTING, YOU_QUIT, PLAY_AGAIN];
    }
  }

  /** Play, quit the round, then exit: the round's exchange, "You quit. "
      and "Play again?" come between the two menus, whatever the secret. */
  lemma QuitThenExit(draw: nat -> u8)
    ensures var s := ["1", "quit", "2"];
      && SessionHalts(Many(s, 0))
      && Program(draw, Env(NewWriter(), Many(s, 0)))
      == Returned((), Env(TestWriter([WELCOME] + MENU_LINES + [PROMPT_MARKER, NEWLINE]
                                     + [GUESS_PROMPT, PROMPT_MARKER, NEWLINE, QUITTING, YOU_QUIT, PLAY_AGAIN]
                                     + MENU_LINES + [PROMPT_MARKER, NEWLINE], None),
                          Many(s, 3)))
  {
    var s := ["1", "quit", "2"];
    var played := [WELCOME] + MENU_LINES + [PROMPT_MARKER, NEWLINE]
                  + [GUESS_PROMPT, PROMPT_MARKER, NEWLINE, QUITTING, YOU_QUIT, PLAY_AGAIN];
    var e0 := Env(TestWriter([WELCOME], None), Many(s, 0));
    var e2 := Env(TestWriter(played, None), Many(s, 2));
    var e3 := Env(TestWriter(played + MENU_LINES + [PROMPT_MARKER, NEWLINE], None), Many(s, 3));
    ProgramOnFreshWriter(draw, Many(s, 0));
    QuitPass(draw(0));
    SessionContinues(draw, 0, e0, e2);
    assert Pass(draw(1), e2) == Returned(false, e3) by {
      SelectionsOfDigits();
      PassExits(draw(1), played, s, 2);
    }
    SessionStops(draw, 1, e2, e3);
  }
}
