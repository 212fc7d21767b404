/** A round of the game played against a finite script of input lines (the
    `Many` test reader): which line ends it, how it ends, what it writes and
    how many lines it consumes, stated without reference to the loop. */
module Rounds {
  import opened Wrappers
  import opened Text
  import opened Io
  import opened Game

  /** What one iteration writes for the line `line`: the guess prompt, the
      prompt marker, the blank line after the read, and the reply. */
  function Exchange(secret: u8, line: string): seq<string> {
    [GUESS_PROMPT, PROMPT_MARKER, NEWLINE, Reply(secret, Trim(line))]
  }

  /** The exchanges for the lines `lines[c..k]`, in order. */
  function Exchanges(secret: u8, lines: seq<string>, c: nat, k: nat): seq<string>
    requires c <= k <= |lines|
    decreases k - c
  {
    if c == k then [] else Exchange(secret, lines[c]) + Exchanges(secret, lines, c + 1, k)
  }

  /** `lines[k]` is the first line from position `c` on that ends the round. */
  predicate FirstTerminal(secret: u8, lines: seq<string>, c: nat, k: nat) {
    && c <= k < |lines|
    && Terminal(secret, Trim(lines[k]))
    && forall i :: c <= i < k ==> !Terminal(secret, Trim(lines[i]))
  }

  /** No line from position `c` on ends the round. */
  predicate NoTerminal(secret: u8, lines: seq<string>, c: nat) {
    forall i :: c <= i < |lines| ==> !Terminal(secret, Trim(lines[i]))
  }

  /** Either some line ends the round, and then a first one does, or none does. */
  lemma {:induction false} FirstTerminalExists(secret: u8, lines: seq<string>, c: nat)
    requires c <= |lines|
    ensures NoTerminal(secret, lines, c) || exists k: nat :: FirstTerminal(secret, lines, c, k)
    decreases |lines| - c
  {
    if c < |lines| && !Terminal(secret, Trim(lines[c])) {
      FirstTerminalExists(secret, lines, c + 1);
      if !NoTerminal(secret, lines, c + 1) {
        var k: nat :| FirstTerminal(secret, lines, c + 1, k);
        assert FirstTerminal(secret, lines, c, k);
      }
    } else if c < |lines| {
      assert FirstTerminal(secret, lines, c, c);
    }
  }

  /** The environment after the exchanges for `lines[c..k]` were written
      onto `w`, the reader positioned at `k`. */
  function After(secret: u8, w: TestWriter, lines: seq<string>, c: nat, k: nat): Env
    requires c <= k <= |lines|
  {
    Env(TestWriter(w.written + Exchanges(secret, lines, c, k), None), Many(lines, k))
  }

  /** The round on a script, by recursion on the lines rather than on the
      loop: each line read adds its exchange; the first terminal line ends the
      round with its result; running out of lines panics after the guess
      prompt and the marker. */
  function RunScript(secret: u8, written: seq<string>, lines: seq<string>, c: nat): Outcome<Result<(), GameError>>
    requires c <= |lines|
    decreases |lines| - c
  {
    if c == |lines| then
      Panicked(Env(TestWriter(written + [GUESS_PROMPT, PROMPT_MARKER], None), Many(lines, c)))
    else
      var next := written + Exchange(secret, lines[c]);
      if Terminal(secret, Trim(lines[c])) then
        Returned(TerminalResult(secret, Trim(lines[c])), Env(TestWriter(next, None), Many(lines, c + 1)))
      else
        RunScript(secret, next, lines, c + 1)
  }

  /** One iteration on a script: reading `lines[c]` writes its exchange and
      moves the cursor by one; it stops exactly on a terminal line. */
  lemma StepOnScript(game: GameState, w: TestWriter, lines: seq<string>, c: nat)
    requires w.pending.None? && c < |lines|
    ensures var e := Env(TestWriter(w.written + Exchange(game.secret, lines[c]), None), Many(lines, c + 1));
      Step(game, Env(w, Many(lines, c)))
        == if Terminal(game.secret, Trim(lines[c])) then Stopped(TerminalResult(game.secret, Trim(lines[c])), e)
           else KeepGuessing(e)
  {
  }

  /** At the end of the script the next read fails: the round writes the
      guess prompt and the marker, and panics. */
  lemma PlayAtEndOfScript(game: GameState, w: TestWriter, lines: seq<string>)
    requires w.pending.None?
    ensures Play(game, Env(w, Many(lines, |lines|)))
         == Panicked(Env(TestWriter(w.written + [GUESS_PROMPT, PROMPT_MARKER], None), Many(lines, |lines|)))
  {
  }

  /** `Play` on a `Many` reader is `RunScript`: the loop and the recursion on
      the lines agree on every script, from every position. */
  lemma {:induction false} PlayFollowsScript(game: GameState, w: TestWriter, lines: seq<string>, c: nat)
    requires w.pending.None? && c <= |lines|
    ensures Play(game, Env(w, Many(lines, c))) == RunScript(game.secret, w.written, lines, c)
    decreases |lines| - c
  {
    if c == |lines| {
      PlayAtEndOfScript(game, w, lines);
    } else {
      var w1 := TestWriter(w.written + Exchange(game.secret, lines[c]), None);
      StepOnScript(game, w, lines, c);
      PlayFollowsScript(game, w1, lines, c + 1);
    }
  }

  /** The exchanges from `c` are the exchange of `lines[c]` followed by those
      from `c + 1`, whatever was written before. */
  lemma AfterSplit(secret: u8, written: seq<string>, lines: seq<string>, c: nat, k: nat)
    requires c < k <= |lines|
    ensures After(secret, TestWriter(written, None), lines, c, k)
         == After(secret, TestWriter(written + Exchange(secret, lines[c]), None), lines, c + 1, k)
  {
    var x, rest := Exchange(secret, lines[c]), Exchanges(secret, lines, c + 1, k);
    assert written + (x + rest) == (written + x) + rest;
  }

  /** A line that does not end the round: the run goes on from the next
      line with that line's exchange written. */
  lemma RunScriptSkips(secret: u8, written: seq<string>, lines: seq<string>, c: nat)
    requires c < |lines| && !Terminal(secret, Trim(lines[c]))
    ensures RunScript(secret, written, lines, c) == RunScript(secret, written + Exchange(secret, lines[c]), lines, c + 1)
  {
  }

  /** A line that ends the round: the run returns its result after its
      exchange. */
  lemma RunScriptStops(secret: u8, written: seq<string>, lines: seq<string>, c: nat)
    requires c < |lines| && Terminal(secret, Trim(lines[c]))
    ensures RunScript(secret, written, lines, c)
         == Returned(TerminalResult(secret, Trim(lines[c])), After(secret, TestWriter(written, None), lines, c, c + 1))
  {
    assert Exchanges(secret, lines, c, c + 1) == Exchange(secret, lines[c]) + [];
  }

  /** The script run returns at the first terminal line with its result,
      having read up to and including that line and written the exchanges
      of the lines read. */
  lemma {:induction false} ScriptReturnsAtFirstTerminal(secret: u8, written: seq<string>, lines: seq<string>, c: nat, k: nat)
    requires FirstTerminal(secret, lines, c, k)
    ensures RunScript(secret, written, lines, c)
         == Returned(TerminalResult(secret, Trim(lines[k])), After(secret, TestWriter(written, None), lines, c, k + 1))
    decreases k - c
  {
    if k == c {
      RunScriptStops(secret, written, lines, c);
    } else {
      var next := written + Exchange(secret, lines[c]);
      RunScriptSkips(secret, written, lines, c);
      assert FirstTerminal(secret, lines, c + 1, k);
      ScriptReturnsAtFirstTerminal(secret, next, lines, c + 1, k);
      AfterSplit(secret, written, lines, c, k + 1);
    }
  }

  /** The script run without a terminal line reads every line and panics. */
  lemma {:induction false} ScriptPanicsWithoutTerminal(secret: u8, written: seq<string>, lines: seq<string>, c: nat)
    requires c <= |lines| && NoTerminal(secret, lines, c)
    ensures RunScript(secret, written, lines, c)
         == Panicked(Env(TestWriter(written + Exchanges(secret, lines, c, |lines|) + [GUESS_PROMPT, PROMPT_MARKER], None),
                         Many(lines, |lines|)))
    decreases |lines| - c
  {
    if c == |lines| {
      assert written + [] == written;
    } else {
      var next := written + Exchange(secret, lines[c]);
      ScriptPanicsWithoutTerminal(secret, next, lines, c + 1);
      AfterSplit(secret, written, lines, c, |lines|);
    }
  }

  /** A round on a script returns at the first line that ends it, with that
      line's result (won on the secret, quit on "quit"); it has read exactly
      up to and including that line, nothing after it, and written one
      exchange per line read. */
  lemma PlayReturnsAtFirstTerminal(game: GameState, w: TestWriter, lines: seq<string>, c: nat, k: nat)
    requires w.pending.None? && FirstTerminal(game.secret, lines, c, k)
    ensures Play(game, Env(w, Many(lines, c)))
         == Returned(TerminalResult(game.secret, Trim(lines[k])), After(game.secret, w, lines, c, k + 1))
  {
    PlayFollowsScript(game, w, lines, c);
    ScriptReturnsAtFirstTerminal(game.secret, w.written, lines, c, k);
  }

  /** A round on a script none of whose lines ends it reads the whole script,
      writes one exchange per line, asks for one more guess and panics on the
      read that fails. */
  lemma PlayPanicsWithoutTerminal(game: GameState, w: TestWriter, lines: seq<string>, c: nat)
    requires w.pending.None? && c <= |lines| && NoTerminal(game.secret, lines, c)
    ensures Play(game, Env(w, Many(lines, c)))
         == Panicked(Env(TestWriter(w.written + Exchanges(game.secret, lines, c, |lines|) + [GUESS_PROMPT, PROMPT_MARKER], None),
                         Many(lines, |lines|)))
  {
    PlayFollowsScript(game, w, lines, c);
    ScriptPanicsWithoutTerminal(game.secret, w.written, lines, c);
  }

  /** How a round on a script ends, from a fresh writer and the start of the
      script: it returns exactly when some line ends it; it is won exactly when
      the first such line parses as a `u8` equal to the secret; it is quit
      exactly when that line is "quit"; and it never returns `Unknown`. */
  lemma PlayResultIff(game: GameState, lines: seq<string>)
    ensures var o := Play(game, Env(NewWriter(), Many(lines, 0)));
      && (o.Returned? <==> exists k: nat :: FirstTerminal(game.secret, lines, 0, k))
      && ((o.Returned? && o.value == Success(()))
           <==> (exists k: nat :: FirstTerminal(game.secret, lines, 0, k) && ParseU8(Trim(lines[k])) == Some(game.secret)))
      && ((o.Returned? && o.value == Failure(Quit))
           <==> (exists k: nat :: FirstTerminal(game.secret, lines, 0, k) && Trim(lines[k]) == QUIT_COMMAND))
  {
    var secret := game.secret;
    var o := Play(game, Env(NewWriter(), Many(lines, 0)));
    FirstTerminalExists(secret, lines, 0);
    if exists k: nat :: FirstTerminal(secret, lines, 0, k) {
      var k: nat :| FirstTerminal(secret, lines, 0, k);
      var t := Trim(lines[k]);
      PlayReturnsAtFirstTerminal(game, NewWriter(), lines, 0, k);
      assert o.Returned? && o.value == TerminalResult(secret, t);
      forall k': nat | FirstTerminal(secret, lines, 0, k')
        ensures k' == k
      {
        if k' < k { assert false; }
        if k < k' { assert false; }
      }
      InputQuit();
      assert o.value == Success(()) <==> ParseU8(t) == Some(secret);
      assert o.value == Failure(Quit) <==> t == QUIT_COMMAND;
    } else {
      PlayPanicsWithoutTerminal(game, NewWriter(), lines, 0);
    }
  }

  // ---------------------------------------------------------------------------
  // The scenarios of the repository's unit tests
  // ---------------------------------------------------------------------------

  /** A guess outside the `u8` range, or negative, is invalid input, not a
      guess: the round writes the invalid-input message and goes on; a leading
      '+' is accepted. */
  lemma OutOfRangeGuessesAreInvalid(secret: u8)
    ensures ParseU8("256") == None && !Terminal(secret, "256") && Reply(secret, "256") == INVALID_INPUT
    ensures ParseU8("-1") == None && !Terminal(secret, "-1") && Reply(secret, "-1") == INVALID_INPUT
    ensures ParseU8("+7") == Some(7)
  {
    assert ParseU8("256") == None by {
      ParseU8Spec("256");
      assert "256"[..2] == "25" && "25"[..1] == "2" && "2"[..0] == [];
      assert NumeralValue("256") == 256;
    }
    assert ParseU8("-1") == None by {
      ParseU8Spec("-1");
      assert Unsigned("-1") == "-1" && !IsDigit('-');
    }
    assert ParseU8("+7") == Some(7) by {
      ParseU8Spec("+7");
      assert Unsigned("+7") == "7" && "7"[..0] == [];
    }
  }

  /** The trimmed text and `u8` value of the inputs the unit tests use. */
  lemma InputOne()
    ensures Trim("1") == "1" && ParseU8("1") == Some(1)
  {
    assert Trim("1") == "1" by { TrimCharacterised("1", 0, 1); }
    assert ParseU8("1") == Some(1) by { ParseU8Spec("1"); assert "1"[..0] == []; }
  }

  lemma InputZero()
    ensures Trim("0") == "0" && ParseU8("0") == Some(0)
  {
    assert Trim("0") == "0" by { TrimCharacterised("0", 0, 1); }
    assert ParseU8("0") == Some(0) by { ParseU8Spec("0"); assert "0"[..0] == []; }
  }

  lemma InputQuit()
    ensures Trim("quit") == "quit" && ParseU8("quit") == None
  {
    assert Trim("quit") == "quit" by { TrimCharacterised("quit", 0, 4); }
    assert ParseU8("quit") == None by { ParseU8Spec("quit"); assert !IsDigit('q'); }
  }

  lemma InputInvalid()
    ensures Trim("not a valid input") == "not a valid input" && ParseU8("not a valid input") == None
  {
    var bad := "not a valid input";
    assert Trim(bad) == bad by { TrimCharacterised(bad, 0, |bad|); }
    assert ParseU8(bad) == None by { ParseU8Spec(bad); assert !IsDigit('n'); }
  }

  /** A script line "quit" read at cursor `c`, whatever the secret: the round
      is quit after the one exchange ending in "Quitting...". */
  lemma QuitsOnScriptLine(secret: u8, w: TestWriter, lines: seq<string>, c: nat)
    requires w.pending.None? && c < |lines| && Trim(lines[c]) == QUIT_COMMAND
    ensures Play(Game(secret), Env(w, Many(lines, c)))
         == Returned(Failure(Quit), Env(TestWriter(w.written + [GUESS_PROMPT, PROMPT_MARKER, NEWLINE, QUITTING], None),
                                        Many(lines, c + 1)))
  {
    InputQuit();
    assert FirstTerminal(secret, lines, c, c);
    PlayReturnsAtFirstTerminal(Game(secret), w, lines, c, c);
    assert Exchanges(secret, lines, c, c + 1) == [GUESS_PROMPT, PROMPT_MARKER, NEWLINE, QUITTING] + [];
  }

  /** A `One` reader whose line ends the round: the round returns after a
      single exchange with that line's result, the reader unchanged. */
  lemma PlayOnTerminalLine(game: GameState, w: TestWriter, v: string)
    requires w.pending.None? && Terminal(game.secret, Trim(v))
    ensures Play(game, Env(w, One(v)))
         == Returned(TerminalResult(game.secret, Trim(v)),
                     Env(TestWriter(w.written + Exchange(game.secret, v), None), One(v)))
  {
    var e := Env(w, One(v));
    assert Step(game, e)
        == Stopped(TerminalResult(game.secret, Trim(v)), Env(TestWriter(w.written + Exchange(game.secret, v), None), One(v)));
  }

  /** Secret 1, a reader that always answers "1": won on the first guess,
      after one exchange ending in "Correct! ". */
  lemma WinsOnFirstGuess()
    ensures Halts(1, One("1"))
         && Play(Game(1), Env(NewWriter(), One("1")))
         == Returned(Success(()), Env(TestWriter([GUESS_PROMPT, PROMPT_MARKER, NEWLINE, CORRECT], None), One("1")))
  {
    InputOne();
    PlayOnTerminalLine(Game(1), NewWriter(), "1");
  }

  /** Secret 1, a reader that always answers "quit": the round is quit after
      one exchange ending in "Quitting...". */
  lemma QuitsOnQuit()
    ensures Halts(1, One("quit"))
         && Play(Game(1), Env(NewWriter(), One("quit")))
         == Returned(Failure(Quit), Env(TestWriter([GUESS_PROMPT, PROMPT_MARKER, NEWLINE, QUITTING], None), One("quit")))
  {
    InputQuit();
    PlayOnTerminalLine(Game(1), NewWriter(), "quit");
  }

  /** The transcript of a two-line script read in full: both exchanges, in
      order. */
  lemma TwoExchanges(secret: u8, lines: seq<string>)
    requires |lines| == 2
    ensures Exchanges(secret, lines, 0, 2) == Exchange(secret, lines[0]) + Exchange(secret, lines[1])
  {
    assert Exchanges(secret, lines, 1, 2) == Exchange(secret, lines[1]) + [];
  }

  /** A two-line script whose second line, and only that one, is the secret
      1: the round is won after both exchanges. */
  lemma WinsOnSecondLine(lines: seq<string>)
    requires |lines| == 2 && !Terminal(1, Trim(lines[0])) && Trim(lines[1]) == "1"
    ensures Play(Game(1), Env(NewWriter(), Many(lines, 0)))
         == Returned(Success(()), Env(TestWriter(Exchange(1, lines[0]) + [GUESS_PROMPT, PROMPT_MARKER, NEWLINE, CORRECT], None),
                                      Many(lines, 2)))
  {
    InputOne();
    assert Exchange(1, lines[1]) == [GUESS_PROMPT, PROMPT_MARKER, NEWLINE, CORRECT];
    assert FirstTerminal(1, lines, 0, 1);
    PlayReturnsAtFirstTerminal(Game(1), NewWriter(), lines, 0, 1);
    TwoExchanges(1, lines);
    assert [] + Exchanges(1, lines, 0, 2) == Exchange(1, lines[0]) + [GUESS_PROMPT, PROMPT_MARKER, NEWLINE, CORRECT];
  }

  /** Secret 1, answer "0": the reply is "0 is too low!" and a blank line. */
  lemma ReplyToLowGuess()
    ensures Exchange(1, "0") == [GUESS_PROMPT, PROMPT_MARKER, NEWLINE, "0 is too low!\n\n"]
  {
    InputZero();
    assert Show(0) == "0";
    assert Reply(1, "0") == "0 is too low!\n\n";
  }

  /** Secret 1, script "0" then "1": "0 is too low!" is written and the round
      is won on the second line, both lines read. */
  lemma WinsAfterLowGuess()
    ensures Play(Game(1), Env(NewWriter(), Many(["0", "1"], 0)))
         == Returned(Success(()), Env(TestWriter([GUESS_PROMPT, PROMPT_MARKER, NEWLINE, "0 is too low!\n\n",
                                                  GUESS_PROMPT, PROMPT_MARKER, NEWLINE, CORRECT], None),
                                      Many(["0", "1"], 2)))
  {
    var s := ["0", "1"];
    ReplyToLowGuess();
    assert !Terminal(1, Trim(s[0])) && Trim(s[1]) == "1" by { InputZero(); InputOne(); }
    WinsOnSecondLine(s);
  }

  /** The answer "not a valid input" gets the invalid-input reply. */
  lemma ReplyToInvalidInput()
    ensures Exchange(1, "not a valid input") == [GUESS_PROMPT, PROMPT_MARKER, NEWLINE, INVALID_INPUT]
  {
    InputInvalid();
  }

  /** Secret 1, script of an invalid line then "1": the invalid-input message
      is written and the round goes on to be won. */
  lemma WinsAfterInvalidInput()
    ensures Play(Game(1), Env(NewWriter(), Many(["not a valid input", "1"], 0)))
         == Returned(Success(()), Env(TestWriter([GUESS_PROMPT, PROMPT_MARKER, NEWLINE, INVALID_INPUT,
                                                  GUESS_PROMPT, PROMPT_MARKER, NEWLINE, CORRECT], None),
                                      Many(["not a valid input", "1"], 2)))
  {
    var s := ["not a valid input", "1"];
    ReplyToInvalidInput();
    assert !Terminal(1, Trim(s[0])) && Trim(s[1]) == "1" by { InputInvalid(); InputOne(); }
    WinsOnSecondLine(s);
  }
}
