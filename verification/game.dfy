/** One round of the guessing game: the three-way evaluation of a guess, the
    loop body (prompt, parse, branch), the loop itself, and what a round does
    with a finite script of input lines. The secret is an immutable parameter
    of every function here, so no operation can change it mid-round. */
module Game {
  import opened Wrappers
  import opened Text
  import opened Io

  /** Why a round ended without a win. `Unknown` is the loop's initial
      result and is never what a round returns. */
  datatype GameError = Quit | Unknown

  /** `Game::new` keeps the secret; the I/O streams are the `Env` passed to
      every operation instead. */
  datatype GameState = Game(secret: u8)

  const GUESS_PROMPT := "Guess a number...\n"
  const CORRECT := "Correct! "
  const QUITTING := "Quitting...\n"
  const QUIT_COMMAND := "quit"
  const INVALID_INPUT :=
    "Invalid input, please guess an integer belonging to [0,100] or enter 'quit' to quit playing.\n"
  const TOO_LOW := " is too low!"
  const TOO_HIGH := " is too high!"
  const BLANK_LINE := "\n\n"

  /** `Game::evaluate`: `Ok` exactly on the secret, otherwise an error that
      names the guess and says on which side of the secret it lies. */
  function Evaluate(game: GameState, guess: u8): (r: Result<(), string>)
    ensures r.Success? <==> guess == game.secret
    ensures guess < game.secret <==> r == Failure(Show(guess) + TOO_LOW)
    ensures guess > game.secret <==> r == Failure(Show(guess) + TOO_HIGH)
  {
    var low, high := Show(guess) + TOO_LOW, Show(guess) + TOO_HIGH;
    assert |low| != |high|;
    if guess == game.secret then Success(())
    else if guess < game.secret then Failure(low)
    else Failure(high)
  }

  /** The error message of a wrong guess identifies the guess: two different
      wrong guesses never produce the same message. */
  lemma EvaluateMessageIdentifiesGuess(game: GameState, g1: u8, g2: u8)
    requires Evaluate(game, g1).Failure? && Evaluate(game, g1) == Evaluate(game, g2)
    ensures g1 == g2
  {
    var m := Evaluate(game, g1).error;
    // a message for a low guess ends in "w!", one for a high guess in "h!"
    assert m[|m| - 2] == (if g1 < game.secret then 'w' else 'h');
    assert m[|m| - 2] == (if g2 < game.secret then 'w' else 'h');
    if g1 < game.secret && g2 < game.secret {
      assert m == Show(g1) + TOO_LOW == Show(g2) + TOO_LOW;
      assert Show(g1) == m[..|m| - |TOO_LOW|] == Show(g2);
      ShowInjective(g1, g2);
    } else if g1 > game.secret && g2 > game.secret {
      assert m == Show(g1) + TOO_HIGH == Show(g2) + TOO_HIGH;
      assert Show(g1) == m[..|m| - |TOO_HIGH|] == Show(g2);
      ShowInjective(g1, g2);
    }
  }

  // ---------------------------------------------------------------------------
  // What a line of input does to a round
  // ---------------------------------------------------------------------------

  /** A (trimmed) line ends the round: it is the secret, or it is not a `u8`
      and is exactly the quit command. */
  predicate Terminal(secret: u8, t: string) {
    ParseU8(t) == Some(secret) || (ParseU8(t).None? && t == QUIT_COMMAND)
  }

  /** The result of a round ended by the terminal line `t`. */
  function TerminalResult(secret: u8, t: string): Result<(), GameError> {
    if ParseU8(t) == Some(secret) then Success(()) else Failure(Quit)
  }

  /** What the round writes in reply to the (trimmed) line `t`, after the
      prompt exchange. */
  function Reply(secret: u8, t: string): string {
    match ParseU8(t)
    case Some(g) =>
      if g == secret then CORRECT
      else if g < secret then Show(g) + TOO_LOW + BLANK_LINE
      else Show(g) + TOO_HIGH + BLANK_LINE
    case None => if t == QUIT_COMMAND then QUITTING else INVALID_INPUT
  }

  /** The round can return on this reader: a `Many` reader always lets it
      return (or panic once the script is used up); a `One` reader lets it
      return only when its line ends the round, see `OneReaderRepeats`. */
  predicate Halts(secret: u8, r: TestReader) {
    r.Many? || Terminal(secret, Trim(r.value))
  }

  // ---------------------------------------------------------------------------
  // The loop body and the loop
  // ---------------------------------------------------------------------------

  /** How one iteration of the loop in `Game::play` ended. */
  datatype Iteration =
    | KeepGuessing(env: Env)
    | Stopped(result: Result<(), GameError>, env: Env)
    | ReadFailed(env: Env)

  /** The part of an iteration after `prompt` returned `guessValue`: parse
      it as a `u8` and take the correct, wrong, quit or invalid branch. It
      writes exactly the reply to the line and reads nothing. */
  function Answer(game: GameState, guessValue: string, env: Env): (it: Iteration)
    ensures it.env == env.(writer := Write(env.writer, Reply(game.secret, guessValue)))
    ensures !it.ReadFailed?
    ensures it.Stopped? <==> Terminal(game.secret, guessValue)
    ensures it.Stopped? ==> it.result == TerminalResult(game.secret, guessValue)
  {
    match ParseU8(guessValue)
    case Some(guess) =>
      (match Evaluate(game, guess)
       case Failure(message) => KeepGuessing(env.(writer := Write(env.writer, message + BLANK_LINE)))
       case Success(_) => Stopped(Success(()), env.(writer := Write(env.writer, CORRECT))))
    case None =>
      if guessValue == QUIT_COMMAND then Stopped(Failure(Quit), env.(writer := Write(env.writer, QUITTING)))
      else KeepGuessing(env.(writer := Write(env.writer, INVALID_INPUT)))
  }

  /** One iteration of the loop in `Game::play`: ask for a guess, read one
      line through `prompt`, and answer it. Exactly one line is consumed (none
      if the read fails), and the iteration stops the loop exactly on a
      terminal line. */
  function Step(game: GameState, env: Env): (it: Iteration)
    ensures Extends(env, it.env)
    ensures it.ReadFailed? <==> ReadLine(env.reader).Failure?
    ensures it.ReadFailed? ==> it.env == Env(
              TestWriter(env.writer.written + [PendingText(env.writer) + GUESS_PROMPT, PROMPT_MARKER], None),
              env.reader)
    ensures !it.ReadFailed? ==> var (line, next) := ReadLine(env.reader).value;
      && it.env == Env(
           TestWriter(env.writer.written + [PendingText(env.writer) + GUESS_PROMPT, PROMPT_MARKER, NEWLINE,
                                            Reply(game.secret, Trim(line))], None),
           next)
      && (it.Stopped? <==> Terminal(game.secret, Trim(line)))
      && (it.Stopped? ==> it.result == TerminalResult(game.secret, Trim(line)))
  {
    var e := env.(writer := Write(env.writer, GUESS_PROMPT));
    assert e.writer.written == env.writer.written + [PendingText(env.writer) + GUESS_PROMPT];
    match Prompt(e)
    case Panicked(e1) => ReadFailed(e1)
    case Returned(guessValue, e1) =>
      var it := Answer(game, guessValue, e1);
      assert it.env.writer.written == e1.writer.written + [Reply(game.secret, guessValue)];
      it
  }

  /** `Game::play` as a function: iterate `Step` until a terminal line, or
      until the read panics. The round never returns `Unknown`, never loses
      output, and only ever moves a `Many` reader forward. */
  function Play(game: GameState, env: Env): (o: Outcome<Result<(), GameError>>)
    requires Halts(game.secret, env.reader)
    ensures Extends(env, o.env)
    ensures o.Returned? ==> o.value != Failure(Unknown)
    ensures o.Panicked? ==> ReadLine(o.env.reader).Failure?
    ensures env.reader.One? ==> o.Returned? && o.env.reader == env.reader
    ensures env.reader.Many? ==> && o.env.reader.Many?
                                 && o.env.reader.values == env.reader.values
                                 && o.env.reader.nextCall >= env.reader.nextCall
    decreases Remaining(env.reader)
  {
    match Step(game, env)
    case ReadFailed(e) => Panicked(e)
    case Stopped(result, e) => Returned(result, e)
    case KeepGuessing(e) => Play(game, e)
  }

  /** `Game::play` as written: `res` starts as `Err(Unknown)` and the loop runs
      while `keep_guessing`. Both branches that clear `keep_guessing` set `res`
      first, so the method agrees with `Play` and never returns `Unknown`. */
  method PlayLoop(game: GameState, env: Env) returns (o: Outcome<Result<(), GameError>>)
    requires Halts(game.secret, env.reader)
    ensures o == Play(game, env)
    ensures o.Returned? ==> o.value != Failure(Unknown)
  {
    var res: Result<(), GameError> := Failure(Unknown);
    var keepGuessing := true;
    var e := env;
    while keepGuessing
      invariant Halts(game.secret, e.reader)
      invariant keepGuessing ==> Play(game, env) == Play(game, e)
      invariant !keepGuessing ==> Play(game, env) == Returned(res, e) && res != Failure(Unknown)
      decreases if keepGuessing then Remaining(e.reader) + 1 else 0
    {
      var before := e;
      e := e.(writer := Write(e.writer, GUESS_PROMPT));
      var answer := Prompt(e);
      if answer.Panicked? {
        return Panicked(answer.env);
      }
      var guessValue := answer.value;
      e := answer.env;
      match ParseU8(guessValue) {
        case Some(guess) =>
          var evaluated := Evaluate(game, guess);
          if evaluated.Failure? {
            e := e.(writer := Write(e.writer, evaluated.error + BLANK_LINE));
          } else {
            keepGuessing := false;
            res := Success(());
            e := e.(writer := Write(e.writer, CORRECT));
          }
        case None =>
          if guessValue == QUIT_COMMAND {
            keepGuessing := false;
            e := e.(writer := Write(e.writer, QUITTING));
            res := Failure(Quit);
          } else {
            e := e.(writer := Write(e.writer, INVALID_INPUT));
          }
      }
      assert Step(game, before) == (if keepGuessing then KeepGuessing(e) else Stopped(res, e));
    }
    return Returned(res, e);
  }

  /** On a `One` reader whose line does not end the round, an iteration keeps
      guessing and leaves the reader as it was: the loop repeats forever, which
      is why `Play` asks for `Halts`. */
  lemma OneReaderRepeats(game: GameState, env: Env)
    requires env.reader.One? && !Terminal(game.secret, Trim(env.reader.value))
    ensures Step(game, env).KeepGuessing?
    ensures Step(game, env).env.reader == env.reader
  {
  }
}
