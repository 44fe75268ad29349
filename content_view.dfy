/** The screen's state holder: the fields the view keeps, the three handlers that update them in
    place, and the two alert buttons that call them. */
module GuessTheFlag {
  import opened Decimal
  import opened Quiz

  class ContentView {
    var countries: seq<string>
    var correctAnswer: int

    var showingScore: bool
    var scoreTitle: string
    var score: int
    var msg: string

    var lastRound: bool
    var round: int
    var lastRoundTitle: string

    /** The fields as one value. */
    function State(): Game
      reads this
    {
      Game(countries, correctAnswer, score, round, msg, scoreTitle, lastRoundTitle, showingScore, lastRound)
    }

    /** The object invariant: the fields form a state the game can reach. */
    ghost predicate Valid()
      reads this
    {
      Inv(State())
    }

    /** Launch: the eleven names come shuffled and the first answer is drawn from 0...2. */
    constructor (shuffled: seq<string>, draw: int)
      requires multiset(shuffled) == multiset(Countries) && 0 <= draw < 3
      ensures State() == Initial(shuffled, draw)
      ensures Valid() && Answering(State())
    {
      countries := shuffled;
      correctAnswer := draw;
      showingScore := false;
      scoreTitle := "";
      score := 0;
      msg := "";
      lastRound := false;
      round := 0;
      lastRoundTitle := "";
      new;
      InitialInv(shuffled, draw);
    }

    /** The tap handler. A tap while the three flags are on screen keeps the object valid. */
    method FlagTapped(number: int)
      requires TapInBounds(State(), number)
      modifies this
      ensures State() == AfterTap(old(State()), number)
      ensures old(Valid() && Answering(State())) && 0 <= number < 3 ==> Valid()
    {
      ghost var g := State();
      if round == LastRound {
        FinalRoundTapped(number);
      } else {
        RoundTapped(number);
      }
      if Inv(g) && Answering(g) && 0 <= number < 3 {
        TapKeepsInv(g, number);
      }
    }

    /** The last round's branch of the tap handler: score the guess, then word the end-of-game
        alert by the final score and raise it. */
    method FinalRoundTapped(number: int)
      requires round == LastRound
      modifies this
      ensures State() == AfterTap(old(State()), number)
    {
      if number == correctAnswer {
        score := score + 1;
      }
      if score == 8 {
        lastRoundTitle := "Winner!";
        msg := "Perfect Score!";
      } else if score > 5 {
        lastRoundTitle := "So close!";
        msg := "Your score is " + IntToDecimal(score) + " out of 8";
      } else {
        lastRoundTitle := "Better luck next time";
        msg := "Your score is " + IntToDecimal(score) + " out of 8, practice makes perfect try again!";
      }
      lastRound := true;
    }

    /** The other rounds' branch of the tap handler: score the guess, word the per-round alert,
        advance the round and raise the alert. */
    method RoundTapped(number: int)
      requires round != LastRound && TapInBounds(State(), number)
      modifies this
      ensures State() == AfterTap(old(State()), number)
    {
      if number == correctAnswer {
        scoreTitle := "Correct";
        score := score + 1;
        msg := ScoreMessage(score);
        round := round + 1;
        showingScore := true;
      } else {
        scoreTitle := "Wrong!";
        msg := WrongMessage(countries[number]);
        round := round + 1;
        showingScore := true;
      }
    }

    /** Moves to the next question: removes the answered country, then puts in the shuffle of
        what is left and the newly drawn answer. */
    method AskQuestion(shuffled: seq<string>, draw: int)
      requires AskArgsValid(State(), shuffled, draw)
      modifies this
      ensures State() == AfterAsk(old(State()), shuffled, draw)
    {
      countries := RemoveAt(countries, correctAnswer);
      assert multiset(shuffled) == multiset(countries);
      countries := shuffled;
      correctAnswer := draw;
    }

    /** Starts over with the eleven names in their written order; the correct answer and every
        message are left as they are. */
    method Reset()
      modifies this
      ensures State() == AfterReset(old(State()))
    {
      score := 0;
      round := 0;
      countries := Countries;
    }

    /** The "Continue" button: the per-round alert goes away and the next question is asked. */
    method ContinueTapped(shuffled: seq<string>, draw: int)
      requires AskArgsValid(State(), shuffled, draw)
      modifies this
      ensures State() == AfterContinue(old(State()), shuffled, draw)
      ensures old(Valid() && ShowingScore(State())) ==> Valid() && Answering(State())
    {
      ghost var g := State();
      showingScore := false;
      AskQuestion(shuffled, draw);
      if Inv(g) && ShowingScore(g) {
        ContinueKeepsInv(g, shuffled, draw);
      }
    }

    /** The "Restart" button: the end-of-game alert goes away and the game starts over. */
    method RestartTapped()
      modifies this
      ensures State() == AfterRestart(old(State()))
      ensures old(Valid() && ShowingLastRound(State())) ==> Valid() && Answering(State())
    {
      ghost var g := State();
      lastRound := false;
      Reset();
      if Inv(g) && ShowingLastRound(g) {
        RestartKeepsInv(g);
      }
    }

    /** The name under "Tap the flag of". */
    method TargetName() returns (name: string)
      requires Valid()
      ensures name == countries[correctAnswer]
      ensures name in countries[..3]
    {
      InvBounds(State());
      name := countries[correctAnswer];
    }

    /** The names of the three flags on screen, top to bottom. */
    method FlagNames() returns (names: seq<string>)
      requires Valid()
      ensures |names| == 3
      ensures forall i :: 0 <= i < 3 ==> names[i] == countries[i]
    {
      InvBounds(State());
      names := [countries[0], countries[1], countries[2]];
    }

    /** The number after "Round:", counted from one; never beyond eight. */
    method DisplayedRound() returns (n: int)
      requires Valid()
      ensures n == round + 1
      ensures 1 <= n <= 8
    {
      n := round + 1;
    }
  }
}
