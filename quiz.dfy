/** The game state of GuessTheFlag's single screen as a value, and the transitions that the
    view's tap handler, its "Continue" alert and its "Restart" alert apply to it. */
module Quiz {
  import opened Decimal

  /** The eleven flag names the game starts from, in their written order. */
  const Countries: seq<string> :=
    ["Estonia", "France", "Germany", "Ireland", "Italy", "Nigeria", "Poland", "Spain", "UK", "Ukraine", "US"]

  /** Index of the last round: rounds are counted 0..7, eight in all. */
  const LastRound: int := 7

  /** Every state variable the game logic reads or writes. */
  datatype Game = Game(
    countries: seq<string>,
    correctAnswer: int,
    score: int,
    round: int,
    msg: string,
    scoreTitle: string,
    lastRoundTitle: string,
    showingScore: bool,
    lastRound: bool)

  predicate NoDuplicates(s: seq<string>) {
    forall i, j :: 0 <= i < j < |s| ==> s[i] != s[j]
  }

  /** `remove(at:)` on a Swift array: the element at `i` is gone, the rest keep their order. */
  function RemoveAt(s: seq<string>, i: int): (r: seq<string>)
    requires 0 <= i < |s|
    ensures |r| == |s| - 1
    ensures multiset(r) == multiset(s) - multiset{s[i]}
    ensures forall k :: 0 <= k < i ==> r[k] == s[k]
    ensures forall k :: i <= k < |r| ==> r[k] == s[k + 1]
  {
    assert s == s[..i] + [s[i]] + s[i + 1..];
    s[..i] + s[i + 1..]
  }

  // ---------------------------------------------------------------------------------------
  // Messages

  /** The end-of-game alert title, chosen by the final score: each of the three titles belongs
      to exactly one tier. */
  function FinalTitle(score: int): (t: string)
    ensures t == "Winner!" <==> score == 8
    ensures t == "So close!" <==> score != 8 && score > 5
    ensures t == "Better luck next time" <==> score <= 5
  {
    if score == 8 then "Winner!"
    else if score > 5 then "So close!"
    else "Better luck next time"
  }

  /** The end-of-game alert message, chosen by the final score. "Perfect Score!" belongs to
      the top tier alone; below it the message is the per-round score message followed by
      " out of 8" exactly when the score is above 5. */
  function FinalMessage(score: int): (m: string)
    ensures m == "Perfect Score!" <==> score == 8
    ensures score != 8 ==> (m == ScoreMessage(score) + " out of 8" <==> score > 5)
  {
    if score == 8 then "Perfect Score!"
    else if score > 5 then "Your score is " + IntToDecimal(score) + " out of 8"
    else "Your score is " + IntToDecimal(score) + " out of 8, practice makes perfect try again!"
  }

  /** The message after a correct guess that is not the last one: the fourteen characters of
      "Your score is ", then the score written so that it reads back as itself. */
  function ScoreMessage(score: int): (m: string)
    ensures |m| > 14
    ensures score >= 0 ==> IsDigits(m[14..]) && DecimalValue(m[14..]) == score
  {
    var m := "Your score is " + IntToDecimal(score);
    assert m[14..] == IntToDecimal(score);
    m
  }

  /** The per-round score message is the source's fixed text followed by exactly what Swift
      prints for the score. */
  lemma ScorePrefix(score: int)
    ensures ScoreMessage(score)[..14] == "Your score is "
    ensures ScoreMessage(score)[14..] == IntToDecimal(score)
  {
  }

  /** The message after a wrong guess that is not the last one: the nineteen characters of
      "That's the flag of ", then the name of the country whose flag was tapped, which can be
      read back from the message. */
  function WrongMessage(name: string): (m: string)
    ensures |m| == 19 + |name|
    ensures m[19..] == name
  {
    "That's the flag of " + name
  }

  /** The wrong-guess message starts with the source's fixed text. */
  lemma WrongPrefix(name: string)
    ensures WrongMessage(name)[..19] == "That's the flag of "
  {
  }

  // ---------------------------------------------------------------------------------------
  // Transitions

  /** The state right after launch: a shuffle of the eleven names and a drawn answer in 0...2,
      no score, the first round, and the flags on screen. */
  function Initial(shuffled: seq<string>, draw: int): (g: Game)
    ensures g.countries == shuffled && g.correctAnswer == draw
    ensures g.score == 0 && g.round == 0 && Answering(g)
  {
    Game(shuffled, draw, 0, 0, "", "", "", false, false)
  }

  /** What the tap handler needs: the flag name it may read must exist. */
  predicate TapInBounds(g: Game, number: int) {
    g.round != LastRound && number != g.correctAnswer ==> 0 <= number < |g.countries|
  }

  /** The effect of tapping flag `number`. The pool and the correct answer stay; the score
      goes up by one exactly when the guess is right, on every round. Before the last round the
      round advances and the per-round alert is raised; on the last round the round stays, the
      end-of-game alert is raised, and the per-round alert's title and flag are left alone. */
  function AfterTap(g: Game, number: int): (r: Game)
    requires TapInBounds(g, number)
    ensures r.countries == g.countries && r.correctAnswer == g.correctAnswer
    ensures r.score == (if number == g.correctAnswer then g.score + 1 else g.score)
    ensures g.round != LastRound ==>
      r.round == g.round + 1 && r.showingScore && r.lastRound == g.lastRound && r.lastRoundTitle == g.lastRoundTitle
    ensures g.round == LastRound ==>
      r.round == g.round && r.lastRound && r.showingScore == g.showingScore && r.scoreTitle == g.scoreTitle
  {
    if g.round == LastRound then
      var score := if number == g.correctAnswer then g.score + 1 else g.score;
      g.(score := score, lastRoundTitle := FinalTitle(score), msg := FinalMessage(score), lastRound := true)
    else if number == g.correctAnswer then
      g.(scoreTitle := "Correct", score := g.score + 1, msg := ScoreMessage(g.score + 1),
         round := g.round + 1, showingScore := true)
    else
      g.(scoreTitle := "Wrong!", msg := WrongMessage(g.countries[number]),
         round := g.round + 1, showingScore := true)
  }

  /** What moving on to the next question needs: an index to remove, a shuffle of what is
      left after the removal, and a draw in 0...2. */
  predicate AskArgsValid(g: Game, shuffled: seq<string>, draw: int) {
    0 <= g.correctAnswer < |g.countries| &&
    multiset(shuffled) == multiset(RemoveAt(g.countries, g.correctAnswer)) &&
    0 <= draw < 3
  }

  /** The effect of asking the next question: the supplied shuffle becomes the pool and the
      draw the correct answer. Exactly the answered country leaves the pool, which is one name
      shorter; the next correct answer is one of the three flags on screen; nothing else
      changes. */
  function AfterAsk(g: Game, shuffled: seq<string>, draw: int): (r: Game)
    requires AskArgsValid(g, shuffled, draw)
    ensures multiset(r.countries) == multiset(g.countries) - multiset{g.countries[g.correctAnswer]}
    ensures |r.countries| == |g.countries| - 1
    ensures 0 <= r.correctAnswer < 3
    ensures r.countries == shuffled && r.correctAnswer == draw
    ensures r.(countries := g.countries, correctAnswer := g.correctAnswer) == g
  {
    assert |multiset(shuffled)| == |shuffled|;
    g.(countries := shuffled, correctAnswer := draw)
  }

  /** The effect of starting over: score and round back to zero and a full pool of the eleven
      distinct names in their written order; the correct answer, the texts and the alert flags
      are left as they were. */
  function AfterReset(g: Game): (r: Game)
    ensures r.score == 0 && r.round == 0
    ensures r.countries == Countries && |r.countries| == 11 && NoDuplicates(r.countries)
    ensures r.(score := g.score, round := g.round, countries := g.countries) == g
  {
    CountriesDistinct();
    g.(score := 0, round := 0, countries := Countries)
  }

  /** Dismissing the per-round alert clears the flag it is bound to and nothing else; with that
      alert up, the flags are back on screen. */
  function DismissScoreAlert(g: Game): (r: Game)
    ensures !r.showingScore && r.(showingScore := g.showingScore) == g
    ensures ShowingScore(g) ==> Answering(r)
  {
    g.(showingScore := false)
  }

  /** Dismissing the end-of-game alert clears the flag it is bound to and nothing else; with
      that alert up, the flags are back on screen. */
  function DismissLastRoundAlert(g: Game): (r: Game)
    ensures !r.lastRound && r.(lastRound := g.lastRound) == g
    ensures ShowingLastRound(g) ==> Answering(r)
  {
    g.(lastRound := false)
  }

  /** The "Continue" button of the per-round alert: the flags come back with the answered
      country gone from the pool, a new answer among the three shown, and score and round as
      the tap left them. */
  function AfterContinue(g: Game, shuffled: seq<string>, draw: int): (r: Game)
    requires AskArgsValid(g, shuffled, draw)
    ensures ShowingScore(g) ==> Answering(r)
    ensures multiset(r.countries) == multiset(g.countries) - multiset{g.countries[g.correctAnswer]}
    ensures 0 <= r.correctAnswer < 3
    ensures r.score == g.score && r.round == g.round
  {
    AfterAsk(DismissScoreAlert(g), shuffled, draw)
  }

  /** The "Restart" button of the end-of-game alert: the flags come back with score and round
      at zero and the pool reset to the eleven names in their written order, keeping the old
      correct answer. */
  function AfterRestart(g: Game): (r: Game)
    ensures ShowingLastRound(g) ==> Answering(r)
    ensures r.score == 0 && r.round == 0 && r.countries == Countries
    ensures r.correctAnswer == g.correctAnswer
  {
    AfterReset(DismissLastRoundAlert(g))
  }

  // ---------------------------------------------------------------------------------------
  // Phases and the game invariant

  /** No alert is up: the player is looking at three flags. */
  predicate Answering(g: Game) {
    !g.showingScore && !g.lastRound
  }

  /** The per-round alert is up, waiting for "Continue". */
  predicate ShowingScore(g: Game) {
    g.showingScore && !g.lastRound
  }

  /** The end-of-game alert is up, waiting for "Restart". */
  predicate ShowingLastRound(g: Game) {
    g.lastRound && !g.showingScore
  }

  /** What holds in every state the screen can reach. The pool holds each name once and
      shrinks by one name per answered, non-final round, so its size is tied to the round
      counter. */
  predicate Inv(g: Game) {
    0 <= g.correctAnswer < 3 &&
    0 <= g.score &&
    NoDuplicates(g.countries) &&
    !(g.showingScore && g.lastRound) &&
    (Answering(g) ==> 0 <= g.round <= LastRound && |g.countries| == 11 - g.round && g.score <= g.round) &&
    (ShowingScore(g) ==> 1 <= g.round <= LastRound && |g.countries| == 12 - g.round && g.score <= g.round) &&
    (ShowingLastRound(g) ==> g.round == LastRound && |g.countries| == 4 && g.score <= 8)
  }

  // ---------------------------------------------------------------------------------------
  // Properties of a tap

  /** On a non-final round the alert names the tapped country when the guess is wrong, and
      reports the raised score when it is right. */
  lemma TapMessage(g: Game, number: int)
    requires TapInBounds(g, number) && g.round != LastRound
    ensures number == g.correctAnswer ==>
      AfterTap(g, number).scoreTitle == "Correct" &&
      AfterTap(g, number).msg == "Your score is " + IntToDecimal(g.score + 1)
    ensures number != g.correctAnswer ==>
      AfterTap(g, number).scoreTitle == "Wrong!" &&
      AfterTap(g, number).msg == "That's the flag of " + g.countries[number]
  {
  }

  /** On the last round the end-of-game title and message depend on the final score only. */
  lemma TapFinalMessage(g: Game, number: int)
    requires TapInBounds(g, number) && g.round == LastRound
    ensures AfterTap(g, number).lastRoundTitle == FinalTitle(AfterTap(g, number).score)
    ensures AfterTap(g, number).msg == FinalMessage(AfterTap(g, number).score)
  {
  }

  /** The three end-of-game tiers, with the thresholds 8, above 5, and the rest. */
  lemma FinalTiers(score: int)
    ensures score == 8 ==> FinalTitle(score) == "Winner!" && FinalMessage(score) == "Perfect Score!"
    ensures score != 8 && score > 5 ==>
      FinalTitle(score) == "So close!" &&
      FinalMessage(score) == "Your score is " + IntToDecimal(score) + " out of 8"
    ensures score <= 5 ==>
      FinalTitle(score) == "Better luck next time" &&
      FinalMessage(score) == "Your score is " + IntToDecimal(score) + " out of 8, practice makes perfect try again!"
  {
  }

  /** The end-of-game messages for the scores that reach the top two tiers, written out. */
  lemma TopTierMessages()
    ensures FinalTitle(8) == "Winner!" && FinalMessage(8) == "Perfect Score!"
    ensures FinalTitle(7) == "So close!" && FinalMessage(7) == "Your score is 7 out of 8"
    ensures FinalTitle(6) == "So close!" && FinalMessage(6) == "Your score is 6 out of 8"
  {
    assert IntToDecimal(6) == "6" && IntToDecimal(7) == "7";
  }

  // ---------------------------------------------------------------------------------------
  // Properties of asking the next question

  lemma {:induction false} NoDuplicatesMultiplicity(s: seq<string>, x: string)
    requires NoDuplicates(s)
    ensures multiset(s)[x] <= 1
  {
    if s != [] {
      assert s == [s[0]] + s[1..];
      assert s[0] !in s[1..];
      NoDuplicatesMultiplicity(s[1..], x);
    }
  }

  lemma TwoOccurrences(s: seq<string>, i: int, j: int)
    requires 0 <= i < j < |s|
    ensures s[i] == s[j] ==> multiset(s)[s[i]] >= 2
  {
    assert s == s[..j] + s[j..];
    assert s[i] == s[..j][i];
    assert s[j] == s[j..][0];
    assert multiset(s) == multiset(s[..j]) + multiset(s[j..]);
  }

  lemma {:induction false} MultiplicityNoDuplicates(s: seq<string>)
    requires forall x :: multiset(s)[x] <= 1
    ensures NoDuplicates(s)
  {
    forall i, j | 0 <= i < j < |s|
      ensures s[i] != s[j]
    {
      TwoOccurrences(s, i, j);
    }
  }

  /** Reordering keeps a pool free of repeats. */
  lemma {:induction false} PermutationNoDuplicates(a: seq<string>, b: seq<string>)
    requires multiset(a) == multiset(b) && NoDuplicates(a)
    ensures NoDuplicates(b)
  {
    forall x ensures multiset(b)[x] <= 1 {
      NoDuplicatesMultiplicity(a, x);
    }
    MultiplicityNoDuplicates(b);
  }

  lemma CountriesDistinct()
    ensures NoDuplicates(Countries)
  {
  }

  /** In a reachable game the answered country cannot come back as a later candidate. */
  lemma {:induction false} AskRetiresAnswer(g: Game, shuffled: seq<string>, draw: int)
    requires Inv(g) && AskArgsValid(g, shuffled, draw)
    ensures g.countries[g.correctAnswer] !in AfterAsk(g, shuffled, draw).countries
  {
    var x := g.countries[g.correctAnswer];
    NoDuplicatesMultiplicity(g.countries, x);
    assert multiset(shuffled)[x] == 0;
  }

  // ---------------------------------------------------------------------------------------
  // The invariant is established and kept

  /** A shuffle of the eleven names has eleven entries. */
  lemma ShuffleSize(shuffled: seq<string>)
    requires multiset(shuffled) == multiset(Countries)
    ensures |shuffled| == 11
  {
    assert |multiset(shuffled)| == |shuffled|;
  }

  /** A state with no alert up, score and round zero and a full pool of the eleven names is a
      reachable one. */
  lemma {:induction false} FreshGameInv(g: Game)
    requires NoDuplicates(g.countries) && |g.countries| == 11
    requires 0 <= g.correctAnswer < 3 && g.score == 0 && g.round == 0
    requires !g.showingScore && !g.lastRound
    ensures Inv(g) && Answering(g)
  {
  }

  /** The state after launch is a reachable one: its pool is eleven distinct names and its
      first question is on screen. */
  lemma {:induction false} InitialInv(shuffled: seq<string>, draw: int)
    requires multiset(shuffled) == multiset(Countries) && 0 <= draw < 3
    ensures |Initial(shuffled, draw).countries| == 11 && NoDuplicates(Initial(shuffled, draw).countries)
    ensures Inv(Initial(shuffled, draw)) && Answering(Initial(shuffled, draw))
  {
    ShuffleSize(shuffled);
    CountriesDistinct();
    PermutationNoDuplicates(Countries, shuffled);
    FreshGameInv(Initial(shuffled, draw));
  }

  /** While the player is answering, a tap on one of the three flags keeps the invariant and
      raises the alert that belongs to the round. */
  lemma TapKeepsInv(g: Game, number: int)
    requires Inv(g) && Answering(g) && 0 <= number < 3
    ensures TapInBounds(g, number)
    ensures Inv(AfterTap(g, number))
    ensures g.round != LastRound ==> ShowingScore(AfterTap(g, number))
    ensures g.round == LastRound ==> ShowingLastRound(AfterTap(g, number))
  {
  }

  /** "Continue" on the per-round alert keeps the invariant and goes back to answering. */
  lemma {:induction false} ContinueKeepsInv(g: Game, shuffled: seq<string>, draw: int)
    requires Inv(g) && ShowingScore(g) && AskArgsValid(g, shuffled, draw)
    ensures Inv(AfterContinue(g, shuffled, draw)) && Answering(AfterContinue(g, shuffled, draw))
  {
    var removed := RemoveAt(g.countries, g.correctAnswer);
    forall x ensures multiset(removed)[x] <= 1 {
      NoDuplicatesMultiplicity(g.countries, x);
    }
    MultiplicityNoDuplicates(removed);
    PermutationNoDuplicates(removed, shuffled);
  }

  /** "Restart" on the end-of-game alert keeps the invariant and goes back to answering. */
  lemma RestartKeepsInv(g: Game)
    requires Inv(g) && ShowingLastRound(g)
    ensures Inv(AfterRestart(g)) && Answering(AfterRestart(g))
  {
    CountriesDistinct();
  }

  /** The indices the screen reads, the correct answer's name and the three flags, exist in
      every reachable state. */
  lemma InvBounds(g: Game)
    requires Inv(g)
    ensures |g.countries| >= 4
    ensures 0 <= g.correctAnswer < |g.countries|
  {
  }
}
