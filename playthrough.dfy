/** Whole games: a sequence of taps, each followed by "Continue" unless it ended the game,
    played from the launch state or from any reachable state. */
module Playthrough {
  import opened Quiz

  /** One round of play: the flag tapped, and the shuffle and draw that "Continue" uses. */
  datatype Move = Move(number: int, shuffled: seq<string>, draw: int)

  /** The tap hits one of the three flags on screen and, unless this is the last round, the
      shuffle and draw are ones the next question can use. */
  predicate MoveFits(g: Game, m: Move) {
    0 <= m.number < 3 &&
    (g.round != LastRound ==> AskArgsValid(g, m.shuffled, m.draw))
  }

  /** A tap and, when the game goes on, the "Continue" that follows it. */
  function Turn(g: Game, m: Move): (r: Game)
    requires Inv(g) && Answering(g) && MoveFits(g, m)
    ensures Inv(r)
    ensures r.score == g.score + (if m.number == g.correctAnswer then 1 else 0)
    ensures g.round == LastRound ==> ShowingLastRound(r) && r.round == LastRound
    ensures g.round == LastRound ==> r.lastRoundTitle == FinalTitle(r.score) && r.msg == FinalMessage(r.score)
    ensures g.round != LastRound ==> Answering(r) && r.round == g.round + 1
  {
    TapKeepsInv(g, m.number);
    var t := AfterTap(g, m.number);
    if g.round == LastRound then
      TapFinalMessage(g, m.number);
      t
    else
      ContinueKeepsInv(t, m.shuffled, m.draw);
      AfterContinue(t, m.shuffled, m.draw)
  }

  /** Every move is played while the three flags are on screen, and fits the state it meets. */
  predicate Legal(g: Game, moves: seq<Move>)
    decreases |moves|
  {
    moves == [] ||
    (Inv(g) && Answering(g) && MoveFits(g, moves[0]) && Legal(Turn(g, moves[0]), moves[1..]))
  }

  /** The state after playing all of `moves`. */
  function Play(g: Game, moves: seq<Move>): Game
    requires Legal(g, moves)
    decreases |moves|
  {
    if moves == [] then g else Play(Turn(g, moves[0]), moves[1..])
  }

  /** How many of `moves` tap the correct flag of the round they are played in. */
  function Hits(g: Game, moves: seq<Move>): nat
    requires Legal(g, moves)
    decreases |moves|
  {
    if moves == [] then 0
    else (if moves[0].number == g.correctAnswer then 1 else 0) + Hits(Turn(g, moves[0]), moves[1..])
  }

  /** A corollary of how `Hits` counts: the correct taps never outnumber the taps, which is
      what keeps the final score within 8. */
  lemma {:induction false} HitsBound(g: Game, moves: seq<Move>)
    requires Legal(g, moves)
    ensures Hits(g, moves) <= |moves|
    decreases |moves|
  {
    if moves != [] {
      HitsBound(Turn(g, moves[0]), moves[1..]);
    }
  }

  /** No game lasts more than the rounds that are left: eight from the start. */
  lemma {:induction false} LegalLength(g: Game, moves: seq<Move>)
    requires Inv(g) && Answering(g) && Legal(g, moves)
    ensures |moves| <= 8 - g.round
    decreases |moves|
  {
    if moves != [] {
      var r := Turn(g, moves[0]);
      if g.round == LastRound {
        assert !Answering(r);
        assert moves[1..] == [];
      } else {
        LegalLength(r, moves[1..]);
      }
    }
  }

  /** Playing out every remaining round ends on the end-of-game alert at round 7, with the
      score raised by exactly the number of correct taps and the title and message of its tier. */
  lemma {:induction false} PlayToEnd(g: Game, moves: seq<Move>)
    requires Inv(g) && Answering(g) && Legal(g, moves)
    requires |moves| == 8 - g.round
    ensures ShowingLastRound(Play(g, moves)) && Inv(Play(g, moves))
    ensures Play(g, moves).round == LastRound
    ensures Play(g, moves).score == g.score + Hits(g, moves)
    ensures Play(g, moves).lastRoundTitle == FinalTitle(Play(g, moves).score)
    ensures Play(g, moves).msg == FinalMessage(Play(g, moves).score)
    decreases |moves|
  {
    var r := Turn(g, moves[0]);
    if g.round == LastRound {
      assert moves[1..] == [];
      assert Play(g, moves) == r;
    } else {
      PlayToEnd(r, moves[1..]);
    }
  }

  /** `LegalLength` at round 0, named for the scenario it covers: from a fresh game (just
      launched, or just restarted), no legal game has more than eight moves. */
  lemma {:induction false} GameLength(g: Game, moves: seq<Move>)
    requires Inv(g) && Answering(g) && g.round == 0
    requires Legal(g, moves)
    ensures |moves| <= 8
  {
    LegalLength(g, moves);
  }

  /** From a fresh game, any eight legal moves finish the game on the end-of-game alert at
      round 7, with a score of at most 8 equal to the number of correct taps (its title and
      message are those of its tier, by PlayToEnd). */
  lemma {:induction false} FullGame(g: Game, moves: seq<Move>)
    requires Inv(g) && Answering(g) && g.round == 0 && g.score == 0
    requires Legal(g, moves) && |moves| == 8
    ensures ShowingLastRound(Play(g, moves))
    ensures Play(g, moves).round == LastRound
    ensures Play(g, moves).score == Hits(g, moves) <= 8
  {
    var e := Play(g, moves);
    var h := Hits(g, moves);
    PlayToEnd(g, moves);
    assert e.score == 0 + h;
    HitsBound(g, moves);
    assert h <= 8;
  }

  /** Eight correct taps from a fresh game are told "Winner!" and "Perfect Score!"; six are
      told "So close!" and "Your score is 6 out of 8". */
  lemma {:induction false} ScoreScenarios(g: Game, moves: seq<Move>)
    requires Inv(g) && Answering(g) && g.round == 0 && g.score == 0
    requires Legal(g, moves) && |moves| == 8
    ensures Hits(g, moves) == 8 ==>
      Play(g, moves).lastRoundTitle == "Winner!" && Play(g, moves).msg == "Perfect Score!"
    ensures Hits(g, moves) == 6 ==>
      Play(g, moves).lastRoundTitle == "So close!" && Play(g, moves).msg == "Your score is 6 out of 8"
  {
    var e := Play(g, moves);
    PlayToEnd(g, moves);
    var title, msg := e.lastRoundTitle, e.msg;
    assert title == FinalTitle(e.score) && msg == FinalMessage(e.score);
    if Hits(g, moves) == 8 {
      assert e.score == 8;
      TopTierMessages();
    } else if Hits(g, moves) == 6 {
      assert e.score == 6;
      TopTierMessages();
    }
  }

  /** A name that is not in the pool never enters it again while the game goes on: taps leave
      the pool alone and each "Continue" only takes names out. */
  lemma {:induction false} PlayKeepsOut(g: Game, moves: seq<Move>, x: string)
    requires Legal(g, moves) && x !in g.countries
    ensures x !in Play(g, moves).countries
    decreases |moves|
  {
    if moves != [] {
      var m := moves[0];
      if g.round != LastRound {
        assert multiset(g.countries)[x] == 0;
        assert multiset(Turn(g, m).countries)[x] == 0;
      }
      PlayKeepsOut(Turn(g, m), moves[1..], x);
    }
  }

  /** The country answered in a round before the last is gone from the pool for every later
      round: after any legal play that starts with that round, it is not among the names. */
  lemma {:induction false} AnsweredNeverReturns(g: Game, moves: seq<Move>)
    requires Inv(g) && Answering(g) && g.round != LastRound
    requires moves != [] && Legal(g, moves)
    ensures g.countries[g.correctAnswer] !in Play(g, moves).countries
  {
    var m := moves[0];
    var x := g.countries[g.correctAnswer];
    var r := Turn(g, m);
    NoDuplicatesMultiplicity(g.countries, x);
    assert multiset(r.countries) == multiset(g.countries) - multiset{x};
    assert multiset(r.countries)[x] == 0;
    PlayKeepsOut(r, moves[1..], x);
    assert Play(g, moves) == Play(r, moves[1..]);
  }

  /** The scenario "every game starts fresh", joining `InitialInv` and `RestartKeepsInv`: launch
      and restart both give a fresh game. */
  lemma FreshGames(shuffled: seq<string>, draw: int, g: Game)
    requires multiset(shuffled) == multiset(Countries) && 0 <= draw < 3
    requires Inv(g) && ShowingLastRound(g)
    ensures Inv(Initial(shuffled, draw)) && Answering(Initial(shuffled, draw))
    ensures Initial(shuffled, draw).round == 0 && Initial(shuffled, draw).score == 0
    ensures Inv(AfterRestart(g)) && Answering(AfterRestart(g))
    ensures AfterRestart(g).round == 0 && AfterRestart(g).score == 0
  {
    InitialInv(shuffled, draw);
    RestartKeepsInv(g);
  }
}
