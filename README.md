# GuessTheFlag game state, in Dafny

GuessTheFlag is a one-screen quiz: three flags are shown, the player taps the one of the named
country, and after eight rounds an end-of-game alert gives a verdict on the score. All of its
logic lives in `ContentView`: the state fields, the tap handler `flagTapped(_:)`, `askQuestion()`
(run by the per-round alert's "Continue" button) and `reset()` (run by the end-of-game alert's
"Restart" button).

The model has four modules:

- `Decimal` — how Swift's string interpolation prints an `Int` (`"\(score)"`), with a reader
  for decimal strings and the round trip between the two.
- `Quiz` — the fields as one value `Game`, each handler as a function on it (`AfterTap`,
  `AfterAsk`, `AfterReset`, and the two alert buttons `AfterContinue`, `AfterRestart`), the
  invariant `Inv` of every reachable state, and lemmas for each rule the handlers follow.
- `Playthrough` — whole games: a `Move` is a tap plus the shuffle and draw its "Continue" uses;
  `Play` runs a sequence of moves, `Hits` counts the correct taps, and the lemmas prove how games
  end.
- `GuessTheFlag` — class `ContentView` with the source's fields, updated in place by
  `FlagTapped`, `AskQuestion`, `Reset` and the two button methods. Each method's postcondition
  equates the new field values with the matching `Quiz` function of the old ones. The object
  invariant `Valid()` is `Inv` of the fields.

The randomness is supplied by the caller. `shuffled()`/`shuffle()` become a sequence argument
whose multiset must equal that of the list being shuffled. `Int.random(in: 0...2)` becomes an
argument `draw` with `0 <= draw < 3`.

The invariant ties the pool to the round counter:
- while the flags are on screen, the pool has `11 - round` names;
- while the per-round alert is up, it has `12 - round` names;
- while the end-of-game alert is up, it has 4 names at round 7.

So the pool never has fewer than 4 names. The reads `countries[correctAnswer]` and
`countries[0...2]` are therefore always in bounds. The pool also never holds a name twice, so
the country just answered is gone from the next pool (`AskRetiresAnswer`). Taps leave the pool
alone and each "Continue" only takes names out, so it stays gone for the rest of the game
(`PlayKeepsOut`, `AnsweredNeverReturns`).

The model follows the code as written:
- `reset()` puts back the eleven names unshuffled and in their written order, and keeps the old
  `correctAnswer`. There is no reshuffle and no new draw.
- The last round's tap leaves `round` at 7 and does not touch `scoreTitle` or `showingScore`.
- No handler checks the state it runs in: an out-of-range `remove(at:)` or subscript traps.
  The model turns each of those into a precondition (`TapInBounds`, `AskArgsValid`).
- `flagTapped` reads `countries[number]` only for a wrong guess before round 7. That is the only
  bound the tap handler needs.

The source functions never clear `showingScore` or `lastRound`. SwiftUI's
`.alert(isPresented:)` binding sets the flag back to false when the alert's button is
tapped (GuessTheFlag/ContentView.swift:104-113). The model writes this as
`DismissScoreAlert`/`DismissLastRoundAlert`, and as the first step of
`ContinueTapped`/`RestartTapped`.

The end-of-game texts are proved for every score in symbolic form: fixed text, the printed
score `IntToDecimal(score)`, fixed text (`FinalTiers`). `TopTierMessages` writes out the texts
for the scores 8, 7 and 6 letter by letter. The texts for scores 0 to 5 are not written out
that way: an equation between two long string literals costs the solver far more than the
symbolic form, which already fixes every character.

## Model

| member | source | states |
|---|---|---|
| `Decimal.NatToDecimal` | GuessTheFlag/ContentView.swift:139 | the printed form of a score is a non-empty string of decimal digits that starts with '0' exactly for the value 0, and then is "0" alone, so there is never a leading zero |
| `Decimal.IntToDecimal` | GuessTheFlag/ContentView.swift:139 | `"\(score)"` starts with a minus sign exactly for a negative value; a non-negative value prints as digits alone that read back as itself, a negative one as `-` followed by digits that read back as its magnitude; in both cases there is no leading zero, as Swift prints `7` and never `07` |
| `Decimal.DecimalRoundTrip` | GuessTheFlag/ContentView.swift:139 | reading back the printed digits of `n` gives `n`, so a score message determines the score |
| `Quiz.RemoveAt` | GuessTheFlag/ContentView.swift:169 | `remove(at:)` drops exactly the element at the index: one shorter, the multiset loses that one element, the others keep their order |
| `Quiz.FinalTitle` | GuessTheFlag/ContentView.swift:123-132 | the title is "Winner!" exactly for a score of 8, "So close!" exactly for any other score above 5, and "Better luck next time" exactly for a score of 5 or less |
| `Quiz.FinalMessage` | GuessTheFlag/ContentView.swift:123-132 | the message is "Perfect Score!" exactly for a score of 8; for any other score it is the per-round score message followed by " out of 8" exactly when the score is above 5 |
| `Quiz.ScoreMessage` | GuessTheFlag/ContentView.swift:139 | the per-round message is longer than 14 characters, and for a non-negative score the part after the first 14 is digits that read back as the score (the prefix itself is `ScorePrefix`) |
| `Quiz.ScorePrefix` | GuessTheFlag/ContentView.swift:139 | the per-round message is exactly "Your score is " followed by what Swift prints for the score (`IntToDecimal`) |
| `Quiz.WrongMessage` | GuessTheFlag/ContentView.swift:151 | the wrong-guess message is 19 characters longer than the tapped country's name, and the part after the first 19 is exactly that name (the prefix itself is `WrongPrefix`) |
| `Quiz.WrongPrefix` | GuessTheFlag/ContentView.swift:151 | the first 19 characters of the wrong-guess message are "That's the flag of " |
| `Quiz.Initial` | GuessTheFlag/ContentView.swift:11-20 | launch has zero score and round, the flags on screen, and the supplied shuffle and draw |
| `Quiz.AfterTap` | GuessTheFlag/ContentView.swift:116-164 | a tap keeps `countries` and `correctAnswer`; the score rises by 1 exactly when the tap is `correctAnswer`, on every round; before round 7 the round advances and `showingScore` is set, leaving `lastRound` and its title alone; on round 7 the round stays, `lastRound` is set and `showingScore` and `scoreTitle` are left alone |
| `Quiz.AfterAsk` | GuessTheFlag/ContentView.swift:169-171 | asking the next question installs the supplied shuffle as the pool and the draw as `correctAnswer`; the pool is the old one minus exactly the answered name (multiset minus that one name, one entry shorter), the new answer is in 0...2, and no other field changes |
| `Quiz.AfterReset` | GuessTheFlag/ContentView.swift:174-178 | reset sets score and round to 0 and the pool to the eleven names in their written order, which are eleven distinct names; every other field, `correctAnswer` included, stays |
| `Quiz.DismissScoreAlert` | GuessTheFlag/ContentView.swift:104-105 | dismissing the per-round alert clears `showingScore` and nothing else; with that alert up, the flags are back on screen |
| `Quiz.DismissLastRoundAlert` | GuessTheFlag/ContentView.swift:109-110 | dismissing the end-of-game alert clears `lastRound` and nothing else; with that alert up, the flags are back on screen |
| `Quiz.AfterContinue` | GuessTheFlag/ContentView.swift:104-113 | "Continue" brings the flags back from the per-round alert, with the answered name gone from the pool, a new answer in 0...2, and score and round as the tap left them |
| `Quiz.AfterRestart` | GuessTheFlag/ContentView.swift:104-113 | "Restart" brings the flags back from the end-of-game alert with score and round 0, the eleven names in their written order, and the old `correctAnswer` |
| `Quiz.TapMessage` | GuessTheFlag/ContentView.swift:136-151 | before round 7, a correct tap gives title "Correct" and "Your score is " plus the raised score; a wrong one gives "Wrong!" and "That's the flag of " plus the tapped flag's name |
| `Quiz.TapFinalMessage` | GuessTheFlag/ContentView.swift:118-132 | on round 7 the end-of-game title and message are those of the score after the tap |
| `Quiz.FinalTiers` | GuessTheFlag/ContentView.swift:123-132 | score 8 gives "Winner!"/"Perfect Score!"; a score above 5 otherwise gives "So close!"/"Your score is N out of 8"; anything else gives "Better luck next time" and the practice message |
| `Quiz.TopTierMessages` | GuessTheFlag/ContentView.swift:123-128 | the end-of-game texts for scores 8, 7 and 6, spelled out |
| `Quiz.CountriesDistinct` | GuessTheFlag/ContentView.swift:11 | the eleven names are pairwise distinct |
| `Quiz.ShuffleSize` | GuessTheFlag/ContentView.swift:11 | any shuffle of the eleven names has eleven entries |
| `Quiz.PermutationNoDuplicates` | GuessTheFlag/ContentView.swift:170 | a shuffle of a list without repeats has no repeats |
| `Quiz.AskRetiresAnswer` | GuessTheFlag/ContentView.swift:169-170 | in a reachable state the answered name is no longer in the pool after "Continue" |
| `Quiz.InitialInv` | GuessTheFlag/ContentView.swift:11-20 | the launch state (a shuffle of the eleven names, a draw in 0...2, zero score and round, no alert) has a pool of eleven distinct names and satisfies the invariant with the flags on screen |
| `Quiz.TapKeepsInv` | GuessTheFlag/ContentView.swift:116-164 | a tap on one of the three flags in a reachable state is in bounds, keeps the invariant, and raises the per-round alert before round 7 or the end-of-game alert on round 7 |
| `Quiz.ContinueKeepsInv` | GuessTheFlag/ContentView.swift:166-172 | "Continue" on the per-round alert keeps the invariant (pool back to `11 - round` names, still without repeats) and puts the flags back on screen |
| `Quiz.RestartKeepsInv` | GuessTheFlag/ContentView.swift:174-178 | "Restart" on the end-of-game alert keeps the invariant and puts the flags back on screen |
| `Quiz.InvBounds` | GuessTheFlag/ContentView.swift:59-69 | in every reachable state the pool has at least 4 names, so `countries[correctAnswer]` and `countries[0...2]` exist |
| `Playthrough.Turn` | GuessTheFlag/ContentView.swift:116-172 | a tap followed by its "Continue" keeps the invariant, adds 1 to the score exactly for a correct tap, and moves to the next round; on round 7 it ends on the end-of-game alert with the tier's texts |
| `Playthrough.HitsBound` | GuessTheFlag/ContentView.swift:119-120 | the number of correct taps is at most the number of taps |
| `Playthrough.LegalLength` | GuessTheFlag/ContentView.swift:118-153 | from a state at round `r`, at most `8 - r` taps can be played before the game ends |
| `Playthrough.PlayToEnd` | GuessTheFlag/ContentView.swift:116-172 | playing every remaining round ends on the end-of-game alert at round 7, with the score raised by the number of correct taps and the titles and messages of that score's tier |
| `Playthrough.GameLength` | GuessTheFlag/ContentView.swift:118-141 | from a fresh game no play has more than eight taps |
| `Playthrough.FullGame` | GuessTheFlag/ContentView.swift:116-172 | from a fresh game, any eight taps end the game at round 7 with a score of at most 8 that equals the number of correct taps |
| `Playthrough.ScoreScenarios` | GuessTheFlag/ContentView.swift:123-128 | eight correct taps give "Winner!"/"Perfect Score!"; six give "So close!"/"Your score is 6 out of 8" |
| `Playthrough.PlayKeepsOut` | GuessTheFlag/ContentView.swift:116-172 | a name absent from the pool stays absent through any legal sequence of taps and "Continue"s |
| `Playthrough.AnsweredNeverReturns` | GuessTheFlag/ContentView.swift:169-170 | the name answered in a round before the last is absent from the pool after any legal play that starts with that round |
| `Playthrough.FreshGames` | GuessTheFlag/ContentView.swift:11-20 | both launch (lines 11-20) and restart (lines 174-178) give a fresh game: zero score and round, invariant holds, flags on screen |
| `GuessTheFlag.ContentView.constructor` | GuessTheFlag/ContentView.swift:11-21 | the fields start from a shuffle of the eleven names, a draw in 0...2, zero counters, empty texts and no alert; the object is valid |
| `GuessTheFlag.ContentView.FlagTapped` | GuessTheFlag/ContentView.swift:116-164 | the fields become `AfterTap` of the old ones; a tap on one of the three flags while they are on screen keeps the object valid |
| `GuessTheFlag.ContentView.FinalRoundTapped` | GuessTheFlag/ContentView.swift:118-134 | on round 7 the fields become `AfterTap` of the old ones |
| `GuessTheFlag.ContentView.RoundTapped` | GuessTheFlag/ContentView.swift:136-160 | before round 7 the fields become `AfterTap` of the old ones |
| `GuessTheFlag.ContentView.AskQuestion` | GuessTheFlag/ContentView.swift:166-172 | removes the answered name, then installs the supplied shuffle and draw: the fields become `AfterAsk` of the old ones |
| `GuessTheFlag.ContentView.Reset` | GuessTheFlag/ContentView.swift:174-178 | the fields become `AfterReset` of the old ones |
| `GuessTheFlag.ContentView.ContinueTapped` | GuessTheFlag/ContentView.swift:104-105 | "Continue" clears `showingScore` and asks the next question; from a valid state with the per-round alert up, the object stays valid with the flags on screen |
| `GuessTheFlag.ContentView.RestartTapped` | GuessTheFlag/ContentView.swift:109-110 | "Restart" clears `lastRound` and resets; from a valid state with the end-of-game alert up, the object stays valid with the flags on screen |
| `GuessTheFlag.ContentView.TargetName` | GuessTheFlag/ContentView.swift:59 | in a valid object the name to find is `countries[correctAnswer]` and is one of the three flags shown |
| `GuessTheFlag.ContentView.FlagNames` | GuessTheFlag/ContentView.swift:63-69 | in a valid object the three flags shown are `countries[0]`, `countries[1]` and `countries[2]` |
| `GuessTheFlag.ContentView.DisplayedRound` | GuessTheFlag/ContentView.swift:95 | the round shown is `round + 1`, always between 1 and 8 |

## Left out

- The SwiftUI `body`: layout, gradient, text styling, `FlagImage`, the alert views themselves and `#Preview` (lines 29-114, 180-182). They only display state. The model keeps only what the alerts' buttons do to the state, and three of the screen's reads, each of which computes something from the fields (`TargetName`, `FlagNames`, `DisplayedRound`). The other reads (`score` at line 91, and `scoreTitle`, `lastRoundTitle` and `msg` in the alerts at lines 104-112) only show a field as it is.
- The animation state `animateCorrect`, `animateOpacity`, `besidesTheWrong`, `besidesTheCorrect`, `selectedFlag` and the `withAnimation` blocks (lines 23-27, 65, 144-148, 155-158, 167-168). They only affect presentation, and two of them are floating point.
- The random shuffle and the random draw (lines 11-12, 170-171) become arguments constrained by a multiset equality and by `0 <= draw < 3`. Their probability distribution is not modelled.
- Swift's `Int` is 64 bits wide. The model uses unbounded integers: `score` and `round` never go above 8 in a reachable state, so no wrap-around can happen.
- The two branches of `flagTapped` are written as the helper methods `FinalRoundTapped` and `RoundTapped`, so that each branch is proved on its own. Their assignments are the source's, in the source's order.
- The invariant `Quiz.Inv` records that the pool has no repeats. It does not record that every pool name is one of the eleven, which the game never relies on.
