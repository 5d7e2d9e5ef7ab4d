# Card-Match: a verified model of the game core

This project models the core of a Unity memory-card game in Dafny and proves
properties of the model. In the game the player turns cards over two at a
time and tries to find pairs of equal value. The model has five parts:

- **The session controller** (`GameManager`, module `Game`). It covers:
  - the level-to-grid table, and the level cycle 1..6;
  - the session timer, the score and the move counter;
  - the comparison scheduler. Clicks are paired into a list of pending
    comparisons. A polling step resolves every complete entry whose delay
    has elapsed: a match scores 100, a mismatch costs 10 but never takes
    the score below 0. Each resolution removes the entry and counts one
    move.
- **The pending-comparison list as values** (module `Comparisons`). This is
  what a click does to the list and what one polling step keeps, resolves
  and scores. `GameManager`'s methods are proved against these functions.
- **The layout generator** (`CardLayoutManager`, module `Layout`). It builds
  the deck `0,0,1,1,…,p-1,p-1`, shuffles it in place with a descending
  Fisher–Yates swap loop, and hands the values to fresh cards.
- **The card flag machine** (`Card`, module `Cards`). Setup sets the value
  and the three flags `isFaceUp`, `isMatched` and `isAnimating`, and the
  click is gated on them. Flipping, matching and the mismatch shake change
  the flags. Each tween's completion is a callback method of its own.
- **The progress store** (`SaveManager2`, module `Progress`). It holds the
  level reached and a high score that only a greater score replaces, with
  a reset and a load that falls back to level 1 with no score. The save
  file is a field holding the last record written, or nothing.

Module `CSharp` gives C#'s truncating `/` and `%`. Dafny's own operators
are Euclidean.

Modelling choices:

- Time is integer ticks. `now` stands for the engine clock at a polling
  step or a click, and `dt` for a frame's elapsed time. The match delay
  and the time limit are constants of the controller.
- The random index of the shuffle is a nondeterministic choice in `[0, i]`,
  so the shuffle's contract holds for every outcome of the random source.
- The polling coroutine is a flag (`polling`). `ProcessComparisons` is one
  iteration of its loop, called once per poll. `StartCoroutine`
  (GameManager.cs:176) runs the first iteration at once, inside the click;
  `OnCardClicked` only sets the flag and leaves that iteration out on
  purpose. It could not resolve anything: polling is off only after the
  list was seen empty, so at that moment the list holds just the new open
  entry, and an open entry is never due.
- Cards taken from the object pool are new objects.
- `Comparison` is the `CardComparisonData` struct. Its second card is
  `null` while the entry is open.
- A polling step never changes a card's value. So the match verdict of
  every entry is read once at the start of the step (`Verdicts`), and the
  score and the matched cards of the step are functions of that snapshot.

Where the code and the intended design differ, the model follows the code:

- Winning a level does not save progress: `GameManager` never calls the
  progress store.
- Pending comparisons keep resolving after the session has ended. The
  score can still change after the timer runs out, and the win check can
  still fire after a loss. `ProcessComparisons` does not look at
  `isGameActive`.
- `UpdateProgress` compares with the high score held in memory, not with
  the stored one. `SaveManager.Synced` shows the two agree as long as the
  file changes only through the store itself.
- `StartLevel` resets the score and the timer, but not the move counter or
  the pending list.

## Model

| member | source | states |
|---|---|---|
| CSharp.Quot | Assets/Scripts/CardLayoutManager.cs:68 | `int` division truncates toward zero; on a non-negative dividend it is ordinary division, and on a non-positive one it is at most 0 |
| CSharp.Rem | Assets/Scripts/GameManager.cs:118 | `int` remainder: dividend = divisor × quotient + remainder, the remainder is smaller than the divisor in magnitude and takes the dividend's sign |
| Cards.Card.constructor | Assets/Scripts/Card.cs:14-17 | a new card has value 0 and every flag cleared |
| Cards.Card.SetupCard | Assets/Scripts/Card.cs:34-46 | sets the value and clears `isMatched`, `isFaceUp` and `isAnimating`, leaving the card selectable |
| Cards.Card.OnClick | Assets/Scripts/Card.cs:48-54 | the click is raised exactly when the card is not matched, not face-up and not animating; a matched or animating card stays silent |
| Cards.Card.Flip | Assets/Scripts/Card.cs:56-59 | starts animating; value, face and match flag unchanged |
| Cards.Card.MidFlip | Assets/Scripts/Card.cs:61-65 | the mid-flip callback turns the face over and changes nothing else |
| Cards.Card.FlipComplete | Assets/Scripts/Card.cs:66-69 | the flip-completion callback stops the animation and changes nothing else |
| Cards.Card.SetMatched | Assets/Scripts/Card.cs:79-85 | sets `isMatched` and `isAnimating`; value and face unchanged |
| Cards.Card.PlayMismatchAnimation | Assets/Scripts/Card.cs:87-92 | starts animating and leaves `isMatched` and `isFaceUp` unchanged |
| Cards.Card.AnimComplete | Assets/Scripts/Card.cs:83-91 | the completion callback of the match and shake tweens stops the animation and changes nothing else |
| Cards.MatchedCardStaysSilent | Assets/Scripts/Card.cs:48-92 | whatever sequence of the six card events (flip, mid-flip and flip-complete callbacks, match, shake, animation-complete callback) follows, a matched card stays matched and its click is not raised |
| Layout.Pairs | Assets/Scripts/CardLayoutManager.cs:84-89 | the unshuffled deck of p pairs has length 2p |
| Layout.PairsAt | Assets/Scripts/CardLayoutManager.cs:85-89 | position k of the unshuffled deck holds k / 2, so it reads 0,0,1,1,…,p-1,p-1 |
| Layout.PairsCount | Assets/Scripts/CardLayoutManager.cs:85-89 | in the unshuffled deck every value in [0, p) occurs exactly twice and no other value occurs |
| Layout.IsDeckIsPermutationOfPairs | Assets/Scripts/CardLayoutManager.cs:82-100 | a list has every value in [0, p) exactly twice and nothing else if and only if it is a permutation of 0,0,…,p-1,p-1 |
| Layout.DeckShape | Assets/Scripts/CardLayoutManager.cs:82-100 | a deck of p pairs has 2p entries, each in [0, p) |
| Layout.Shuffle | Assets/Scripts/CardLayoutManager.cs:91-98 | the swap loop is a permutation: the multiset of values is the same before and after, for every choice of random index in [0, i] |
| Layout.GenerateCardValues | Assets/Scripts/CardLayoutManager.cs:82-101 | the result has length 2p (empty when p ≤ 0), every value lies in [0, p) and occurs exactly twice, for every shuffle outcome |
| Layout.CardLayoutManager.constructor | Assets/Scripts/CardLayoutManager.cs:19 | a new layout manager holds no cards |
| Layout.CardLayoutManager.CreateCardLayout | Assets/Scripts/CardLayoutManager.cs:54-80 | the old cards are dropped; exactly rows × columns fresh cards are returned and kept, pairwise distinct and with every flag clear, and their values form a deck of rows × columns / 2 pairs; an odd positive count is excluded because it would read past the deck |
| Comparisons.AfterClick | Assets/Scripts/GameManager.cs:151-172 | when the last entry is open and names another card, that entry gets the clicked card as its second card and the length is unchanged; otherwise the old list is kept whole and a new open entry is appended after it; every entry before the last is unchanged in both cases |
| Comparisons.ClickKeepsOnlyLastOpen | Assets/Scripts/GameManager.cs:153-172 | clicks keep at most one open entry, the last one |
| Comparisons.ClickKeepsNoSelfPair | Assets/Scripts/GameManager.cs:156 | a click never pairs a card with itself |
| Comparisons.Verdicts | Assets/Scripts/GameManager.cs:200 | one match verdict per pending entry |
| Comparisons.VerdictsAt | Assets/Scripts/GameManager.cs:200 | an entry's verdict is a match exactly when it has a second card and both cards carry the same value |
| Comparisons.VerdictsFromSnapshot | Assets/Scripts/GameManager.cs:196 | the verdicts read from the cards agree with those read from a record of the cards' states taken while the values are the same |
| Comparisons.Settle | Assets/Scripts/GameManager.cs:200-213 | a match adds exactly 100; a mismatch takes off 10 but never goes below 0 |
| Comparisons.SurvivorsAreUndue | Assets/Scripts/GameManager.cs:190-196 | an entry is kept by a polling step exactly when it is in the list and not due: entries without a second card or younger than the delay are never resolved |
| Comparisons.NothingDue | Assets/Scripts/GameManager.cs:190-196 | a step resolves nothing exactly when no entry is due |
| Comparisons.PollStep | Assets/Scripts/GameManager.cs:190-221 | visiting one more entry of the backward loop extends the kept list, the resolution count, the resolved and matched cards and the score by exactly that entry's contribution |
| Comparisons.ListAt | Assets/Scripts/GameManager.cs:215 | removing the entry at index i of the pending list leaves the entries before it followed by the kept ones |
| Comparisons.SurvivorsAppend | Assets/Scripts/GameManager.cs:190-217 | the kept entries of a concatenation are the kept entries of each part, in order, so kept entries keep their relative order |
| Comparisons.SurvivorsAndDue | Assets/Scripts/GameManager.cs:190-218 | every entry is either kept or resolved: kept + resolved = length of the list |
| Comparisons.SurvivorsKeepOnlyLastOpen | Assets/Scripts/GameManager.cs:190-217 | a polling step keeps the shape clicks build: at most one open entry, the last |
| Comparisons.ScoreStaysNonNegative | Assets/Scripts/GameManager.cs:198-213 | a step that starts from a non-negative score ends with a non-negative score |
| Comparisons.AllMatchesScore | Assets/Scripts/GameManager.cs:198-205 | when every resolved entry is a match, the step adds exactly 100 per resolution |
| Comparisons.ScoreBound | Assets/Scripts/GameManager.cs:198-213 | a step gains at most 100 per resolution |
| Comparisons.MatchedAreDue | Assets/Scripts/GameManager.cs:196-205 | only cards of resolved entries are marked matched |
| Game.GetGridSize | Assets/Scripts/GameManager.cs:103-114 | every level gets a grid with positive rows and columns |
| Game.CardCount | Assets/Scripts/GameManager.cs:103-114 | every level deals a positive even number of cards: 4, 6, 12, 16, 20 or 30 |
| Game.CardCountGrows | Assets/Scripts/GameManager.cs:105-112 | each of the levels 1..6 deals more cards than the one before |
| Game.OutOfRangeLevelsUseLargestGrid | Assets/Scripts/GameManager.cs:112 | every level ≥ 6 or ≤ 0 gets the 5 × 6 grid |
| Game.NextLevel | Assets/Scripts/GameManager.cs:118 | a level in 1..6 stays in 1..6, 6 goes to 1 and every other level n in (-6, 6) goes to n + 1; the result agrees with the level modulo 6 |
| Game.LevelsCycle | Assets/Scripts/GameManager.cs:118 | six advances bring every level in 1..6 back to itself |
| Game.GameManager.constructor | Assets/Scripts/GameManager.cs:30-40 | a new controller is at level 1 with zero score, moves and timer, inactive, with no cards and nothing pending |
| Game.GameManager.StartLevel | Assets/Scripts/GameManager.cs:49-73 | score and timer are 0 and the session is active; level, moves and the pending list are unchanged; the cards are the layout's new cards, as many as the level deals, all selectable and forming a deck of pairs |
| Game.GameManager.RestartLevel | Assets/Scripts/GameManager.cs:89-92 | deals the current level again, with the same effects as starting it: score and timer 0, session active, and the layout's new cards, fresh, selectable and forming a deck of pairs of the level's size |
| Game.GameManager.LoadNextLevel | Assets/Scripts/GameManager.cs:116-120 | advances the level by the cycle 1..6 and starts it: score and timer 0, session active, and the layout's new cards, fresh, selectable and forming a deck of pairs of the new level's size |
| Game.GameManager.GameOver | Assets/Scripts/GameManager.cs:122-126 | the session becomes inactive |
| Game.GameManager.LevelComplete | Assets/Scripts/GameManager.cs:128-132 | the session becomes inactive |
| Game.GameManager.CheckGameOver | Assets/Scripts/GameManager.cs:74-83 | when every active card is matched the session becomes inactive; otherwise nothing changes |
| Game.GameManager.Update | Assets/Scripts/GameManager.cs:227-238 | an active session advances its timer by the frame time and is lost once the timer reaches the limit; an inactive one changes nothing |
| Game.GameManager.OnCardClicked | Assets/Scripts/GameManager.cs:147-178 | an inactive session or an animating card changes nothing; otherwise the card starts flipping, the pending list becomes the list after the click, and polling runs |
| Game.GameManager.Resolve | Assets/Scripts/GameManager.cs:198-213 | a match marks both cards matched, adds 100 and runs the win check; a mismatch flips and shakes both cards and takes off 10 but never below 0; values and faces are unchanged |
| Game.GameManager.PollEntry | Assets/Scripts/GameManager.cs:192-219 | a due entry is resolved, removed and counted as one move; any other entry is left in place with nothing changed |
| Game.GameManager.PollAt | Assets/Scripts/GameManager.cs:190-219 | one visit of the backward loop at index i carries the loop's state (list, moves, score, resolved and matched cards, card flags, activity) from "entries after i visited" to "entries from i on visited" |
| Game.GameManager.PollLoop | Assets/Scripts/GameManager.cs:190-221 | the backward loop over the whole pending list ends with every entry visited: the list is the kept entries, and moves, score, card flags and activity are those of the whole step |
| Game.GameManager.ProcessComparisons | Assets/Scripts/GameManager.cs:180-225 | with nothing pending polling stops; otherwise the list becomes the entries that were not due, in order; moves grow by the number resolved; the score is the step's score; exactly the cards of resolved entries start animating and exactly those of matched entries become matched; the session ends exactly when something matched and every card is matched |
| Progress.Loaded | Assets/Scripts/SaveManager2.cs:59-75 | Load reads the stored record, or level 1 with high score 0 when there is no file |
| Progress.Best | Assets/Scripts/SaveManager2.cs:38-41 | the new high score is the maximum of the old one and the score, and the score replaces it exactly when it is at least as large |
| Progress.Step | Assets/Scripts/SaveManager2.cs:35-43 | an update always sets the level to the one given, and the high score neither decreases nor stays below the score |
| Progress.MaxScore | Assets/Scripts/SaveManager2.cs:38-41 | the greatest of a start value and a list of scores, attained by one of them |
| Progress.ReplayIsMax | Assets/Scripts/SaveManager2.cs:35-43 | after any sequence of updates the high score is the best of the starting record and every score played, and the level is the last one played |
| Progress.HighScoreNeverDecreases | Assets/Scripts/SaveManager2.cs:38-41 | through any sequence of updates the high score never decreases and is at least every score played |
| Progress.LowerScoreKeepsRecord | Assets/Scripts/SaveManager2.cs:38-41 | level 3 with 250 and then level 2 with 100 leave level 2 with a high score of 250 |
| Progress.SaveManager.constructor | Assets/Scripts/SaveManager2.cs:12-26 | on start the progress is loaded from whatever file exists |
| Progress.SaveManager.UpdateProgress | Assets/Scripts/SaveManager2.cs:35-43 | the record becomes the update step of the old record, and it is saved |
| Progress.SaveManager.Save | Assets/Scripts/SaveManager2.cs:45-57 | the file holds exactly the in-memory level and high score |
| Progress.SaveManager.Load | Assets/Scripts/SaveManager2.cs:59-75 | the in-memory record becomes what the file holds, or level 1 with high score 0 when there is no file |
| Progress.SaveManager.ResetProgress | Assets/Scripts/SaveManager2.cs:77-82 | the record becomes level 1 with high score 0, and it is saved |
| Progress.SaveThenLoad | Assets/Scripts/SaveManager2.cs:42-67 | loading after an update gives back exactly the record the update saved |

## Left out

- UI text (`UpdateScore`, `UpdateTimer`, `UpdateUI`), the panels and `Pause`: rendering and engine time scale only.
- `CardAnimator` and the DOTween tweens: each tween is reduced to the callback it eventually invokes (`MidFlip`, `FlipComplete`, `AnimComplete`). When and whether the engine fires them is not modelled.
- `CalculateOptimalCardSize`: floating-point geometry over engine rectangle sizes.
- The card sprites: `SetupCard` does not model the sprite, and `cardSprites[spriteIndex]` is not bounds-checked against the sprite list.
- The object pool, `Instantiate`, `SetActive` and the grid layout component: pooled cards are modelled as new objects, so a card reused from the pool is not modelled.
- Event subscription (`+=`, `AddListener`, `Start`, `OnDestroy`): a click reaches `GameManager.OnCardClicked` only as a direct call. The controller does not check that the card belongs to the current layout.
- The singleton lifecycle, `DontDestroyOnLoad`, the file path, JSON encoding and logging of the progress store: the file is an optional record.
- The coroutine scheduling (`StartCoroutine`, `WaitForSeconds`): the periodic wait between polling steps is not modelled.
- Floating point time: `Time.time`, `Time.deltaTime`, `gameTimer`, `matchDelay` and `timeLimit` are integer ticks. `mismatchDelay` is declared but never used, so it is not modelled.
- C# `int` overflow: scores, moves, levels and the timer are unbounded integers, so wrap-around after 2^31 - 1 is not modelled.
- The list aliasing between the layout's `activeCards` and the controller's `activeCards`: `CreateCardLayout` returns its own list object, but the model copies the sequence.
- `Layout.CardLayoutManager.CreateCardLayout`: states the multiset of the card values, not that card i carries the i-th value of the generated deck, because that list is local to the method.
- The fields `firstSelected`, `secondSelected` and `canSelect` are declared but never used by the core, so they are not modelled.
