/** The session controller: level progression, the timer, the score and move
    counters, and the comparison scheduler that pairs clicked cards and
    resolves them after the match delay. Time is in integer ticks: `now`
    stands for the engine's clock and `dt` for the frame's elapsed time.
    UI text, panels, pausing and event subscription are not modelled. */
module Game {
  import opened Cards
  import opened Comparisons
  import opened Layout
  import CSharp

  /** Rows and columns of the grid for a level; every level outside 1..5
      gets the largest grid. */
  function GetGridSize(level: int): (g: (int, int))
    ensures g.0 > 0 && g.1 > 0
  {
    match level
    case 1 => (2, 2)
    case 2 => (2, 3)
    case 3 => (3, 4)
    case 4 => (4, 4)
    case 5 => (4, 5)
    case _ => (5, 6)
  }

  /** The number of cards a level deals: always an even number, so every
      card has a partner. */
  function CardCount(level: int): (n: int)
    ensures n > 0 && n % 2 == 0
    ensures n in {4, 6, 12, 16, 20, 30}
  {
    GetGridSize(level).0 * GetGridSize(level).1
  }

  /** Each of the six levels deals more cards than the one before. */
  lemma CardCountGrows(a: int, b: int)
    requires 1 <= a < b <= 6
    ensures CardCount(a) < CardCount(b)
  {
  }

  /** Every level from 6 up and every level from 0 down deals the 5 x 6 grid. */
  lemma OutOfRangeLevelsUseLargestGrid(level: int)
    requires level <= 0 || level >= 6
    ensures GetGridSize(level) == (5, 6)
  {
  }

  /** The level that follows `level`: `(level % 6) + 1` with C#'s
      truncating remainder. */
  function NextLevel(level: int): (n: int)
    ensures 1 <= level <= 6 ==> 1 <= n <= 6
    ensures level == 6 ==> n == 1
    ensures -6 < level < 6 ==> n == level + 1
    ensures level % 6 == (n - 1) % 6
  {
    CSharp.Rem(level, 6) + 1
  }

  /** Six advances bring a level in 1..6 back to itself. */
  lemma LevelsCycle(level: int)
    requires 1 <= level <= 6
    ensures NextLevel(NextLevel(NextLevel(NextLevel(NextLevel(NextLevel(level)))))) == level
  {
  }

  predicate AllMatched(cards: seq<Card>)
    reads cards
  {
    forall k :: 0 <= k < |cards| ==> cards[k].isMatched
  }

  class GameManager {
    const matchDelay: int
    const timeLimit: int
    const layoutManager: CardLayoutManager

    var currentLevel: int
    var score: int
    var moves: int
    var gameTimer: int
    var isGameActive: bool
    var activeCards: seq<Card>
    var pendingComparisons: seq<Comparison>
    /** Whether the polling coroutine is running (comparisonCoroutine != null). */
    var polling: bool

    ghost predicate Valid()
      reads this
    {
      1 <= currentLevel <= 6 && score >= 0 && moves >= 0 && gameTimer >= 0
    }

    constructor (matchDelay: int, timeLimit: int, layoutManager: CardLayoutManager)
      ensures Valid()
      ensures this.matchDelay == matchDelay && this.timeLimit == timeLimit
      ensures this.layoutManager == layoutManager
      ensures currentLevel == 1 && score == 0 && moves == 0 && gameTimer == 0 && !isGameActive
      ensures activeCards == [] && pendingComparisons == [] && !polling
    {
      this.matchDelay := matchDelay;
      this.timeLimit := timeLimit;
      this.layoutManager := layoutManager;
      currentLevel := 1;
      score := 0;
      moves := 0;
      gameTimer := 0;
      isGameActive := false;
      activeCards := [];
      pendingComparisons := [];
      polling := false;
    }

    /** Resets the score and the timer, activates the session and deals the
        level's cards. The move counter and the pending comparisons are
        left as they were. */
    method StartLevel()
      requires Valid()
      modifies this, layoutManager
      ensures Valid()
      ensures score == 0 && gameTimer == 0 && isGameActive
      ensures currentLevel == old(currentLevel) && moves == old(moves)
      ensures pendingComparisons == old(pendingComparisons) && polling == old(polling)
      ensures activeCards == layoutManager.activeCards
      ensures |activeCards| == CardCount(currentLevel)
      ensures forall k :: 0 <= k < |activeCards| ==> fresh(activeCards[k]) && activeCards[k].Selectable()
      ensures IsDeck(ValuesOf(activeCards), CardCount(currentLevel) / 2)
    {
      score := 0;
      gameTimer := 0;
      isGameActive := true;
      var (rows, cols) := GetGridSize(currentLevel);
      assert rows * cols == CardCount(currentLevel);
      activeCards := layoutManager.CreateCardLayout(rows, cols);
    }

    /** Advances to the next level of the cycle 1..6 and starts it. */
    method LoadNextLevel()
      requires Valid()
      modifies this, layoutManager
      ensures Valid()
      ensures currentLevel == NextLevel(old(currentLevel))
      ensures score == 0 && gameTimer == 0 && isGameActive && moves == old(moves)
      ensures pendingComparisons == old(pendingComparisons) && polling == old(polling)
      ensures activeCards == layoutManager.activeCards
      ensures |activeCards| == CardCount(currentLevel)
      ensures forall k :: 0 <= k < |activeCards| ==> fresh(activeCards[k]) && activeCards[k].Selectable()
      ensures IsDeck(ValuesOf(activeCards), CardCount(currentLevel) / 2)
    {
      currentLevel := NextLevel(currentLevel);
      StartLevel();
    }

    /** Deals the current level again. */
    method RestartLevel()
      requires Valid()
      modifies this, layoutManager
      ensures Valid()
      ensures currentLevel == old(currentLevel)
      ensures score == 0 && gameTimer == 0 && isGameActive && moves == old(moves)
      ensures pendingComparisons == old(pendingComparisons) && polling == old(polling)
      ensures activeCards == layoutManager.activeCards
      ensures |activeCards| == CardCount(currentLevel)
      ensures forall k :: 0 <= k < |activeCards| ==> fresh(activeCards[k]) && activeCards[k].Selectable()
      ensures IsDeck(ValuesOf(activeCards), CardCount(currentLevel) / 2)
    {
      StartLevel();
    }

    /** The session is lost. */
    method GameOver()
      modifies this`isGameActive
      ensures !isGameActive
    {
      isGameActive := false;
    }

    /** The session is won. */
    method LevelComplete()
      modifies this`isGameActive
      ensures !isGameActive
    {
      isGameActive := false;
    }

    /** Ends the session exactly when every active card is matched. */
    method CheckGameOver()
      modifies this`isGameActive
      ensures AllMatched(activeCards) ==> !isGameActive
      ensures !AllMatched(activeCards) ==> isGameActive == old(isGameActive)
    {
      var i := 0;
      while i < |activeCards|
        invariant 0 <= i <= |activeCards|
        invariant forall k :: 0 <= k < i ==> activeCards[k].isMatched
      {
        if !activeCards[i].isMatched {
          return;
        }
        i := i + 1;
      }
      LevelComplete();
    }

    /** One frame: while the session is active the timer advances, and the
        session is lost once the timer reaches the limit. */
    method Update(dt: int)
      requires Valid()
      requires dt >= 0
      modifies this`gameTimer, this`isGameActive
      ensures Valid()
      ensures old(isGameActive) ==> gameTimer == old(gameTimer) + dt && isGameActive == (gameTimer < timeLimit)
      ensures !old(isGameActive) ==> gameTimer == old(gameTimer) && !isGameActive
    {
      if isGameActive {
        gameTimer := gameTimer + dt;
        if gameTimer >= timeLimit {
          GameOver();
        }
      }
    }

    /** A card's click event at tick `now`. An inactive session or an
        animating card ignores it; otherwise the card starts flipping and
        the click pairs into the pending list, and polling starts. */
    method OnCardClicked(card: Card, now: int)
      requires Valid()
      modifies this, card
      ensures Valid()
      ensures score == old(score) && moves == old(moves) && currentLevel == old(currentLevel)
      ensures gameTimer == old(gameTimer) && isGameActive == old(isGameActive)
      ensures activeCards == old(activeCards)
      ensures old(isGameActive) && !old(card.isAnimating) ==>
        && pendingComparisons == AfterClick(old(pendingComparisons), card, now)
        && polling
        && card.isAnimating
        && card.value == old(card.value) && card.isFaceUp == old(card.isFaceUp)
        && card.isMatched == old(card.isMatched)
      ensures !(old(isGameActive) && !old(card.isAnimating)) ==>
        pendingComparisons == old(pendingComparisons) && polling == old(polling) && unchanged(card)
    {
      if !isGameActive || card.isAnimating {
        return;
      }

      card.Flip();

      if |pendingComparisons| > 0 {
        var lastComparison := pendingComparisons[|pendingComparisons| - 1];
        if lastComparison.second == null && lastComparison.first != card {
          // Complete the last pending comparison
          pendingComparisons := pendingComparisons[|pendingComparisons| - 1 := Comparison(lastComparison.first, card, now)];
        } else {
          // Start a new comparison
          pendingComparisons := pendingComparisons + [Comparison(card, null, now)];
        }
      } else {
        pendingComparisons := pendingComparisons + [Comparison(card, null, now)];
      }

      if !polling {
        polling := true;
      }
    }

    /** Resolves one complete entry: on a match both cards are marked and
        get 100 points, then the win check runs; on a mismatch both cards
        flip back and shake, and the score loses 10 but stays at least 0. */
    method Resolve(comparison: Comparison)
      requires Valid()
      requires comparison.second != null
      modifies this`score, this`isGameActive, comparison.first, comparison.second
      ensures Valid()
      ensures score == Settle(old(score), old(IsMatch(comparison)))
      ensures isGameActive == (old(isGameActive) && !(old(IsMatch(comparison)) && AllMatched(activeCards)))
      ensures old(AllMatched(activeCards)) ==> AllMatched(activeCards)
      ensures !old(IsMatch(comparison)) ==> AllMatched(activeCards) == old(AllMatched(activeCards))
      ensures forall c :: c in CardsIn(comparison) ==>
        && c.value == old(c.value) && c.isFaceUp == old(c.isFaceUp) && c.isAnimating
        && c.isMatched == (old(c.isMatched) || old(IsMatch(comparison)))
    {
      if comparison.first.value == comparison.second.value {
        // Match found
        comparison.first.SetMatched();
        comparison.second.SetMatched();
        score := score + 100;

        CheckGameOver();
      } else {
        // No match
        comparison.first.Flip();
        comparison.second.Flip();
        comparison.first.PlayMismatchAnimation();
        comparison.second.PlayMismatchAnimation();
        score := if 0 > score - 10 then 0 else score - 10;
      }
    }

    /** The body of the polling loop for index `i`: a complete entry at
        least `matchDelay` ticks old is resolved, removed and counted as a
        move; any other entry is left as it is. */
    method PollEntry(i: int, now: int)
      requires Valid()
      requires 0 <= i < |pendingComparisons|
      modifies this`score, this`isGameActive, this`pendingComparisons, this`moves
      modifies CardsIn(pendingComparisons[i])
      ensures Valid()
      ensures var e := old(pendingComparisons[i]);
        Due(e, now, matchDelay) ==>
          && pendingComparisons == old(pendingComparisons[..i] + pendingComparisons[i + 1..])
          && moves == old(moves) + 1
          && score == Settle(old(score), old(IsMatch(e)))
          && isGameActive == (old(isGameActive) && !(old(IsMatch(e)) && AllMatched(activeCards)))
          && (forall c :: c in CardsIn(e) ==>
                && c.value == old(c.value) && c.isFaceUp == old(c.isFaceUp) && c.isAnimating
                && c.isMatched == (old(c.isMatched) || old(IsMatch(e))))
      ensures var e := old(pendingComparisons[i]);
        !Due(e, now, matchDelay) ==>
          && pendingComparisons == old(pendingComparisons) && moves == old(moves)
          && score == old(score) && isGameActive == old(isGameActive)
          && unchanged(CardsIn(e))
      ensures old(AllMatched(activeCards)) ==> AllMatched(activeCards)
      ensures !(Due(old(pendingComparisons[i]), now, matchDelay) && old(IsMatch(pendingComparisons[i]))) ==>
        AllMatched(activeCards) == old(AllMatched(activeCards))
    {
      var comparison := pendingComparisons[i];
      if comparison.second != null && now - comparison.startTime >= matchDelay {
        Resolve(comparison);
        pendingComparisons := pendingComparisons[..i] + pendingComparisons[i + 1..];
        moves := moves + 1;
      }
    }

    /** The state of the polling loop of ProcessComparisons once the
        entries of `q` after index `i` have been visited, for a step that
        started with score `score0`, activity `active0`, `moves0` moves and
        card states `snap`, given the verdicts `m` of the entries;
        `resolved` and `matched` are the cards resolved so far and those of
        them resolved as matches. */
    ghost predicate Polled(i: int, now: int, q: seq<Comparison>, m: seq<bool>, score0: int, active0: bool,
                           moves0: int, snap: map<Card, CardState>, resolved: set<Card>, matched: set<Card>)
      reads this, CardsOf(q), activeCards
    {
      && -1 <= i < |q| && |m| == |q|
      && Valid()
      && pendingComparisons == q[..i + 1] + Survivors(q[i + 1..], now, matchDelay)
      && moves == moves0 + DueCount(q[i + 1..], now, matchDelay)
      && score == ScoreAfter(score0, q[i + 1..], m[i + 1..], now, matchDelay)
      && resolved == DueCards(q[i + 1..], now, matchDelay)
      && matched == MatchedCards(q[i + 1..], m[i + 1..], now, matchDelay)
      && isGameActive == (active0 && !(matched != {} && AllMatched(activeCards)))
      && (forall c :: c in CardsOf(q) ==>
            && c in snap
            && c.value == snap[c].value
            && c.isFaceUp == snap[c].isFaceUp
            && c.isMatched == (snap[c].isMatched || c in matched)
            && c.isAnimating == (snap[c].isAnimating || c in resolved))
    }

    /** One visit of the polling loop, at index `i`: the loop's state with
        the entries after `i` visited becomes its state with `i` visited
        too. The entry is resolved and removed when it is due. */
    method PollAt(i: int, now: int, ghost q: seq<Comparison>, ghost m: seq<bool>, ghost score0: int,
                  ghost active0: bool, ghost moves0: int, ghost snap: map<Card, CardState>,
                  ghost resolved: set<Card>, ghost matched: set<Card>)
      returns (ghost resolved': set<Card>, ghost matched': set<Card>)
      requires 0 <= i
      requires Polled(i, now, q, m, score0, active0, moves0, snap, resolved, matched)
      requires forall k :: 0 <= k < |q| ==> m[k] == Verdict(q[k], snap)
      modifies this`score, this`isGameActive, this`pendingComparisons, this`moves, CardsIn(q[i])
      ensures Polled(i - 1, now, q, m, score0, active0, moves0, snap, resolved', matched')
    {
      ghost var e := q[i];
      ghost var due := Due(e, now, matchDelay);
      ghost var kept := Survivors(q[i + 1..], now, matchDelay);
      CardsOfCovers(q, i);
      ListAt(q, kept, i);
      PollStep(q, m, i, score0, now, matchDelay);
      if due {
        assert e.first in CardsIn(e) && e.second in CardsIn(e);
        assert m[i] == IsMatch(e);
      }
      PollEntry(i, now);
      resolved' := if due then CardsIn(e) + resolved else resolved;
      matched' := if due && m[i] then CardsIn(e) + matched else matched;
      forall c | c in CardsOf(q)
        ensures && c in snap
                && c.value == snap[c].value
                && c.isFaceUp == snap[c].isFaceUp
                && c.isMatched == (snap[c].isMatched || c in matched')
                && c.isAnimating == (snap[c].isAnimating || c in resolved')
      {
        if c !in CardsIn(e) {
          assert c.State() == old(c.State());
        }
      }
    }

    /** The polling loop of ProcessComparisons: walks the pending list
        `q0` from its last entry to its first, resolving and removing the
        due entries; ends in the loop's state with every entry visited. */
    method PollLoop(now: int, ghost q0: seq<Comparison>, ghost m0: seq<bool>, ghost snap: map<Card, CardState>)
      returns (ghost resolved: set<Card>, ghost matched: set<Card>)
      requires Valid()
      requires pendingComparisons == q0 && |m0| == |q0|
      requires forall k :: 0 <= k < |q0| ==> m0[k] == Verdict(q0[k], snap)
      requires forall c :: c in CardsOf(q0) ==> c in snap && c.State() == snap[c]
      modifies this`score, this`isGameActive, this`pendingComparisons, this`moves, CardsOf(q0)
      ensures Polled(-1, now, q0, m0, old(score), old(isGameActive), old(moves), snap, resolved, matched)
    {
      resolved, matched := {}, {};
      var i := |pendingComparisons| - 1;
      assert q0[i + 1..] == [] && m0[i + 1..] == [] && q0[..i + 1] == q0;
      while i >= 0
        invariant Polled(i, now, q0, m0, old(score), old(isGameActive), old(moves), snap, resolved, matched)
      {
        CardsOfCovers(q0, i);
        resolved, matched := PollAt(i, now, q0, m0, old(score), old(isGameActive), old(moves), snap, resolved, matched);
        i := i - 1;
      }
    }

    /** One iteration of the polling coroutine at tick `now`. With nothing
        pending the coroutine stops. Otherwise the list is walked from its
        last entry to its first; every complete entry at least `matchDelay`
        ticks old is resolved (a match marks both cards and adds 100, then
        the win check runs; a mismatch flips both back, shakes them and
        takes off 10, never below 0), removed, and counted as a move. */
    method ProcessComparisons(now: int)
      requires Valid()
      modifies this, CardsOf(pendingComparisons)
      ensures Valid()
      ensures old(pendingComparisons) == [] ==> !polling
      ensures old(pendingComparisons) != [] ==> polling == old(polling)
      ensures pendingComparisons == Survivors(old(pendingComparisons), now, matchDelay)
      ensures moves == old(moves) + DueCount(old(pendingComparisons), now, matchDelay)
      ensures score == ScoreAfter(old(score), old(pendingComparisons), old(Verdicts(pendingComparisons)), now, matchDelay)
      ensures isGameActive == (old(isGameActive) &&
        !(MatchedCards(old(pendingComparisons), old(Verdicts(pendingComparisons)), now, matchDelay) != {} && AllMatched(activeCards)))
      ensures currentLevel == old(currentLevel) && gameTimer == old(gameTimer) && activeCards == old(activeCards)
      ensures forall c :: c in old(CardsOf(pendingComparisons)) && old(allocated(c)) ==>
        && c.value == old(c.value)
        && c.isFaceUp == old(c.isFaceUp)
        && c.isMatched == (old(c.isMatched) || c in MatchedCards(old(pendingComparisons), old(Verdicts(pendingComparisons)), now, matchDelay))
        && c.isAnimating == (old(c.isAnimating) || c in DueCards(old(pendingComparisons), now, matchDelay))
    {
      if |pendingComparisons| == 0 {
        polling := false;
        return;
      }

      ghost var q0 := pendingComparisons;
      ghost var m0 := Verdicts(q0);
      ghost var snap := map c | c in CardsOf(q0) :: c.State();
      assert m0 == old(Verdicts(pendingComparisons));
      assert forall c :: c in snap ==> snap[c] == old(c.State());
      VerdictsFromSnapshot(q0, snap);
      ghost var resolved, matched := PollLoop(now, q0, m0, snap);
      assert q0[0..] == q0 && m0[0..] == m0;
    }
  }
}
