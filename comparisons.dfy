/** The pending-comparison list of the game controller, as values: what a
    click does to it and what one polling step resolves. Time is in integer
    ticks. */
module Comparisons {
  import opened Cards

  /** CardComparisonData: the first card, the second card (null while the
      entry is still open) and the tick at which the entry was last built. */
  datatype Comparison = Comparison(first: Card, second: Card?, startTime: int)

  /** An entry the polling step resolves at tick `now`: both cards chosen and
      at least `delay` ticks since its start. */
  predicate Due(e: Comparison, now: int, delay: int)
  {
    e.second != null && now - e.startTime >= delay
  }

  // ---------------------------------------------------------------------------
  // Clicks

  /** The list after a click on `card` at tick `now`: the last entry is
      completed when it is open and its first card is another card;
      otherwise a new open entry is appended. */
  function AfterClick(q: seq<Comparison>, card: Card, now: int): (r: seq<Comparison>)
    ensures var completes := |q| > 0 && q[|q| - 1].second == null && q[|q| - 1].first != card;
      && (completes ==> |r| == |q| && r[|q| - 1] == Comparison(q[|q| - 1].first, card, now))
      && (!completes ==> |r| == |q| + 1 && r[..|q|] == q && r[|q|] == Comparison(card, null, now))
    ensures forall k :: 0 <= k < |q| - 1 ==> r[k] == q[k]
  {
    if |q| > 0 && q[|q| - 1].second == null && q[|q| - 1].first != card then
      q[..|q| - 1] + [Comparison(q[|q| - 1].first, card, now)]
    else
      q + [Comparison(card, null, now)]
  }

  /** Only the last entry of the list may still be waiting for its second card. */
  ghost predicate OnlyLastOpen(q: seq<Comparison>)
  {
    forall k :: 0 <= k < |q| - 1 ==> q[k].second != null
  }

  /** No entry pairs a card with itself. */
  ghost predicate NoSelfPair(q: seq<Comparison>)
  {
    forall k :: 0 <= k < |q| ==> q[k].second != q[k].first
  }

  /** A click keeps at most one open entry, at the end, unless the click
      lands on the first card of the open entry itself (a card that is
      face-up, so its own click gate forbids it). */
  lemma ClickKeepsOnlyLastOpen(q: seq<Comparison>, card: Card, now: int)
    requires OnlyLastOpen(q)
    requires |q| == 0 || q[|q| - 1].second != null || q[|q| - 1].first != card
    ensures OnlyLastOpen(AfterClick(q, card, now))
    ensures |AfterClick(q, card, now)| > 0
  {
    var r := AfterClick(q, card, now);
    forall k | 0 <= k < |r| - 1
      ensures r[k].second != null
    {
      assert k < |q|;
    }
  }

  /** A click never pairs a card with itself. */
  lemma ClickKeepsNoSelfPair(q: seq<Comparison>, card: Card, now: int)
    requires NoSelfPair(q)
    ensures NoSelfPair(AfterClick(q, card, now))
  {
    var r := AfterClick(q, card, now);
    forall k | 0 <= k < |r|
      ensures r[k].second != r[k].first
    {
      if k < |q| - 1 {
        assert r[k] == q[k];
      }
    }
  }

  // ---------------------------------------------------------------------------
  // One polling step

  /** The cards an entry names. */
  function CardsIn(e: Comparison): set<Card>
  {
    if e.second == null then {e.first} else {e.first, e.second}
  }

  /** Every card named by an entry of the list. */
  function CardsOf(q: seq<Comparison>): set<Card>
  {
    if q == [] then {} else CardsIn(q[0]) + CardsOf(q[1..])
  }

  lemma {:induction false} CardsOfCovers(q: seq<Comparison>, k: nat)
    requires k < |q|
    ensures CardsIn(q[k]) <= CardsOf(q)
  {
    if k > 0 {
      CardsOfCovers(q[1..], k - 1);
    }
  }

  /** The entries a polling step keeps, in their original order. */
  function Survivors(q: seq<Comparison>, now: int, delay: int): seq<Comparison>
  {
    if q == [] then []
    else if Due(q[0], now, delay) then Survivors(q[1..], now, delay)
    else [q[0]] + Survivors(q[1..], now, delay)
  }

  /** The number of entries a polling step resolves. */
  function DueCount(q: seq<Comparison>, now: int, delay: int): nat
  {
    if q == [] then 0
    else (if Due(q[0], now, delay) then 1 else 0) + DueCount(q[1..], now, delay)
  }

  /** The cards of the entries a polling step resolves. */
  function DueCards(q: seq<Comparison>, now: int, delay: int): set<Card>
  {
    if q == [] then {}
    else (if Due(q[0], now, delay) then CardsIn(q[0]) else {}) + DueCards(q[1..], now, delay)
  }

  /** A resolved entry is a match when both of its cards carry the same value. */
  predicate IsMatch(e: Comparison)
    requires e.second != null
    reads e.first, e.second
  {
    e.first.value == e.second.value
  }

  /** Whether each entry would resolve as a match, read from its cards'
      values. A polling step never changes a value, so these verdicts fixed
      at the start of the step decide every resolution in it. */
  function Verdicts(q: seq<Comparison>): (r: seq<bool>)
    reads CardsOf(q)
    ensures |r| == |q|
  {
    if q == [] then [] else [q[0].second != null && IsMatch(q[0])] + Verdicts(q[1..])
  }

  lemma {:induction false} VerdictsAt(q: seq<Comparison>, k: nat)
    requires k < |q|
    ensures Verdicts(q)[k] == (q[k].second != null && IsMatch(q[k]))
  {
    if k > 0 {
      VerdictsAt(q[1..], k - 1);
    }
  }

  /** An entry's verdict read from a record `snap` of card states taken
      before the step. */
  function Verdict(e: Comparison, snap: map<Card, CardState>): bool
  {
    e.second != null && e.first in snap && e.second in snap && snap[e.first].value == snap[e.second].value
  }

  /** Verdicts read from the cards agree with verdicts read from a record
      of the same cards' states. */
  lemma VerdictsFromSnapshot(q: seq<Comparison>, snap: map<Card, CardState>)
    requires forall c :: c in CardsOf(q) ==> c in snap && snap[c].value == c.value
    ensures forall k :: 0 <= k < |q| ==> Verdicts(q)[k] == Verdict(q[k], snap)
  {
    forall k | 0 <= k < |q|
      ensures Verdicts(q)[k] == Verdict(q[k], snap)
    {
      VerdictsAt(q, k);
      CardsOfCovers(q, k);
    }
  }

  /** The cards of the entries a polling step resolves as matches, given
      the verdicts `m` of the entries. */
  function MatchedCards(q: seq<Comparison>, m: seq<bool>, now: int, delay: int): set<Card>
    requires |m| == |q|
  {
    if q == [] then {}
    else (if Due(q[0], now, delay) && m[0] then CardsIn(q[0]) else {}) + MatchedCards(q[1..], m[1..], now, delay)
  }

  /** The score after one resolution: 100 for a match, 10 off for a
      mismatch but never below zero. */
  function Settle(score: int, matched: bool): (r: int)
    ensures matched ==> r == score + 100
    ensures !matched ==> r >= 0 && r >= score - 10 && (r == 0 || r == score - 10)
  {
    if matched then score + 100 else if score - 10 > 0 then score - 10 else 0
  }

  /** The score after a polling step, given the verdicts `m` of the
      entries. The step walks the list from its last entry to its first, so
      the entries of `q[1..]` are settled before `q[0]`. */
  function ScoreAfter(score: int, q: seq<Comparison>, m: seq<bool>, now: int, delay: int): int
    requires |m| == |q|
  {
    if q == [] then score
    else
      var s := ScoreAfter(score, q[1..], m[1..], now, delay);
      if Due(q[0], now, delay) then Settle(s, m[0]) else s
  }

  // ---------------------------------------------------------------------------
  // Properties of a polling step

  /** The survivors are exactly the entries that are not due: no entry
      without a second card and no entry younger than the delay is
      resolved, and every due entry is. */
  lemma {:induction false} SurvivorsAreUndue(q: seq<Comparison>, now: int, delay: int, e: Comparison)
    ensures e in Survivors(q, now, delay) <==> e in q && !Due(e, now, delay)
  {
    if q != [] {
      SurvivorsAreUndue(q[1..], now, delay, e);
      assert q == [q[0]] + q[1..];
    }
  }

  /** A step resolves nothing exactly when no entry is due. */
  lemma {:induction false} NothingDue(q: seq<Comparison>, now: int, delay: int)
    ensures DueCount(q, now, delay) == 0 <==> forall k :: 0 <= k < |q| ==> !Due(q[k], now, delay)
  {
    if q != [] {
      NothingDue(q[1..], now, delay);
      assert forall k :: 1 <= k < |q| ==> q[k] == q[1..][k - 1];
    }
  }

  /** What the suffix `q[i..]` of a list contributes to a polling step,
      in terms of the shorter suffix `q[i + 1..]` and the entry at `i`. */
  lemma PollStep(q: seq<Comparison>, m: seq<bool>, i: nat, score: int, now: int, delay: int)
    requires |m| == |q| && i < |q|
    ensures var due := Due(q[i], now, delay);
      && Survivors(q[i..], now, delay) == (if due then [] else [q[i]]) + Survivors(q[i + 1..], now, delay)
      && DueCount(q[i..], now, delay) == (if due then 1 else 0) + DueCount(q[i + 1..], now, delay)
      && DueCards(q[i..], now, delay) == (if due then CardsIn(q[i]) else {}) + DueCards(q[i + 1..], now, delay)
      && MatchedCards(q[i..], m[i..], now, delay)
         == (if due && m[i] then CardsIn(q[i]) else {}) + MatchedCards(q[i + 1..], m[i + 1..], now, delay)
      && ScoreAfter(score, q[i..], m[i..], now, delay)
         == (var s := ScoreAfter(score, q[i + 1..], m[i + 1..], now, delay); if due then Settle(s, m[i]) else s)
  {
    assert q[i..][0] == q[i] && q[i..][1..] == q[i + 1..];
    assert m[i..][0] == m[i] && m[i..][1..] == m[i + 1..];
  }

  /** The pending list `q[..i + 1] + kept` at index i: its entry there,
      and the list left by removing that entry or by keeping it. */
  lemma ListAt(q: seq<Comparison>, kept: seq<Comparison>, i: nat)
    requires i < |q|
    ensures var p := q[..i + 1] + kept;
      && p[i] == q[i] && i < |p|
      && p[..i] + p[i + 1..] == q[..i] + kept
      && p == q[..i] + ([q[i]] + kept)
  {
    var p := q[..i + 1] + kept;
    assert p[..i] == q[..i];
    assert p[i + 1..] == kept;
  }

  /** Filtering distributes over concatenation, so surviving entries keep
      their relative order. */
  lemma {:induction false} SurvivorsAppend(a: seq<Comparison>, b: seq<Comparison>, now: int, delay: int)
    ensures Survivors(a + b, now, delay) == Survivors(a, now, delay) + Survivors(b, now, delay)
  {
    if a == [] {
      assert a + b == b;
    } else {
      assert (a + b)[0] == a[0];
      assert (a + b)[1..] == a[1..] + b;
      SurvivorsAppend(a[1..], b, now, delay);
    }
  }

  /** Every entry is either kept or resolved, never both and never lost. */
  lemma {:induction false} SurvivorsAndDue(q: seq<Comparison>, now: int, delay: int)
    ensures |Survivors(q, now, delay)| + DueCount(q, now, delay) == |q|
  {
    if q != [] {
      SurvivorsAndDue(q[1..], now, delay);
    }
  }

  /** Resolution keeps the shape the clicks build. */
  lemma {:induction false} SurvivorsKeepOnlyLastOpen(q: seq<Comparison>, now: int, delay: int)
    requires OnlyLastOpen(q)
    ensures OnlyLastOpen(Survivors(q, now, delay))
  {
    if q != [] {
      SurvivorsKeepOnlyLastOpen(q[1..], now, delay);
      var t := Survivors(q[1..], now, delay);
      if !Due(q[0], now, delay) && t != [] {
        // q[0] is not last in q, because a survivor follows it.
        SurvivorsAreUndue(q[1..], now, delay, t[0]);
        assert t[0] in q[1..];
        assert q[0].second != null;
      }
    }
  }

  /** The score never goes negative. */
  lemma {:induction false} ScoreStaysNonNegative(score: int, q: seq<Comparison>, m: seq<bool>, now: int, delay: int)
    requires score >= 0
    requires |m| == |q|
    ensures ScoreAfter(score, q, m, now, delay) >= 0
  {
    if q != [] {
      ScoreStaysNonNegative(score, q[1..], m[1..], now, delay);
    }
  }

  /** A step in which every resolved entry is a match awards exactly 100 per
      resolution. */
  lemma {:induction false} AllMatchesScore(score: int, q: seq<Comparison>, m: seq<bool>, now: int, delay: int)
    requires |m| == |q|
    requires forall k :: 0 <= k < |q| && Due(q[k], now, delay) ==> m[k]
    ensures ScoreAfter(score, q, m, now, delay) == score + 100 * DueCount(q, now, delay)
  {
    if q != [] {
      assert forall k :: 0 <= k < |q| - 1 ==> q[1..][k] == q[k + 1] && m[1..][k] == m[k + 1];
      AllMatchesScore(score, q[1..], m[1..], now, delay);
    }
  }

  /** A step gains at most 100 per resolution. */
  lemma {:induction false} ScoreBound(score: int, q: seq<Comparison>, m: seq<bool>, now: int, delay: int)
    requires |m| == |q|
    ensures ScoreAfter(score, q, m, now, delay) <= (if score > 0 then score else 0) + 100 * DueCount(q, now, delay)
  {
    if q != [] {
      ScoreBound(score, q[1..], m[1..], now, delay);
    }
  }

  /** Every card resolved as a match is a card of a resolved entry. */
  lemma {:induction false} MatchedAreDue(q: seq<Comparison>, m: seq<bool>, now: int, delay: int)
    requires |m| == |q|
    ensures MatchedCards(q, m, now, delay) <= DueCards(q, now, delay)
  {
    if q != [] {
      MatchedAreDue(q[1..], m[1..], now, delay);
    }
  }
}
