/** The game simulator and the matchup aggregator of src/processing.py. */
module Processing {
  import opened Cards

  // ---------------------------------------------------------------------------
  // Game simulator
  // ---------------------------------------------------------------------------

  /** The three results simulate_game reports. */
  datatype Outcome = Player1Wins | Player2Wins | Draw

  /** What the simulator holds between two cards: the cards on the table since the
      last trick (at most the latest three) and both players' trick counts. */
  datatype GameState = GameState(window: seq<Card>, p1Tricks: nat, p2Tricks: nat)

  /** The number of cards the window keeps. */
  const WINDOW_SIZE: nat := 3

  /** The window after one more card is laid down: appended, then the oldest card
      dropped if that makes more than three. */
  function Slide(window: seq<Card>, card: Card): seq<Card>
  {
    var appended := window + [card];
    if |appended| > WINDOW_SIZE then appended[1..] else appended
  }

  /** One card of the game: slide it into the window, then player 1 takes a trick if
      the window is seq1, otherwise player 2 takes one if it is seq2; a trick empties
      the window. */
  function Step(st: GameState, card: Card, seq1: seq<Card>, seq2: seq<Card>): GameState
  {
    var w := Slide(st.window, card);
    if w == seq1 then GameState([], st.p1Tricks + 1, st.p2Tricks)
    else if w == seq2 then GameState([], st.p1Tricks, st.p2Tricks + 1)
    else GameState(w, st.p1Tricks, st.p2Tricks)
  }

  /** The state after the cards of deck have been played, first card first. */
  function Play(deck: seq<Card>, seq1: seq<Card>, seq2: seq<Card>): GameState
    decreases |deck|
  {
    if deck == [] then GameState([], 0, 0)
    else Step(Play(deck[..|deck| - 1], seq1, seq2), deck[|deck| - 1], seq1, seq2)
  }

  /** The result announced for final trick counts p1 and p2. */
  function Decide(p1: nat, p2: nat): (r: Outcome)
    ensures r == Player1Wins <==> p1 > p2
    ensures r == Player2Wins <==> p2 > p1
    ensures r == Draw <==> p1 == p2
  {
    if p1 > p2 then Player1Wins
    else if p2 > p1 then Player2Wins
    else Draw
  }

  /** The result of one game of deck between seq1 and seq2. */
  function GameOutcome(deck: seq<Card>, seq1: seq<Card>, seq2: seq<Card>): Outcome
  {
    var st := Play(deck, seq1, seq2);
    Decide(st.p1Tricks, st.p2Tricks)
  }

  /** simulate_game: one pass over the deck with a sliding window of table cards. */
  method SimulateGame(deck: seq<Card>, seq1: seq<Card>, seq2: seq<Card>) returns (outcome: Outcome)
    ensures outcome == GameOutcome(deck, seq1, seq2)
  {
    var p1Tricks, p2Tricks := 0, 0;
    var currentSequence: seq<Card> := [];
    for i := 0 to |deck|
      invariant GameState(currentSequence, p1Tricks, p2Tricks) == Play(deck[..i], seq1, seq2)
    {
      assert deck[..i + 1][..i] == deck[..i];
      currentSequence := currentSequence + [deck[i]];
      if |currentSequence| > WINDOW_SIZE {
        currentSequence := currentSequence[1..];
      }
      if currentSequence == seq1 {
        p1Tricks := p1Tricks + 1;
        currentSequence := [];
      } else if currentSequence == seq2 {
        p2Tricks := p2Tricks + 1;
        currentSequence := [];
      }
    }
    assert deck[..|deck|] == deck;
    if p1Tricks > p2Tricks {
      outcome := Player1Wins;
    } else if p2Tricks > p1Tricks {
      outcome := Player2Wins;
    } else {
      outcome := Draw;
    }
  }

  // ---------------------------------------------------------------------------
  // Properties of the game
  // ---------------------------------------------------------------------------

  /** A card either ends in a trick, which empties the table, or leaves the slid
      window on it. */
  lemma StepWindowCases(st: GameState, card: Card, seq1: seq<Card>, seq2: seq<Card>)
    ensures var r := Step(st, card, seq1, seq2);
      r.window == [] || r.window == Slide(st.window, card)
  {
  }

  /** Sliding the last card of a deck into a window that is a short suffix of the rest
      of the deck gives a short suffix of the whole deck. */
  lemma SlideKeepsSuffix(deck: seq<Card>, window: seq<Card>)
    requires deck != [] && |window| <= WINDOW_SIZE && |window| < |deck|
    requires window == deck[|deck| - 1 - |window|..|deck| - 1]
    ensures var w := Slide(window, deck[|deck| - 1]);
      |w| <= WINDOW_SIZE && w == deck[|deck| - |w|..]
  {
  }

  /** After every card the window holds at most three cards, and they are the latest
      cards of the deck, in deck order. */
  lemma {:induction false} WindowIsShortSuffix(deck: seq<Card>, seq1: seq<Card>, seq2: seq<Card>)
    ensures var w := Play(deck, seq1, seq2).window;
      |w| <= WINDOW_SIZE && |w| <= |deck| && w == deck[|deck| - |w|..]
    decreases |deck|
  {
    if deck != [] {
      var prefix := deck[..|deck| - 1];
      WindowIsShortSuffix(prefix, seq1, seq2);
      var st := Play(prefix, seq1, seq2);
      StepWindowCases(st, deck[|deck| - 1], seq1, seq2);
      assert st.window == deck[|deck| - 1 - |st.window|..|deck| - 1];
      SlideKeepsSuffix(deck, st.window);
    }
  }

  /** The last min(3, |d| - k) cards of d: the cards laid down after the first k, or
      the latest three of them if there are more. */
  function Recent(d: seq<Card>, k: nat): seq<Card>
    requires k <= |d|
  {
    var n := if |d| - k < WINDOW_SIZE then |d| - k else WINDOW_SIZE;
    d[|d| - n..]
  }

  /** k is the point of the last trick in deck: the table was empty after the first k
      cards and is never empty again after any later card. */
  ghost predicate LastReset(deck: seq<Card>, seq1: seq<Card>, seq2: seq<Card>, k: nat)
  {
    && k <= |deck|
    && Play(deck[..k], seq1, seq2).window == []
    && forall j :: k < j <= |deck| ==> Play(deck[..j], seq1, seq2).window != []
  }

  /** If the last trick came before the last card, it is also the last trick of the
      deck without that card, and the table is not empty at the end. */
  lemma LastResetOfPrefix(deck: seq<Card>, seq1: seq<Card>, seq2: seq<Card>, k: nat)
    requires LastReset(deck, seq1, seq2, k) && k < |deck|
    ensures LastReset(deck[..|deck| - 1], seq1, seq2, k)
    ensures Play(deck, seq1, seq2).window != []
  {
    var prefix := deck[..|deck| - 1];
    assert prefix[..k] == deck[..k];
    forall j | k < j <= |prefix|
      ensures Play(prefix[..j], seq1, seq2).window != []
    {
      assert prefix[..j] == deck[..j];
    }
    assert deck[..|deck|] == deck;
  }

  /** Sliding the last card into the recent cards of the rest gives the recent cards of
      the whole deck. */
  lemma SlideRecent(deck: seq<Card>, k: nat)
    requires k < |deck|
    ensures Slide(Recent(deck[..|deck| - 1], k), deck[|deck| - 1]) == Recent(deck, k)
  {
    var prefix := deck[..|deck| - 1];
    var r := Recent(prefix, k);
    assert r == deck[|deck| - 1 - |r|..|deck| - 1];
    assert r + [deck[|deck| - 1]] == deck[|deck| - 1 - |r|..];
  }

  /** The window holds exactly the cards seen since the last trick, the latest three
      of them if there are more. */
  lemma {:induction false} WindowHoldsCardsSinceLastTrick(deck: seq<Card>, seq1: seq<Card>, seq2: seq<Card>, k: nat)
    requires LastReset(deck, seq1, seq2, k)
    ensures Play(deck, seq1, seq2).window == Recent(deck, k)
    decreases |deck|
  {
    if |deck| == k {
      assert deck[..k] == deck;
    } else {
      var prefix := deck[..|deck| - 1];
      LastResetOfPrefix(deck, seq1, seq2, k);
      WindowHoldsCardsSinceLastTrick(prefix, seq1, seq2, k);
      StepWindowCases(Play(prefix, seq1, seq2), deck[|deck| - 1], seq1, seq2);
      SlideRecent(deck, k);
    }
  }

  /** Scoring, stated over the deck: when one more card is played, player 1 takes a
      trick exactly when the cards since the last trick (the latest three) equal seq1,
      player 2 exactly when they equal seq2 and not seq1, and a trick empties the table. */
  lemma ScoringOnNextCard(deck: seq<Card>, card: Card, seq1: seq<Card>, seq2: seq<Card>, k: nat)
    requires LastReset(deck, seq1, seq2, k)
    ensures var before, after, seen := Play(deck, seq1, seq2), Play(deck + [card], seq1, seq2), Recent(deck + [card], k);
      && after.p1Tricks == before.p1Tricks + (if seen == seq1 then 1 else 0)
      && after.p2Tricks == before.p2Tricks + (if seen != seq1 && seen == seq2 then 1 else 0)
      && after.window == (if seen == seq1 || seen == seq2 then [] else seen)
  {
    var d := deck + [card];
    assert d[..|d| - 1] == deck;
    WindowHoldsCardsSinceLastTrick(deck, seq1, seq2, k);
    SlideRecent(d, k);
  }

  /** Every deck has a last trick point: the last card after which the table was
      empty, or 0 if it never was. */
  lemma {:induction false} LastResetExists(deck: seq<Card>, seq1: seq<Card>, seq2: seq<Card>)
    ensures exists k: nat :: LastReset(deck, seq1, seq2, k)
    decreases |deck|
  {
    if Play(deck, seq1, seq2).window == [] {
      assert deck[..|deck|] == deck;
      assert LastReset(deck, seq1, seq2, |deck|);
    } else {
      var prefix := deck[..|deck| - 1];
      LastResetExists(prefix, seq1, seq2);
      var k: nat :| LastReset(prefix, seq1, seq2, k);
      assert prefix[..k] == deck[..k];
      forall j | k < j <= |deck|
        ensures Play(deck[..j], seq1, seq2).window != []
      {
        if j == |deck| {
          assert deck[..j] == deck;
        } else {
          assert prefix[..j] == deck[..j];
        }
      }
      assert LastReset(deck, seq1, seq2, k);
    }
  }

  /** seq1 takes precedence: when both players watch the same sequence, player 2 never
      takes a trick and so never wins. */
  lemma {:induction false} SameSequenceNeverPlayer2(deck: seq<Card>, s: seq<Card>)
    ensures Play(deck, s, s).p2Tricks == 0
    ensures GameOutcome(deck, s, s) != Player2Wins
    decreases |deck|
  {
    if deck != [] {
      SameSequenceNeverPlayer2(deck[..|deck| - 1], s);
    }
  }

  /** With sequences of three cards every trick uses three fresh cards, so three times
      the tricks plus the cards left on the table never exceed the deck. */
  lemma {:induction false} TricksUseThreeCards(deck: seq<Card>, seq1: seq<Card>, seq2: seq<Card>)
    requires |seq1| >= 3 && |seq2| >= 3
    ensures var st := Play(deck, seq1, seq2);
      3 * (st.p1Tricks + st.p2Tricks) + |st.window| <= |deck|
    decreases |deck|
  {
    if deck != [] {
      var prefix := deck[..|deck| - 1];
      TricksUseThreeCards(prefix, seq1, seq2);
      WindowIsShortSuffix(prefix, seq1, seq2);
    }
  }

  /** The trick bound: at most |deck| / 3 tricks in all. */
  lemma TrickBound(deck: seq<Card>, seq1: seq<Card>, seq2: seq<Card>)
    requires |seq1| >= 3 && |seq2| >= 3
    ensures var st := Play(deck, seq1, seq2);
      st.p1Tricks + st.p2Tricks <= |deck| / 3
  {
    TricksUseThreeCards(deck, seq1, seq2);
  }

  /** A deck of fewer than three cards is always a draw. */
  lemma ShortDeckIsDraw(deck: seq<Card>, seq1: seq<Card>, seq2: seq<Card>)
    requires |seq1| >= 3 && |seq2| >= 3
    requires |deck| < 3
    ensures GameOutcome(deck, seq1, seq2) == Draw
  {
    TricksUseThreeCards(deck, seq1, seq2);
  }

  /** The trace of the worked example, card by card, over names for its deck and
      sequences. */
  lemma WorkedTrace(deck: seq<Card>, seq1: seq<Card>, seq2: seq<Card>)
    requires deck == [0, 0, 0, 1, 1, 1, 0, 0, 0] && seq1 == [0, 0, 0] && seq2 == [1, 1, 1]
    ensures Play(deck, seq1, seq2) == GameState([], 2, 1)
  {
    assert Play(deck[..0], seq1, seq2) == GameState([], 0, 0);
    assert deck[..1][..0] == deck[..0];
    assert Play(deck[..1], seq1, seq2) == GameState([0], 0, 0);
    assert deck[..2][..1] == deck[..1];
    assert Play(deck[..2], seq1, seq2) == GameState([0, 0], 0, 0);
    assert deck[..3][..2] == deck[..2];
    assert Play(deck[..3], seq1, seq2) == GameState([], 1, 0);
    assert deck[..4][..3] == deck[..3];
    assert Play(deck[..4], seq1, seq2) == GameState([1], 1, 0);
    assert deck[..5][..4] == deck[..4];
    assert Play(deck[..5], seq1, seq2) == GameState([1, 1], 1, 0);
    assert deck[..6][..5] == deck[..5];
    assert Play(deck[..6], seq1, seq2) == GameState([], 1, 1);
    assert deck[..7][..6] == deck[..6];
    assert Play(deck[..7], seq1, seq2) == GameState([0], 1, 1);
    assert deck[..8][..7] == deck[..7];
    assert Play(deck[..8], seq1, seq2) == GameState([0, 0], 1, 1);
    assert deck[..9][..8] == deck[..8];
    assert Play(deck[..9], seq1, seq2) == GameState([], 2, 1);
    assert deck[..9] == deck;
  }

  /** Worked example: deck 000111000 with seq1 = 000 and seq2 = 111 gives player 1 two
      tricks (after the third and the ninth card) and player 2 one (after the sixth). */
  lemma WorkedExample()
    ensures Play([0, 0, 0, 1, 1, 1, 0, 0, 0], [0, 0, 0], [1, 1, 1]) == GameState([], 2, 1)
    ensures GameOutcome([0, 0, 0, 1, 1, 1, 0, 0, 0], [0, 0, 0], [1, 1, 1]) == Player1Wins
  {
    WorkedTrace([0, 0, 0, 1, 1, 1, 0, 0, 0], [0, 0, 0], [1, 1, 1]);
  }

  // ---------------------------------------------------------------------------
  // Matchup aggregator
  // ---------------------------------------------------------------------------

  /** The failure compute_win_draw_percentages can raise. */
  datatype Error = ZeroDivisionError

  datatype Result<T> = Success(value: T) | Failure(error: Error)

  /** One row of the results dict: seq2 -> percentage, under 'Player 2 Wins' and 'Draws'. */
  datatype Row = Row(player2Wins: map<seq<Card>, real>, draws: map<seq<Card>, real>)

  /** The results dict: seq1 -> row. */
  type Table = map<seq<Card>, Row>

  /** The deck of the sim-th simulation of the pair (seq1, seq2). It stands for the
      decks the source fetches from a freshly drawn random seed. */
  type Deal = (seq<Card>, seq<Card>, nat) -> seq<Card>

  /** The outcome of each simulation of the pair (seq1, seq2), by simulation number. */
  function SimOutcomes(seq1: seq<Card>, seq2: seq<Card>, deal: Deal): nat -> Outcome
  {
    (sim: nat) => GameOutcome(deal(seq1, seq2, sim), seq1, seq2)
  }

  /** A counter over the first n simulations, bumped once per simulation whose outcome
      is o, first to last. */
  function Tally(outcomeOf: nat -> Outcome, n: nat, o: Outcome): (c: nat)
    ensures c <= n
  {
    if n == 0 then 0
    else Tally(outcomeOf, n - 1, o) + (if outcomeOf(n - 1) == o then 1 else 0)
  }

  /** The simulations among the first n whose outcome is o. */
  ghost function GamesEndingIn(outcomeOf: nat -> Outcome, n: nat, o: Outcome): set<nat>
  {
    set sim: nat | sim < n && outcomeOf(sim) == o
  }

  /** The counter counts exactly the simulations with that outcome. */
  lemma {:induction false} TallyCountsGames(outcomeOf: nat -> Outcome, n: nat, o: Outcome)
    ensures Tally(outcomeOf, n, o) == |GamesEndingIn(outcomeOf, n, o)|
  {
    if n > 0 {
      TallyCountsGames(outcomeOf, n - 1, o);
      var before := GamesEndingIn(outcomeOf, n - 1, o);
      if outcomeOf(n - 1) == o {
        assert GamesEndingIn(outcomeOf, n, o) == before + {n - 1};
      } else {
        assert GamesEndingIn(outcomeOf, n, o) == before;
      }
    }
  }

  /** A game is never both a player-2 win and a draw, so the two counters together do
      not exceed the number of simulations. */
  lemma {:induction false} WinsAndDrawsWithinSimulations(outcomeOf: nat -> Outcome, n: nat)
    ensures Tally(outcomeOf, n, Player2Wins) + Tally(outcomeOf, n, Draw) <= n
  {
    if n > 0 {
      WinsAndDrawsWithinSimulations(outcomeOf, n - 1);
    }
  }

  /** An outcome that no simulation has is counted 0 times. */
  lemma {:induction false} TallyOfAbsentOutcome(outcomeOf: nat -> Outcome, n: nat, o: Outcome)
    requires forall sim: nat :: sim < n ==> outcomeOf(sim) != o
    ensures Tally(outcomeOf, n, o) == 0
  {
    if n > 0 {
      TallyOfAbsentOutcome(outcomeOf, n - 1, o);
    }
  }

  /** On the diagonal no simulation is a player-2 win. */
  lemma DiagonalNoPlayer2Wins(s: seq<Card>, deal: Deal, n: nat)
    ensures Tally(SimOutcomes(s, s, deal), n, Player2Wins) == 0
  {
    forall sim: nat | sim < n
      ensures SimOutcomes(s, s, deal)(sim) != Player2Wins
    {
      SameSequenceNeverPlayer2(deal(s, s, sim), s);
    }
    TallyOfAbsentOutcome(SimOutcomes(s, s, deal), n, Player2Wins);
  }

  /** count / total * 100 as an exact rational. */
  function Percentage(count: nat, total: nat): real
    requires total > 0
  {
    count as real / total as real * 100.0
  }

  /** A count that does not exceed the total is a percentage in [0, 100]. */
  lemma PercentageRange(count: nat, total: nat)
    requires total > 0 && count <= total
    ensures 0.0 <= Percentage(count, total) <= 100.0
  {
    var q := count as real / total as real;
    assert q * total as real == count as real;
  }

  /** Percentages of counts add up like the counts. */
  lemma PercentageSum(a: nat, b: nat, total: nat)
    requires total > 0
    ensures Percentage(a, total) + Percentage(b, total) == Percentage(a + b, total)
  {
  }

  /** The percentage of the n simulations of (seq1, seq2) that ended with o. */
  function Share(seq1: seq<Card>, seq2: seq<Card>, deal: Deal, n: nat, o: Outcome): real
    requires n > 0
  {
    Percentage(Tally(SimOutcomes(seq1, seq2, deal), n, o), n)
  }

  /** The row for seq1 after the inner loop has filled in the seq2 values listed in
      seconds, one after the other. */
  function RowOver(seq1: seq<Card>, seconds: seq<seq<Card>>, deal: Deal, n: nat): Row
    requires n > 0
    decreases |seconds|
  {
    if seconds == [] then Row(map[], map[])
    else
      var row, seq2 := RowOver(seq1, seconds[..|seconds| - 1], deal, n), seconds[|seconds| - 1];
      Row(row.player2Wins[seq2 := Share(seq1, seq2, deal, n, Player2Wins)],
          row.draws[seq2 := Share(seq1, seq2, deal, n, Draw)])
  }

  /** The table after the outer loop has filled in the seq1 values listed in firsts,
      one after the other. */
  function TableOver(firsts: seq<seq<Card>>, sequences: seq<seq<Card>>, deal: Deal, n: nat): Table
    requires n > 0
    decreases |firsts|
  {
    if firsts == [] then map[]
    else
      var seq1 := firsts[|firsts| - 1];
      TableOver(firsts[..|firsts| - 1], sequences, deal, n)[seq1 := RowOver(seq1, sequences, deal, n)]
  }

  /** What compute_win_draw_percentages returns for the given sequences. */
  function Expected(sequences: seq<seq<Card>>, deal: Deal, n: nat): Result<Table>
  {
    if n == 0 then
      if sequences == [] then Success(map[]) else Failure(ZeroDivisionError)
    else Success(TableOver(sequences, sequences, deal, n))
  }

  /** A filled row has an entry for exactly the listed seq2 values, under both headings,
      each the share of the matching outcome. */
  lemma {:induction false} RowOverEntries(seq1: seq<Card>, seconds: seq<seq<Card>>, deal: Deal, n: nat)
    requires n > 0
    ensures var row := RowOver(seq1, seconds, deal, n);
      && (forall seq2 :: seq2 in row.player2Wins <==> seq2 in seconds)
      && (forall seq2 :: seq2 in row.draws <==> seq2 in seconds)
      && (forall seq2 :: seq2 in row.player2Wins ==> row.player2Wins[seq2] == Share(seq1, seq2, deal, n, Player2Wins))
      && (forall seq2 :: seq2 in row.draws ==> row.draws[seq2] == Share(seq1, seq2, deal, n, Draw))
    decreases |seconds|
  {
    if seconds != [] {
      var prefix := seconds[..|seconds| - 1];
      RowOverEntries(seq1, prefix, deal, n);
      assert seconds == prefix + [seconds[|seconds| - 1]];
    }
  }

  /** A filled table has a row for exactly the listed seq1 values, each the full row
      over all sequences. */
  lemma {:induction false} TableOverRows(firsts: seq<seq<Card>>, sequences: seq<seq<Card>>, deal: Deal, n: nat)
    requires n > 0
    ensures var t := TableOver(firsts, sequences, deal, n);
      && (forall seq1 :: seq1 in t <==> seq1 in firsts)
      && (forall seq1 :: seq1 in t ==> t[seq1] == RowOver(seq1, sequences, deal, n))
    decreases |firsts|
  {
    if firsts != [] {
      var prefix := firsts[..|firsts| - 1];
      TableOverRows(prefix, sequences, deal, n);
      assert firsts == prefix + [firsts[|firsts| - 1]];
    }
  }

  /** The two counters of one pair: how many of its n simulations player 2 won and how
      many were drawn. */
  method CountPair(seq1: seq<Card>, seq2: seq<Card>, deal: Deal, nSimulations: nat)
    returns (p2Wins: nat, draws: nat)
    ensures p2Wins == Tally(SimOutcomes(seq1, seq2, deal), nSimulations, Player2Wins)
    ensures draws == Tally(SimOutcomes(seq1, seq2, deal), nSimulations, Draw)
  {
    p2Wins, draws := 0, 0;
    for sim := 0 to nSimulations
      invariant p2Wins == Tally(SimOutcomes(seq1, seq2, deal), sim, Player2Wins)
      invariant draws == Tally(SimOutcomes(seq1, seq2, deal), sim, Draw)
    {
      var outcome := SimulateGame(deal(seq1, seq2, sim), seq1, seq2);
      if outcome == Player2Wins {
        p2Wins := p2Wins + 1;
      } else if outcome == Draw {
        draws := draws + 1;
      }
    }
  }

  /** compute_win_draw_percentages: for every ordered pair of sequences, the diagonal
      included, count player-2 wins and draws over n simulations and store each as a
      percentage of n. */
  method ComputeWinDrawPercentages(sequences: seq<seq<Card>>, deal: Deal, nSimulations: nat := 1000)
    returns (res: Result<Table>)
    ensures res == Expected(sequences, deal, nSimulations)
  {
    var results: Table := map[];
    for i := 0 to |sequences|
      invariant nSimulations > 0 ==> results == TableOver(sequences[..i], sequences, deal, nSimulations)
      invariant nSimulations == 0 ==> i == 0 && results == map[]
    {
      var seq1 := sequences[i];
      // the row for seq1 starts with both headings empty
      var row := Row(map[], map[]);
      for j := 0 to |sequences|
        invariant nSimulations == 0 ==> j == 0
        invariant nSimulations > 0 ==> row == RowOver(seq1, sequences[..j], deal, nSimulations)
      {
        var seq2 := sequences[j];
        var p2Wins, draws := CountPair(seq1, seq2, deal, nSimulations);
        if nSimulations == 0 {
          return Failure(ZeroDivisionError);
        }
        assert sequences[..j + 1][..j] == sequences[..j];
        row := Row(row.player2Wins[seq2 := Percentage(p2Wins, nSimulations)],
                   row.draws[seq2 := Percentage(draws, nSimulations)]);
      }
      assert sequences[..|sequences|] == sequences;
      assert sequences[..i + 1][..i] == sequences[..i];
      results := results[seq1 := row];
    }
    assert sequences[..|sequences|] == sequences;
    res := Success(results);
  }

  // ---------------------------------------------------------------------------
  // Properties of the results table
  // ---------------------------------------------------------------------------

  /** The two shares of one pair are percentages that add up to at most 100, and on
      the diagonal player 2's share is 0. */
  lemma ShareBounds(seq1: seq<Card>, seq2: seq<Card>, deal: Deal, n: nat)
    requires n > 0
    ensures var wins, draws := Share(seq1, seq2, deal, n, Player2Wins), Share(seq1, seq2, deal, n, Draw);
      && 0.0 <= wins <= 100.0
      && 0.0 <= draws <= 100.0
      && wins + draws <= 100.0
      && (seq1 == seq2 ==> wins == 0.0)
  {
    var outcomeOf := SimOutcomes(seq1, seq2, deal);
    var wins, draws := Tally(outcomeOf, n, Player2Wins), Tally(outcomeOf, n, Draw);
    WinsAndDrawsWithinSimulations(outcomeOf, n);
    PercentageRange(wins, n);
    PercentageRange(draws, n);
    PercentageSum(wins, draws, n);
    PercentageRange(wins + draws, n);
    if seq1 == seq2 {
      DiagonalNoPlayer2Wins(seq1, deal, n);
    }
  }

  /** Every pair of listed sequences, the diagonal included, has an entry under both
      headings; each entry is a percentage, player-2 wins and draws together are at most
      100, and on the diagonal player 2 wins 0 percent. */
  lemma TableEntries(sequences: seq<seq<Card>>, deal: Deal, n: nat, seq1: seq<Card>, seq2: seq<Card>)
    requires n > 0
    requires seq1 in sequences && seq2 in sequences
    ensures Expected(sequences, deal, n).Success?
    ensures var t := Expected(sequences, deal, n).value;
      && seq1 in t && seq2 in t[seq1].player2Wins && seq2 in t[seq1].draws
      && 0.0 <= t[seq1].player2Wins[seq2] <= 100.0
      && 0.0 <= t[seq1].draws[seq2] <= 100.0
      && t[seq1].player2Wins[seq2] + t[seq1].draws[seq2] <= 100.0
      && (seq1 == seq2 ==> t[seq1].player2Wins[seq2] == 0.0)
  {
    TableOverRows(sequences, sequences, deal, n);
    RowOverEntries(seq1, sequences, deal, n);
    ShareBounds(seq1, seq2, deal, n);
  }

  /** Run over the eight three-card sequences, the table has a row for every
      three-card seq1 with an entry for every three-card seq2. */
  lemma FullGrid(deal: Deal, n: nat, seq1: seq<Card>, seq2: seq<Card>)
    requires n > 0
    requires |seq1| == 3 && |seq2| == 3
    ensures Expected(AllSequences(), deal, n).Success?
    ensures var t := Expected(AllSequences(), deal, n).value;
      seq1 in t && seq2 in t[seq1].player2Wins && seq2 in t[seq1].draws
  {
    ThreeCardSequenceListed(seq1);
    ThreeCardSequenceListed(seq2);
    TableOverRows(AllSequences(), AllSequences(), deal, n);
    RowOverEntries(seq1, AllSequences(), deal, n);
  }
}
