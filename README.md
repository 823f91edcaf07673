# Penney's Game simulation engine, modelled in Dafny

This project models the core of a Monte Carlo estimator for Penney's Game. Two
players each watch for a sequence of binary cards in a shuffled deck, and a player
takes a trick when the latest cards on the table match their sequence. The model
covers three pieces:

- **The game simulator** (`simulate_game`, module `Processing`). It slides every
  card into a window of at most three table cards. When the window equals `seq1`,
  player 1 takes a trick and the window empties. Otherwise, when it equals `seq2`,
  player 2 does. At the end it reports `Player1Wins`, `Player2Wins` or `Draw`.
- **The matchup aggregator** (`compute_win_draw_percentages`, module `Processing`).
  For every ordered pair of sequences, the diagonal included, it counts player-2
  wins and draws over `n_simulations` games. It stores each count as a percentage
  in a nested table `seq1 -> {player2Wins, draws} -> seq2 -> percent`.
- **The deck generator** (`Decking.gen_decks`, module `Datagen`). It builds the
  unshuffled deck (h zeros, then h ones), deals `n_decks` copies and shuffles each
  one in place. On the first round it discards the stored decks; on later rounds
  it appends after them. It returns the whole store and counts the round.

Files:

- `cards.dfy` holds the shared `Card` type (0 or 1) and the eight three-card
  sequences.
- `processing.dfy` holds the simulator, the aggregator and their lemmas.
- `datagen.dfy` holds the `Decking` class and the lemmas about deck composition.

The simulator is a `method` with a loop over the deck. It mutates the window and
the two trick counters, as the source does. It is proved equal to the
specification function `Play`, a left fold of `Step` over the deck, and to
`GameOutcome`. All the game lemmas are stated about `Play`.

The aggregator is a `method` with three nested loops. It is proved equal to
`Expected`, which is built from:

- `Tally`, a counter over simulation numbers;
- `Share`, the percentage of one count;
- `RowOver` and `TableOver`, the row and the table the loops fill.

Percentages are exact rationals (`real`).

`Decking` is a `class` with the fields `seed`, `generator`, `drawn`, `rounds` and
`stored`:

- `stored` stands for the `deck_storage.npy` file.
- `generator` stands for the number stream that `default_rng(seed)` produces.
- `drawn` stands for how far the generator has advanced.
- Each deck is an `array` that `Permute` shuffles in place.

### Behaviour of the code worth knowing

- The loops have no skip, so the table includes the diagonal `seq1 == seq2`. There
  `seq1` always takes precedence, and player 2 wins 0 percent (`DiagonalNoPlayer2Wins`).
- Only tricks are scored; nothing counts the cards a player collects.
- Deck `000111000` with seq1 `000` and seq2 `111` gives 2 tricks to 1: `111` matches
  after the sixth card (`WorkedExample`).
- Only `n_simulations == 0` with a non-empty sequence list raises `ZeroDivisionError`.
  The model returns `Failure(ZeroDivisionError)` in exactly that case.
- Each simulation plays a deck fetched for a freshly drawn seed; seeds may repeat.
  The model takes that supply as a function `deal(seq1, seq2, sim)`.
- The defaults `seed=9903`, `half_deck_size=HALF_DECK_SIZE` and `n_simulations=1000`
  are default parameter values of the constructor, `GenDecks` and
  `ComputeWinDrawPercentages`.

## Model

| member | source | states |
|---|---|---|
| `Cards.AllSequences` | src/visualization.py:8-9 | the sequence list is eight distinct sequences, each three cards long |
| `Cards.ThreeCardSequenceListed` | src/visualization.py:8-9 | every three-card binary sequence is in the list, so the 8x8 grid covers all pairs |
| `Processing.SimulateGame` | src/processing.py:7-31 | the window-and-counter loop returns exactly `GameOutcome(deck, seq1, seq2)`, the outcome of the left fold `Play` of the per-card step |
| `Processing.Decide` | src/processing.py:26-31 | the result is 'Player 1 wins' iff p1 > p2, 'Player 2 wins' iff p2 > p1, and 'Draw' iff they are equal |
| `Processing.StepWindowCases` | src/processing.py:15-24 | after one card the window is either empty (a trick) or the old window with the card appended and the oldest dropped |
| `Processing.SlideKeepsSuffix` | src/processing.py:15-17 | appending a card and dropping the oldest beyond three keeps the window a run of at most three latest deck cards |
| `Processing.WindowIsShortSuffix` | src/processing.py:14-24 | after every card the window holds at most 3 cards, and they are the latest cards of the deck in order |
| `Processing.LastResetOfPrefix` | src/processing.py:19-24 | if the last trick came before the last card, it is the last trick of the shorter deck too, and the table is not empty at the end |
| `Processing.SlideRecent` | src/processing.py:15-17 | sliding the next card into the recent cards since a trick gives the recent cards of the longer deck |
| `Processing.WindowHoldsCardsSinceLastTrick` | src/processing.py:14-24 | the window is exactly the cards laid down since the last trick, or the latest three of them |
| `Processing.ScoringOnNextCard` | src/processing.py:19-24 | on the next card player 1 scores iff the cards since the last trick equal seq1; player 2 scores iff they equal seq2 and not seq1; a trick empties the table |
| `Processing.SameSequenceNeverPlayer2` | src/processing.py:19-31 | seq1 takes precedence: with seq1 == seq2 player 2 takes no trick and the result is never 'Player 2 wins' |
| `Processing.TricksUseThreeCards` | src/processing.py:14-24 | with sequences of three or more cards, 3 * (p1 + p2) + the cards on the table is at most the deck length |
| `Processing.TrickBound` | src/processing.py:14-24 | p1_tricks + p2_tricks <= len(deck) / 3 |
| `Processing.ShortDeckIsDraw` | src/processing.py:14-31 | a deck of fewer than 3 cards is always a 'Draw' |
| `Processing.LastResetExists` | src/processing.py:14-24 | every deck has a last trick point (the last card after which the table was empty, or the start), so the two lemmas above apply to every deck |
| `Processing.WorkedExample` | src/processing.py:14-31 | deck 000111000 with seq1 000 and seq2 111 ends with p1 = 2, p2 = 1, an empty table, and 'Player 1 wins' |
| `Processing.Tally` | src/processing.py:46-56 | a counter bumped at most once per simulation never exceeds the number of simulations |
| `Processing.TallyCountsGames` | src/processing.py:48-56 | the counter equals the number of simulations whose outcome is the counted one |
| `Processing.WinsAndDrawsWithinSimulations` | src/processing.py:46-56 | p2_wins + draws <= n_simulations |
| `Processing.TallyOfAbsentOutcome` | src/processing.py:48-56 | an outcome no simulation has is counted 0 times |
| `Processing.DiagonalNoPlayer2Wins` | src/processing.py:42-56 | for the pair (s, s), which the loops do not skip, p2_wins stays 0 |
| `Processing.PercentageRange` | src/processing.py:58-59 | count / n * 100 lies in [0, 100] when count <= n |
| `Processing.PercentageSum` | src/processing.py:58-59 | the percentages of two counts add up to the percentage of their sum |
| `Processing.CountPair` | src/processing.py:46-56 | the innermost loop returns the number of 'Player 2 wins' and 'Draw' outcomes among the pair's n simulations; the counters restart at 0 for each pair |
| `Processing.ComputeWinDrawPercentages` | src/processing.py:35-61 | the result is `Failure(ZeroDivisionError)` iff n_simulations == 0 and there is a sequence; otherwise it is the table `Expected` describes, filled row by row |
| `Processing.RowOverEntries` | src/processing.py:45-59 | a filled row has an entry under both 'Player 2 Wins' and 'Draws' for exactly the listed seq2 values, each the percentage of its counter |
| `Processing.TableOverRows` | src/processing.py:42-45 | the table has a row for exactly the listed seq1 values, each filled over all sequences |
| `Processing.ShareBounds` | src/processing.py:46-59 | both percentages of a pair lie in [0, 100], they sum to at most 100, and on the diagonal player 2's is 0 |
| `Processing.TableEntries` | src/processing.py:42-59 | with n_simulations > 0, every ordered pair of listed sequences, diagonal included, has both entries; each is a percentage, the two sum to at most 100, and the diagonal player-2 entry is 0 |
| `Processing.FullGrid` | src/processing.py:40-45 | run over the eight sequences, the table has both entries for every pair of three-card sequences |
| `Datagen.Repeat` | src/datagen.py:30 | `[c] * n` has n cards, each c, so c occurs n times |
| `Datagen.InitDeckComposition` | src/datagen.py:30 | the unshuffled deck has 2h cards: h zeros first, then h ones |
| `Datagen.ShuffledDeckComposition` | src/datagen.py:30-32 | a deck is a reordering of the unshuffled deck iff it has 2h cards, h of them 0 and h of them 1 |
| `Datagen.StandardDeck` | src/datagen.py:7-8 | with HALF_DECK_SIZE a shuffled deck has DECK_SIZE = 52 cards, 26 of each value |
| `Datagen.Decking.constructor` | src/datagen.py:12-15 | a new Decking keeps the given seed and its generator, has drawn nothing, and has rounds == 0 |
| `Datagen.Decking.Permute` | src/datagen.py:32 | shuffling one deck in place leaves it a reordering of itself and only advances the generator |
| `Datagen.Decking.GenDecks` | src/datagen.py:19-54 | rounds goes up by exactly 1 and seed is a constant. The store becomes the new batch on the first round, and the old store followed by the batch on later rounds. The batch holds exactly n_decks decks, each a reordering of the unshuffled deck. The return value is the whole store |

## Left out

- Plotting, the CLI front ends and the JSON result file. Their values stay in the
  rendering and I/O layer.
- `generate_sequences` is not part of this model. `Cards.AllSequences` stands in for
  it, in binary counting order, since the heatmap is an 8x8 grid. The aggregator
  takes the sequence list as a parameter.
- `random.randint` seeding and `get_decks` are replaced by the parameter `deal`.
  It gives the deck of each simulation as a function of the pair and the simulation
  number. So a pair that appears twice in the list gets the same decks both times.
- `debugger_factory` is treated as the identity.
- Floating point: percentages are exact rationals, and rounding is not modelled.
- Processing.ComputeWinDrawPercentages: `n_simulations` is a natural number. For a
  negative count the source runs no simulations and stores `-0.0` for every entry
  without an error; that case is not modelled.
- Processing.ComputeWinDrawPercentages: each row is built in a local value and then
  stored. The source writes into `results[seq1]` in place; the final table is the same.
- numpy's random generator: the stream that `default_rng(seed)` produces is the
  constructor parameter `generator`. Saving `bit_generator.state` to `state.json` is
  not modelled.
- Datagen.Decking.Permute: a Fisher-Yates pass over the generator's numbers stands in
  for `rng.permuted`. Its contract says only that the result is a reordering, not
  which one.
- Datagen.Decking.GenDecks: says that each new deck is some reordering of the
  unshuffled deck, not which one. So it does not state that two runs with one seed
  give identical decks.
- Datagen.Decking.GenDecks: the `.npy` storage file is the field `stored`.
  `os.makedirs`, `np.load`, `np.save` and `os.remove` become assignments to it. Every
  `Decking` in one working directory shares the file `files/deck_storage.npy`, so a
  second object's first round deletes and rewrites it, and the first object's next
  round then appends to the second object's decks. The model gives each object its
  own `stored`, so this sharing, and a file deleted by another process, are not modelled.
- Datagen.Decking.GenDecks: `n_decks` is a natural number. numpy rejects a negative
  count, and that error is not modelled. A negative `half_deck_size` gives empty
  decks, as `[0] * h` does.
- Datagen.Decking.GenDecks: `np.vstack` rejects decks of a different width from
  earlier rounds. The model's store holds sequences of any length, so that error is
  not modelled.
- Scoring by cards collected: the code has none.
