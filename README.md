# Ninety-Nine and Connect Four, modelled in Dafny

This project models the game logic of the NinetyNine repository.

- **Ninety-Nine.** The rules of the three-player trick-taking card game:
  - the card order and the deck;
  - the deal after the shuffle;
  - bidding, follow-suit legality and trick winners with trumps;
  - `make_card_play` and `finish_trick`;
  - bid values and final scores with the 30/20/10 bonus.
- **Console helpers.** The card text of the console game:
  - the two-character card parser and the letters cards are shown with;
  - the descending sort;
  - the random bid and the typed bid.
- **Three Monte Carlo tree searches.** One plays Ninety-Nine, one plays the `connect_four` package, and one plays the experimental board.
- **The `connect_four` game state.** A board matrix with a height per column, and a run-length win check from the last move.
- **The two experimental Connect Four boards.** `experiments/connect_four.py` (numbered players) and `experiments/connectFour.py` (letters `X`/`O`). Both drop a piece into a copy of the board and scan fixed windows for four in a row.

Modules, one per source file, plus shared modules:

- `Wrappers`: `Option`, `Result` with `:-` propagation, and a set-to-sequence method.
- `Cards`: the constants module's suits and ranks, `Card`, and `Card.__lt__`.
- `NinetyNineState` (`ninety_nine_state.py`):
  - `Player` is a class whose methods update its fields, as in the source;
  - the game state is a datatype, because `make_card_play` and `finish_trick` work on copies.
- `HumanAiMainGame` (`ninety_nine/human_ai_main_game.py`).
- `SearchTree`: the node record shared by the three searches.
  - The tree is an arena: a sequence of nodes linked by integer parent and child indices, with every parent before its children.
  - It also holds the generic `add_children` and `back_propagate` and the lemmas about them.
- `NinetyNineSearch`, `ConnectFourSearch` and `ExpSearch`: the three searches.
  - Each is a class whose fields (root state, arena, root index) the methods reassign.
  - In the Connect Four searches a ghost sequence ties every node to the game state its moves lead to.
  - In the Ninety-Nine search a ghost predicate, `ReachedAlong`, states that the state carried down to a node is the root state with the cards of the nodes on the way played in turn, each after finishing a full trick.
- `ConnectFourState` (`connect_four/connect_four_state.py`): the class `ConnectState` with its board, heights, player to move and last cell played.
- `FourInARow`: the board code shared by the two experimental files, generic in the cell type. It holds:
  - `create_board`/`newBoard`;
  - the drop of `make_move_to_board`/`makeMove`;
  - the window scans of `has_won`/`hasWon`;
  - `is_a_draw`/`isADraw`.
- `ExpConnectFour` (`experiments/connect_four.py`): cells are the blank `"_"` or a player number.
- `LetterConnectFour` (`experiments/connectFour.py`): cells are characters. The examples of the file's tests are stated as lemmas.

Random choices (`random.choice`, `np.random.choice`, the shuffle) become a nondeterministic pick `:|` among the candidates the source allows, or an argument supplied by the caller.

The UCT/UCB formula is a function parameter of each search. Only its zero-visit branch is spelled out.

The searches' time budget is a number of rounds.

## Model

| member | source | states |
|---|---|---|
| Cards.Suit.Value | ninety_nine/constants.py:23-28 | the suit values are 0..3 (diamonds, spades, hearts, clubs); `Cards.SuitValueInjective` shows no two suits share one |
| Cards.Rank.Value | ninety_nine/constants.py:30-39 | the rank values are 0..8 from six to ace; `Cards.RankValueInjective` shows no two ranks share one |
| Cards.SuitValueInjective | ninety_nine/constants.py:23-28 | different suits have different values |
| Cards.RankValueInjective | ninety_nine/constants.py:30-39 | different ranks have different values |
| Cards.Key | ninety_nine/ninety_nine_state.py:15-19 | every card has a position below 36 in the (suit, rank) order |
| Cards.LessIsKeyOrder | ninety_nine/ninety_nine_state.py:15-19 | `__lt__` holds exactly when the card comes first lexicographically on (suit, rank) |
| Cards.KeyInjective | ninety_nine/ninety_nine_state.py:21-24 | cards with the same rank and suit are the same card, as `__eq__` and `__hash__` say |
| Cards.LessIsStrictTotalOrder | ninety_nine/ninety_nine_state.py:15-19 | `__lt__` is irreflexive, asymmetric, transitive and total on distinct cards |
| Cards.AllCards | ninety_nine/ninety_nine_state.py:152-154 | a card is produced exactly when its suit and rank are among those given |
| Cards.FullDeck | ninety_nine/ninety_nine_state.py:152-154 | with the default arguments every one of the 36 cards is produced |
| NinetyNineState.BidMadeKeepsCards | ninety_nine/ninety_nine_state.py:46-49 | a bid splits the hand into a new hand and the bid, disjoint and losing no card; 12 cards less a bid of 3 leave 9; the stage becomes playing |
| NinetyNineState.CardPlayed | ninety_nine/ninety_nine_state.py:51-57 | playing a card fails exactly when it is not in the hand; otherwise only that card leaves, and the stage becomes done once the hand is empty |
| NinetyNineState.Player.constructor | ninety_nine/ninety_nine_state.py:38-44 | a new player holds the given hand, no bid and no tricks, and is bidding |
| NinetyNineState.Player.MakeBid | ninety_nine/ninety_nine_state.py:46-49 | the fields become what `BidMade` describes, whose properties `BidMadeKeepsCards` proves |
| NinetyNineState.Player.PlayCard | ninety_nine/ninety_nine_state.py:51-57 | KeyError exactly for a card not in the hand, and then nothing changes; otherwise the fields become `CardPlayed`'s result |
| NinetyNineState.Player.Copy | ninety_nine/ninety_nine_state.py:59-65 | a fresh player with equal fields |
| NinetyNineState.LegalCardPlays | ninety_nine/ninety_nine_state.py:164-187 | succeeds exactly for a player at the table whose turn it is and who leads or whose leader has played to the trick, KeyError otherwise; the leader may play the whole hand; otherwise exactly the cards of the led suit when there are any, else the whole hand; always a subset of the hand |
| NinetyNineState.CardPlay | ninety_nine/ninety_nine_state.py:215-237 | ValueError on a full trick; succeeds exactly for the player to move holding the card; the card leaves that hand and sits in the trick under the player; the mover's stage becomes done once the hand is empty; no other player or field changes; the next player is (p+1) mod 3, or none once the trick is full |
| NinetyNineState.LegalCardIsPlayable | ninety_nine/ninety_nine_state.py:164-237 | every legal card is accepted by `make_card_play` while the trick is not full, and then lies in the trick |
| NinetyNineState.TrickWinnerUnique | ninety_nine/ninety_nine_state.py:189-213 | when no card repeats, at most one player wins the trick |
| NinetyNineState.TrickWinner | ninety_nine/ninety_nine_state.py:189-213 | fails exactly when the lead player has not played; otherwise returns a player of the trick holding the highest trump if a trump (six included) was played, else the highest card of the led suit |
| NinetyNineState.FinishedWithState | ninety_nine/ninety_nine_state.py:239-261 | the winner gains exactly one trick and nobody else changes; the trump is kept; hands are kept; the trick joins the history and a new empty trick starts; the hand is over exactly when every hand is empty; lead and next player become the winner, or none when the hand is over |
| NinetyNineState.FinishTrick | ninety_nine/ninety_nine_state.py:239-261 | fails unless the trick is full; succeeds on a full trick whose leader played; the result is the state finished with a winner of the trick |
| NinetyNineState.SuitTotalAdd | ninety_nine/ninety_nine_state.py:263-268 | adding a card to a bid adds its suit value to the bid total |
| NinetyNineState.BidValue | ninety_nine/ninety_nine_state.py:263-268 | the loop's sum over the set is the bid total, whatever the iteration order |
| NinetyNineState.TwoClubsBidSix | ninety_nine/ninety_nine_state.py:263-268 | the six and ace of clubs bid six tricks |
| NinetyNineState.BidMakers | ninety_nine/ninety_nine_state.py:285-289 | exactly the players who won as many tricks as they bid |
| NinetyNineState.Scores | ninety_nine/ninety_nine_state.py:279-304 | succeeds exactly when the game is over; each player scores the tricks won, plus the shared bonus only if that player made the bid |
| NinetyNineState.BidMakersCount | ninety_nine/ninety_nine_state.py:285-289 | the number of bid makers is the count of players who made their bid |
| NinetyNineState.ScoresBonus | ninety_nine/ninety_nine_state.py:291-302 | with three players the bonus is 30, 20 or 10 for one, two or three bid makers; the others score their tricks only |
| NinetyNineState.ThreeHands | ninety_nine/ninety_nine_state.py:137-150 | succeeds exactly when the deck divides into threes; the three hands are the cards dealt to them in turn from the top |
| NinetyNineState.DealtCoversDeck | ninety_nine/ninety_nine_state.py:137-150 | between them the three hands hold every card of the deck |
| NinetyNineState.DealtDisjoint | ninety_nine/ninety_nine_state.py:137-150 | from a deck without repeats no card reaches two hands |
| NinetyNineState.DealtLastRound | ninety_nine/ninety_nine_state.py:145-148 | each round of three pops hands 0, 1 and 2 from the end of the deck |
| NinetyNineState.DealtRound | ninety_nine/ninety_nine_state.py:145-148 | from a deck without repeats, the last round gives each hand exactly one card it did not already hold |
| NinetyNineState.DealtSize | ninety_nine/ninety_nine_state.py:137-150 | each hand gets a third of a deck without repeats |
| NinetyNineState.FullDeckDealsTwelve | ninety_nine/ninety_nine_state.py:90-103 | the 36-card deck deals three hands of twelve |
| NinetyNineState.NewGame | ninety_nine/ninety_nine_state.py:90-103 | three players holding the dealt hands, with no bid, no trick and the bidding stage; player 0 leads and is to play; the drawn trump; an empty trick and history |
| NinetyNineState.NewGameOpening | ninety_nine/ninety_nine_state.py:90-103 | in a new game player 0 may play any card of the hand and every such play is accepted; any other player is refused; the hand is over only when no card was dealt |
| NinetyNineState.IsFullCount | ninety_nine/ninety_nine_state.py:156-161 | when only players 0, 1 and 2 have played, a trick is full exactly when it holds three cards |
| HumanAiMainGame.Upper | ninety_nine/human_ai_main_game.py:135 | ASCII lower-case letters become upper case; every other character is kept |
| HumanAiMainGame.RankLetters | ninety_nine/human_ai_main_game.py:136-156 | a rank character is accepted exactly when it is the letter `print_rank` shows for that rank |
| HumanAiMainGame.SuitLetters | ninety_nine/human_ai_main_game.py:158-168 | a suit character is accepted exactly when it is the letter `print_suit` shows for that suit |
| HumanAiMainGame.ParseCard | ninety_nine/human_ai_main_game.py:133-171 | IndexError for a string too short to name a card; ValueError "Not a valid rank" or "Not a valid suit" for a bad first or second character; success exactly when both name a rank and a suit, in either case; characters after the second are ignored |
| HumanAiMainGame.ParseShownCard | ninety_nine/human_ai_main_game.py:178-213 | reading the letters a card is shown with gives back that card, whatever follows |
| HumanAiMainGame.TenOfHearts | ninety_nine/human_ai_main_game.py:133-171 | "TH" and "th" are the ten of hearts |
| HumanAiMainGame.MaxCardExists | ninety_nine/human_ai_main_game.py:222-226 | a non-empty set of cards has a greatest card in the card order |
| HumanAiMainGame.GreatestCard | ninety_nine/human_ai_main_game.py:222-226 | returns a card of the set that every other card of the set comes before |
| HumanAiMainGame.GetSortedCards | ninety_nine/human_ai_main_game.py:222-226 | strictly descending in the card order, holding exactly the cards of the set, each once |
| HumanAiMainGame.DescendingHead | ninety_nine/human_ai_main_game.py:222-226 | the head of a descending list is its greatest card and does not recur |
| HumanAiMainGame.DescendingUnique | ninety_nine/human_ai_main_game.py:222-226 | two descending lists with the same cards are equal, so the sort result is determined by the set |
| HumanAiMainGame.GetRandomBid | ninety_nine/human_ai_main_game.py:126-131 | succeeds exactly when the hand holds at least three cards; moves exactly three cards from the hand to the bid, keeping the union; on an empty hand IndexError after every card has moved |
| HumanAiMainGame.MovedCards | ninety_nine/human_ai_main_game.py:102-124 | moving the cards not kept from the hand to the bid keeps the union and adds their number to a disjoint bid |
| HumanAiMainGame.HumanBidMovesCards | ninety_nine/human_ai_main_game.py:102-124 | reading a typed bid keeps every card in the hand or the bid and only moves cards out of the hand; once it finishes the bid holds three cards |
| HumanAiMainGame.CardNotInHandSkipped | ninety_nine/human_ai_main_game.py:117-120 | a typed card not in the hand changes nothing, and the bid goes on with the next line |
| HumanAiMainGame.GetHumanBid | ninety_nine/human_ai_main_game.py:102-124 | the loop leaves the player as `HumanBid` over the typed lines says, and returns its outcome |
| HumanAiMainGame.AllCardsPlayed | ninety_nine/human_ai_main_game.py:72-77 | true exactly when every hand is empty |
| HumanAiMainGame.GameOverWhenAllPlayed | ninety_nine/ninety_nine_state.py:270-277 | with the trick empty, the hand is over exactly when every player's hand is empty |
| SearchTree.Fresh | connect_four/monte_carlo_tree_search.py:11-17 | a new node has no visits, zero statistics, no children, and the given move and parent |
| SearchTree.PropagateAt | connect_four/monte_carlo_tree_search.py:39-50 | back-propagation gives exactly the nodes on the parent chain from the start one more visit and their credit for the distance; every other node is unchanged |
| SearchTree.PropagateKeepsTree | connect_four/monte_carlo_tree_search.py:39-50 | back-propagation keeps parents, moves and children, and that no node has more visits than its parent |
| SearchTree.PropagateReachesTop | ninety_nine/monte_carlo_tree_search.py:70-82 | a node on the way up from the leaf, such as the root, gains exactly one visit |
| SearchTree.AddChildrenSpec | connect_four/monte_carlo_tree_search.py:19-21 | one fresh child per move, in order, entered under its move; a later child with the same move replaces an earlier one |
| SearchTree.AddChildrenKeepsTree | connect_four/monte_carlo_tree_search.py:19-21 | adding children keeps the arena a tree, parents before children, with no node visited more than its parent |
| SearchTree.AddTopKeepsTree | connect_four/monte_carlo_tree_search.py:122-123 | a fresh parentless node added to the arena keeps it a tree |
| SearchTree.SingleNodeTree | connect_four/monte_carlo_tree_search.py:64-69 | a single fresh node is a tree |
| SearchTree.MaxScoreAmong | connect_four/monte_carlo_tree_search.py:76-78 | among non-empty candidates one has a score no other beats |
| SearchTree.MaxVisitsAmong | connect_four/monte_carlo_tree_search.py:110-113 | among non-empty candidates one has the most visits |
| SearchTree.UnvisitedPreferred | connect_four/monte_carlo_tree_search.py:76-84 | when unvisited nodes score infinity, a best child is found unvisited whenever there is an unvisited child |
| SearchTree.ExpandedSpec | ninety_nine/monte_carlo_tree_search.py:90-94 | children added for a set of moves, in any order, give exactly one fresh child per move with the expanded node as parent, and leave every other node as it was |
| SearchTree.ExpandedKeepsPath | ninety_nine/monte_carlo_tree_search.py:90-94 | expanding keeps every node reached from the root reached from it |
| SearchTree.ChildrenAdded | connect_four/monte_carlo_tree_search.py:53-60 | adding children for a list of moves keeps parents before children and the node reached from the root, gives every move a child, and changes no old node but for the children of the node |
| SearchTree.KeptButChildren | connect_four/monte_carlo_tree_search.py:53-60 | when only the children of one node change, every old node keeps its visits, statistics and parent |
| SearchTree.ChildScores | connect_four/monte_carlo_tree_search.py:76-78 | one score for each child of the node, under the child's move |
| SearchTree.BestChild | connect_four/monte_carlo_tree_search.py:76-80 | the move of a child whose score no other child of the node beats |
| SearchTree.BestAlongChild | connect_four/monte_carlo_tree_search.py:75-81 | a child of maximal value below a node reached from the root through children of maximal value is reached the same way |
| SearchTree.ScoresKept | connect_four/monte_carlo_tree_search.py:76-78 | the scores of a node's children stay as they were when only another node changes and keeps its value |
| SearchTree.BestAlongKept | connect_four/monte_carlo_tree_search.py:84-88 | a node reached through children of maximal value is still reached so after a change to it or a later node that keeps that node's parent, move and value |
| NinetyNineSearch.NewNode | ninety_nine/monte_carlo_tree_search.py:26-36 | a new node has no visits, a zero made-bid total for each of players 0, 1 and 2, and no children |
| NinetyNineSearch.ValueInfinite | ninety_nine/monte_carlo_tree_search.py:42-51 | the value is infinity exactly for an unvisited node when exploring; an unvisited node without exploration is worth 0 |
| NinetyNineSearch.ValueReadsPlayerZero | ninety_nine/monte_carlo_tree_search.py:46-48 | the value reads player 0's made-bid total only: nodes differing in players 1 and 2 are worth the same |
| NinetyNineSearch.CreditAt | ninety_nine/monte_carlo_tree_search.py:71-80 | player p's total gains 1 exactly when p scored more than 9 |
| NinetyNineSearch.BackPropagated | ninety_nine/monte_carlo_tree_search.py:70-82 | every node on the parent chain from the leaf gains one visit, and one count for each player who scored more than 9; every other node is unchanged |
| NinetyNineSearch.Settle | ninety_nine/monte_carlo_tree_search.py:85-86 | a state whose trick is not full is kept; a full trick is finished with a winner of the trick, which cannot fail when its leader played and every card comes from a player at the table |
| NinetyNineSearch.SettleAndTry | ninety_nine/monte_carlo_tree_search.py:121-125 | the trick is settled and the card is playable on the result, which is returned without the card |
| NinetyNineSearch.CardsLeftUpdate | ninety_nine/monte_carlo_tree_search.py:53-64 | replacing one player changes the number of cards in hand by the difference of the two hands, the measure that makes a roll-out end |
| NinetyNineSearch.CardsLeftSameHands | ninety_nine/monte_carlo_tree_search.py:57 | players with the same hands hold the same number of cards |
| NinetyNineSearch.ContinuesByPlay | ninety_nine/monte_carlo_tree_search.py:64 | a card play keeps the trump, players, bids and history, takes no trick away, and removes exactly one card from the hands |
| NinetyNineSearch.ContinuesByFinish | ninety_nine/monte_carlo_tree_search.py:57 | finishing a trick keeps the trump, players, bids and every hand, extends the history and takes no trick away |
| NinetyNineSearch.RollOut | ninety_nine/monte_carlo_tree_search.py:53-67 | the final state continues the starting hand (same trump, players and bids, the history extended, no card gained, no trick lost); a result is the scores of a finished hand; a finished hand is scored as it is; errors of finish_trick, get_legal_card_plays, the empty choice and make_card_play are propagated |
| NinetyNineSearch.SettleAndPlay | ninety_nine/monte_carlo_tree_search.py:114-116 | the state returned is the given one with a full trick finished and the card then played by the player to move |
| NinetyNineSearch.ReachedChild | ninety_nine/monte_carlo_tree_search.py:108-116 | one step of the descent: playing a child's card on the state of its parent gives the state the child is reached with |
| NinetyNineSearch.ReachedAlongSame | ninety_nine/monte_carlo_tree_search.py:90-94 | the state a node is reached with depends only on the parents and cards on its way, which an expansion keeps |
| NinetyNineSearch.ExpandedChildren | ninety_nine/monte_carlo_tree_search.py:84-97 | expanding a childless node changes no old node but for its children, keeps every old node's visits, totals and parent, and every new child is unvisited and reached from the root |
| NinetyNineSearch.NinetyNineMCST.constructor | ninety_nine/monte_carlo_tree_search.py:100-102 | a single fresh root over the given state |
| NinetyNineSearch.NinetyNineMCST.UnvisitedChildFirst | ninety_nine/monte_carlo_tree_search.py:108-119 | when exploring, the child of maximal value is unvisited whenever some child is unvisited |
| NinetyNineSearch.NinetyNineMCST.BackPropagate | ninety_nine/monte_carlo_tree_search.py:70-82 | the loop leaves the arena as `Propagate` with the made-bid credit, which `BackPropagated` describes |
| NinetyNineSearch.NinetyNineMCST.AddChildNodes | ninety_nine/monte_carlo_tree_search.py:38-40 | the children are entered one after another, as `AddChildren` (see `SearchTree.AddChildrenSpec`) |
| NinetyNineSearch.NinetyNineMCST.Expand | ninety_nine/monte_carlo_tree_search.py:84-97 | a full trick is finished first; succeeds with false and no new node when the hand is over; otherwise true after adding exactly one fresh child per legal card of the player to move; fails only when the trick cannot be finished or the player to move may not play |
| NinetyNineSearch.NinetyNineMCST.ChildValueOfCounts | ninety_nine/monte_carlo_tree_search.py:42-50 | a child's value depends on its visits and made-bid totals, not on its children |
| NinetyNineSearch.NinetyNineMCST.Descend | ninety_nine/monte_carlo_tree_search.py:104-119 | ends at a node reached from the root through children of maximal value among their siblings, with exactly the state its way down makes (each card played after finishing a full trick), that is either unvisited or has no children |
| NinetyNineSearch.NinetyNineMCST.Grow | ninety_nine/monte_carlo_tree_search.py:121-127 | expanding the childless node changes no old node but for its children, and keeps every old node's visits, totals, parent and card; returns the node with its state, or a fresh child of it with the state settled so that the child's card can be played on it |
| NinetyNineSearch.NinetyNineMCST.GrownKeepsBest | ninety_nine/monte_carlo_tree_search.py:121-127 | expanding the node where the descent ended, which changes no visits or counts, keeps it reached from the root through children of maximal value |
| NinetyNineSearch.NinetyNineMCST.SelectNode | ninety_nine/monte_carlo_tree_search.py:104-127 | keeps every old node's visits, totals and parent; returns a node reached from the root that is unvisited or childless, which, or else its parent, is reached through children of maximal value, with the state its way down makes, or for a freshly expanded child the parent's state with a full trick finished |
| NinetyNineSearch.NinetyNineMCST.BestMove | ninety_nine/monte_carlo_tree_search.py:139-147 | an error when the game is over or the root has no children; otherwise the card of a root child with the most visits |
| NinetyNineSearch.NinetyNineMCST.PlayCard | ninety_nine/monte_carlo_tree_search.py:149-158 | the root state becomes the card played after a full trick is finished; the root moves to the card's child, keeping its statistics and its parent link, or to a fresh node; with the trick not full, succeeds exactly when `make_card_play` accepts the card; an error leaves the tree unchanged and comes from a trick that cannot be finished or from `make_card_play` refusing the card |
| NinetyNineSearch.NinetyNineMCST.Reroot | ninety_nine/monte_carlo_tree_search.py:155-158 | the root becomes the card's child with the arena unchanged and the parent link kept, or a fresh node added to the arena |
| NinetyNineSearch.NinetyNineMCST.Search | ninety_nine/monte_carlo_tree_search.py:129-137 | each round of select, roll-out of the selected state and back-propagation of its scores adds exactly one visit to the root; an error ends the rounds early, with fewer visits added than rounds |
| ConnectFourState.Initial | connect_four/connect_four_state.py:6-10 | an all-zero board, every height at the bottom row, player one to move, no last cell |
| ConnectFourState.InitialValid | connect_four/connect_four_state.py:6-10 | the initial state satisfies the height invariant |
| ConnectFourState.PlayKeepsValid | connect_four/connect_four_state.py:15-23 | a legal move keeps the invariant: each height is the lowest empty row of its column, cells above it empty and below it filled |
| ConnectFourState.LegalMovesSpec | connect_four/connect_four_state.py:25-26 | exactly the columns whose top cell is empty, in increasing order |
| ConnectFourState.NotOverHasMoves | connect_four/connect_four_state.py:124-125 | a game that is not over has a legal move |
| ConnectFourState.RunAtLeast | connect_four/connect_four_state.py:35-122 | a walk counts at least every gap-free stretch of equal cells |
| ConnectFourState.LineGivesFour | connect_four/connect_four_state.py:35-122 | a line of at least four through a cell holds four equal cells in a row through it |
| ConnectFourState.FourGivesLine | connect_four/connect_four_state.py:35-122 | four equal cells in a row through a cell make its line at least four long |
| ConnectFourState.LineMeansFour | connect_four/connect_four_state.py:35-122 | a line length of at least 4 through a cell means four equal cells in a row through it, and back |
| ConnectFourState.WinFromSpec | connect_four/connect_four_state.py:35-122 | a win from a cell holds exactly when four cells equal to it lie in a row through it, by column, row, diagonal or anti-diagonal |
| ConnectFourState.InitialNoWin | connect_four/connect_four_state.py:28-33 | before any move nobody has won |
| ConnectFourState.OutcomeSpec | connect_four/connect_four_state.py:127-135 | a win by one gives outcome one and a win by two gives outcome two; a finished game without a win is a draw; an unfinished game reports outcome two |
| ConnectFourState.PlayFillsCell | connect_four/connect_four_state.py:15-23 | each move fills one empty cell, so every game ends |
| ConnectFourState.PlayWinner | connect_four/connect_four_state.py:28-33 | after a move only the player who made it can have won |
| ConnectFourState.ConnectState.constructor | connect_four/connect_four_state.py:6-10 | the fields hold the initial state |
| ConnectFourState.ConnectState.Copy | connect_four/monte_carlo_tree_search.py:65 | a new state equal to the source |
| ConnectFourState.ConnectState.GetBoard | connect_four/connect_four_state.py:12-13 | a board value equal to the state's board, which the caller cannot change through |
| ConnectFourState.ConnectState.Move | connect_four/connect_four_state.py:15-23 | the state becomes `Play` of the old state: the mover's piece at the column's height, the height one row up, the last cell recorded, the turn passed; `PlayKeepsValid` proves the invariant |
| ConnectFourState.ConnectState.GetLegalMoves | connect_four/connect_four_state.py:25-26 | the list `LegalMovesSpec` describes |
| ConnectFourState.ConnectState.CountRun | connect_four/connect_four_state.py:35-122 | one walk of `check_win_from` counts the gap-free run of equal cells in its direction |
| ConnectFourState.ConnectState.CheckWinFrom | connect_four/connect_four_state.py:35-122 | the loops decide `WinFrom`, which `WinFromSpec` characterises |
| ConnectFourState.ConnectState.CheckWin | connect_four/connect_four_state.py:28-33 | 0 before any move; otherwise the player at the last cell when a line of four runs through it, else 0 |
| ConnectFourState.ConnectState.GameOver | connect_four/connect_four_state.py:124-125 | somebody has won, or no column is open |
| ConnectFourState.ConnectState.GetOutcome | connect_four/connect_four_state.py:127-135 | the outcome `OutcomeSpec` describes |
| ConnectFourSearch.ValueInfinite | connect_four/monte_carlo_tree_search.py:23-29 | the value is infinity exactly for an unvisited node when exploring; an unvisited node without exploration is worth 0 |
| ConnectFourSearch.RewardAlternates | connect_four/monte_carlo_tree_search.py:39-50 | without a draw the reward is 0 at the leaf when the player to move won and 1 otherwise, and flips at every level |
| ConnectFourSearch.RewardDraw | connect_four/monte_carlo_tree_search.py:39-50 | after a draw only the leaf can gain a win, and every level above gets 0 |
| ConnectFourSearch.BackPropagated | connect_four/monte_carlo_tree_search.py:39-50 | every node on the parent chain from the leaf gains one visit and its reward; every other node is unchanged |
| ConnectFourSearch.ThreeNodeChain | connect_four/tests/test_monte_carlo_search_tree.py:19-34 | on a chain of three nodes with turn one and outcome one, the wins are 0, 1, 0 from the leaf up and each node has one visit |
| ConnectFourState.PlayExtends | connect_four/connect_four_state.py:15-23 | a move only fills an empty cell: the position after it extends the one before |
| ConnectFourSearch.RollOut | connect_four/monte_carlo_tree_search.py:32-36 | random legal moves end in a finished game, and its outcome is returned; the final position is the starting one played on, with no more empty cells, and a finished game is left as it is |
| ConnectFourSearch.ChildPosition | connect_four/monte_carlo_tree_search.py:80-81 | a child's position is its parent's after the child's legal move |
| ConnectFourSearch.AddChildValid | connect_four/monte_carlo_tree_search.py:53-60 | a child added for a legal move, with the position it leads to, keeps every node's position tied to its moves |
| ConnectFourSearch.PropagateValid | connect_four/monte_carlo_tree_search.py:39-50 | back-propagation keeps every node's position tied to its moves |
| ConnectFourSearch.AddTopValid | connect_four/monte_carlo_tree_search.py:122-123 | a fresh root for a valid position keeps every node's position tied to its moves |
| ConnectFourSearch.MCTS.constructor | connect_four/monte_carlo_tree_search.py:64-69 | a single fresh root over a new copy of the state |
| ConnectFourSearch.MCTS.BackPropagate | connect_four/monte_carlo_tree_search.py:39-50 | the loop that flips the reward leaves the arena as `Propagate` with the alternating reward, which `RewardAlternates` and `BackPropagated` describe |
| ConnectFourSearch.MCTS.AddChildNodes | connect_four/monte_carlo_tree_search.py:19-21 | the children are entered one after another, as `AddChildren`, each with the position its move leads to |
| ConnectFourSearch.MCTS.Expand | connect_four/monte_carlo_tree_search.py:53-60 | false with no change when the game is over; otherwise true after adding one fresh child per legal move |
| ConnectFourSearch.MCTS.Step | connect_four/monte_carlo_tree_search.py:80-81 | moves to the child by the move and plays the move on the copied state, which becomes the child's position |
| ConnectFourSearch.MCTS.ChildValueOfCounts | connect_four/monte_carlo_tree_search.py:23-30 | a child's value depends on its visits and wins, not on its children |
| ConnectFourSearch.MCTS.Descend | connect_four/monte_carlo_tree_search.py:71-84 | on a fresh copy of the root state, ends at a node reached from the root through children of maximal value among their siblings, whose position the copy holds, either unvisited or childless |
| ConnectFourSearch.MCTS.AnyChild | connect_four/monte_carlo_tree_search.py:85-86 | picks a child of the node and plays its move, so the state holds the child's position |
| ConnectFourSearch.MCTS.Grow | connect_four/monte_carlo_tree_search.py:84-88 | at a childless node, changes no old node but for its children; returns the node or one of its children, reached from the root, with its position in the state |
| ConnectFourSearch.MCTS.SelectNode | connect_four/monte_carlo_tree_search.py:71-90 | the root state is not changed; returns a node reached from the root with its position in a fresh state, which, or else its parent, is reached through children of maximal value; old nodes keep their visits and wins |
| ConnectFourSearch.MCTS.Search | connect_four/monte_carlo_tree_search.py:92-104 | each round adds exactly one visit to the root |
| ConnectFourSearch.MCTS.BestMove | connect_four/monte_carlo_tree_search.py:106-114 | -1 when the game is over; otherwise the move of a root child with the most visits, and an error exactly when the root has no children |
| ConnectFourSearch.MCTS.Move | connect_four/monte_carlo_tree_search.py:116-123 | the move is played on the root state in place; the root moves to the move's child, keeping its counters and parent link, or to a fresh node |
| FourInARow.BlankBoard | experiments/connect_four.py:26-32 | a six by seven board |
| FourInARow.CreateBoard | experiments/connect_four.py:26-32 | the nested loops build six rows of seven blank cells |
| FourInARow.FirstFilled | experiments/connect_four.py:63-72 | the first row from the top holding a piece: every cell above it is blank |
| FourInARow.DroppedSpec | experiments/connect_four.py:55-72 | succeeds exactly for a column index in -7..6 whose top cell is blank; ValueError from column 7 up and IndexError below -7; the piece lands on a blank cell; no other cell changes |
| FourInARow.DroppedSettled | experiments/connect_four.py:63-72 | on a board where pieces rest on pieces, the piece lands on the lowest blank cell of its column, and the board stays that way |
| FourInARow.MakeMoveToBoard | experiments/connect_four.py:55-72 | the loop over a copy gives the drop `DroppedSpec` describes; the input board is a value and stays unchanged |
| FourInARow.DroppedFillsBlank | experiments/connect_four.py:55-72 | every successful drop fills exactly one blank cell |
| FourInARow.HasWonIsLineOfFour | experiments/connect_four.py:90-136 | the scan of every window finds exactly the boards with four in a row in a row, column or diagonal |
| FourInARow.AsWrittenFindsOnlyWins | experiments/connect_four.py:90-136 | everything the written scan finds is a real four in a row |
| FourInARow.RisingDiagonalMissed | experiments/connect_four.py:113-122 | the rising diagonal from row 5, column 3 to row 2, column 6 is a win the written scan misses |
| FourInARow.FallingDiagonalMissed | experiments/connect_four.py:124-133 | the falling diagonal from row 2, column 0 to row 5, column 3 is a win the written scan misses |
| FourInARow.ScanGroup | experiments/connect_four.py:92-133 | one pair of nested loops finds a window of four exactly when one starts within its bounds |
| FourInARow.ScanForFour | experiments/connect_four.py:90-136 | the four scans decide four in a row within the given diagonal bounds |
| FourInARow.CheckDraw | experiments/connect_four.py:139-145 | with the corrected win scan: true exactly when the top row holds no blank and neither player has four in a row |
| ExpConnectFour.NewState | experiments/connect_four.py:14-17 | a blank board with player one to move |
| ExpConnectFour.NextPlayerAlternates | experiments/connect_four.py:82-86 | one hands over to two and anyone else to one; between the two players the turn alternates |
| ExpConnectFour.MakeMove | experiments/connect_four.py:75-79 | the result is `Moved`, which `MovedSpec` describes |
| ExpConnectFour.MovedSpec | experiments/connect_four.py:75-79 | succeeds exactly when the drop does; the mover's piece fills a blank cell, nothing else changes, and the turn passes to the next player |
| ExpConnectFour.LegalMovesSpec | experiments/connect_four.py:148-149 | corrected: exactly the columns, in increasing order, on which a move succeeds |
| ExpConnectFour.AsWrittenNoLegalMoves | experiments/connect_four.py:148-149 | as written, no board of blanks and player pieces has a legal move |
| ExpConnectFour.OpeningMoves | experiments/connect_four.py:148-149 | on the opening board the written test finds no move, while all seven columns are open |
| ExpConnectFour.CheckOver | experiments/connect_four.py:152-159 | with the corrected win scan: true exactly when a player has won or the board is a draw |
| ExpConnectFour.GetWinner | experiments/connect_four.py:162-171 | the corrected scans give `Winner`, which `WinnerSpec` describes |
| ExpConnectFour.WinnerSpec | experiments/connect_four.py:162-171 | with the corrected win scan: a draw is checked first, then player one, then player two; none exactly when the game is not over |
| ExpConnectFour.NotOverHasMoves | experiments/connect_four.py:139-159 | corrected: a game that is not over has a legal move among the corrected legal moves |
| LetterConnectFour.NewBoard | experiments/connectFour.py:12-18 | six rows of seven `'_'` cells |
| LetterConnectFour.MakeMove | experiments/connectFour.py:33-54 | the drop `FourInARow.DroppedSpec` describes, with `'_'` as the blank; the input board is not modified |
| LetterConnectFour.HasWon | experiments/connectFour.py:57-95 | corrected, with every window scanned, true exactly when the player has four in a row |
| LetterConnectFour.IsADraw | experiments/connectFour.py:97-103 | with the corrected win scan: true exactly when the top row is full and neither `X` nor `O` has four in a row |
| LetterConnectFour.MovesStack | experiments/tests/test_connectFour.py:43-69 | moves stack up a column from the bottom row: X then O in the last column, and X, O, X in column 2 |
| LetterConnectFour.MovesRefused | experiments/tests/test_connectFour.py:56-59 | column 7 and a full column are refused with ValueError |
| LetterConnectFour.VerticalWin | experiments/tests/test_connectFour.py:24-28 | the board of four `O`s stacked on an `X` in column 3, as the test at lines 73-74 checks it, wins for `O` and not for `X` |
| LetterConnectFour.DroppedVerticalWin | experiments/tests/test_connectFour.py:93-101 | four `X`s dropped into column 2 of the blank board fill its four lowest cells and win for `X` and not for `O` |
| LetterConnectFour.HorizontalWin | experiments/tests/test_connectFour.py:103-114 | the full board with four `O`s in row 3 is a win for `O` and not for `X` |
| LetterConnectFour.DrawFound | experiments/tests/test_connectFour.py:116-126 | the full board without four in a row is a draw |
| ExpSearch.UcbInfinite | experiments/monte_carlo_search_tree.py:30-36 | the score is infinity exactly for an unvisited node |
| ExpSearch.TurnAsWrittenValues | experiments/monte_carlo_search_tree.py:117-123 | as written, the compared player is the turn at even levels and 1 minus the turn at odd levels |
| ExpSearch.AsWrittenOddLevelsNeverWin | experiments/monte_carlo_search_tree.py:117-123 | as written, with players 1 and 2 no odd level is ever credited a win |
| ExpSearch.TurnAtAlternates | experiments/monte_carlo_search_tree.py:117-123 | corrected: the compared player alternates between the turn and the next player |
| ExpSearch.WonAlternates | experiments/monte_carlo_search_tree.py:117-123 | corrected: after a player's win exactly one of any two neighbouring levels is credited; after a draw none is |
| ExpSearch.BackPropagated | experiments/monte_carlo_search_tree.py:117-123 | with the corrected turn: every node on the parent chain from the leaf gains one visit, and a win where the outcome is the turn at its level; every other node is unchanged |
| ExpSearch.Rollout | experiments/monte_carlo_search_tree.py:109-114 | with the corrected legal moves and win scan: random legal moves end in a finished game, and its winner is returned: 1, 2 or the draw 3; the final board is the starting one played on, with no more blanks, and a finished game is left as it is |
| ExpSearch.ChildState | experiments/monte_carlo_search_tree.py:53-54 | a child's state is its parent's after the child's move |
| ExpSearch.AddChildValid | experiments/monte_carlo_search_tree.py:95-106 | a child added for a successful move, with its state, keeps every node's state tied to its moves |
| ExpSearch.PropagateValid | experiments/monte_carlo_search_tree.py:117-123 | back-propagation keeps every node's state tied to its moves |
| ExpSearch.AddTopValid | experiments/monte_carlo_search_tree.py:91-92 | a fresh root for a state keeps every node's state tied to its moves |
| ExpSearch.SomeChild | experiments/monte_carlo_search_tree.py:59-61 | with the corrected legal moves: after an expansion of a game not over, some legal move has a fresh child reached from the root |
| ExpSearch.MonteCarloSearchTree.constructor | experiments/monte_carlo_search_tree.py:40-42 | a single fresh root over the state |
| ExpSearch.MonteCarloSearchTree.BackPropagate | experiments/monte_carlo_search_tree.py:117-123 | the loop leaves the arena as `Propagate` with the win credit of the corrected turn, which `BackPropagated` and `WonAlternates` describe |
| ExpSearch.MonteCarloSearchTree.AddChildNodes | experiments/monte_carlo_search_tree.py:25-27 | the children are entered one after another, as `AddChildren`, each with the state its move makes |
| ExpSearch.MonteCarloSearchTree.Expand | experiments/monte_carlo_search_tree.py:95-106 | with the corrected legal moves and win scan: false with no change when a player has won or the board is a draw; otherwise true after adding one fresh child per legal move |
| ExpSearch.MonteCarloSearchTree.Step | experiments/monte_carlo_search_tree.py:53-54 | moves to the child by the move and returns the state the move makes, which is the child's state |
| ExpSearch.MonteCarloSearchTree.ChildValueOfCounts | experiments/monte_carlo_search_tree.py:30-36 | a child's score depends on its visits and wins, not on its children |
| ExpSearch.MonteCarloSearchTree.Descend | experiments/monte_carlo_search_tree.py:44-57 | ends at a node reached from the root through children of maximal score among their siblings, with its state, either unvisited or childless |
| ExpSearch.MonteCarloSearchTree.Grow | experiments/monte_carlo_search_tree.py:59-63 | with the corrected expansion: at a childless node, changes no old node but for its children, and returns the node or one of its children, reached from the root, with its state |
| ExpSearch.MonteCarloSearchTree.SelectNode | experiments/monte_carlo_search_tree.py:44-63 | with the corrected expansion: returns a node reached from the root with its state, which, or else its parent, is reached through children of maximal score; old nodes keep their visits and wins |
| ExpSearch.MonteCarloSearchTree.Search | experiments/monte_carlo_search_tree.py:65-69 | with the corrected expansion, roll-out and turn: exactly the given number of rounds: the root gains that many visits |
| ExpSearch.MonteCarloSearchTree.BestMove | experiments/monte_carlo_search_tree.py:71-83 | with the corrected win scan: -1 when the game is over; otherwise the move of a root child with the most visits, and an error exactly when the root has no children |
| ExpSearch.MonteCarloSearchTree.Move | experiments/monte_carlo_search_tree.py:85-92 | a failing move raises its error and changes nothing; otherwise the root state becomes the move's result and the root moves to the move's child or to a fresh node |

## Left out

- Time budget: `search` runs while `time.process_time` is under a limit. The model runs a given number of rounds instead.
- UCT/UCB arithmetic: `sqrt`/`log` on floats, modelled as a function parameter of the search. Only its zero-visit branch is written out.
- Random choices: `random.choice`, `np.random.choice` and the shuffle become nondeterministic picks or caller-supplied arguments. The deal takes the shuffled deck as input.
- Iteration order of Python sets and dicts is left open. This affects the order children are entered and the sum order in `bid_value`.
- Aliasing of copies: `copy_state`, `copy_board`, `copyBoard` and `GameState.copy_state` produce values in the model, so a copy never shares rows with the original.
  - In-place update is kept where the source relies on it: `Player`, `ConnectState` and the search classes.
  - `copy_state` in `experiments/connect_four.py` replaces the board of its argument and returns the same object. That is only observable through aliasing.
- Cell types: in `experiments/connect_four.py` the blank `"_"` and the numbered pieces share a cell type with variants `Blank` and `Piece(n)`. The `"X"`/`"O"` players of `experiments/connectFour.py` are single characters.
- `HumanAiMainGame.Upper`: `str.upper` is modelled on ASCII letters only; other Unicode case mappings are not.
- `HumanAiMainGame.GetSortedCards`: the list sort in place is modelled by its result, a descending sequence of the set.
- `HumanAiMainGame.GetHumanBid`: console input becomes a sequence of lines; running out of lines is an EOFError.
- Node `winner` field in `experiments/monte_carlo_search_tree.py`: never read, so not modelled.
- `ConnectFourState.ConnectState.Move`: requires a legal column. On a full column the source writes at row -1, which Python reads as the bottom row; that behaviour is not modelled.
- `ConnectFourSearch.MCTS.Move`: likewise requires a legal move.
- `ConnectFourState.ConnectState.CheckWinFrom`: the `connect_four` constants module is not part of this model; board size, players and outcomes are a configuration parameter.
- `FourInARow.ScanGroup`: some Python scans loop over columns outside and rows inside. The model uses rows outside; only the boolean result is stated.
- `NinetyNineSearch.NinetyNineMCST.SelectNode`: errors from `finish_trick` or `make_card_play` during the descent are propagated as `Err`. The contract states what a successful selection returns, not which states make the descent fail.
- `NinetyNineSearch.NinetyNineMCST.Search`: the contract does not say which tree states make `select_node` or `roll_out` raise, only that an error ends the rounds with fewer root visits than rounds.
- `NinetyNineSearch.RollOut`: the contract states the final state's relation to the start and its scores, not which states make the random game fail.
- `FourInARow.CheckDraw`: models `is_a_draw` over the corrected `has_won` (Findings row 2). As written, a full board whose only four in a row is a diagonal the scan misses counts as a draw.
- `ExpConnectFour.CheckOver`: models `is_over` over the corrected `has_won` (Findings row 2). As written, a game won only on a missed diagonal goes on until the board is full.
- `ExpConnectFour.GetWinner`: models `get_winner` over the corrected `has_won` (Findings row 2). As written, a win only on a missed diagonal is reported as a draw or not at all.
- `ExpConnectFour.WinnerSpec`: states `get_winner` over the corrected `has_won` (Findings row 2), for the same reason.
- `ExpConnectFour.NotOverHasMoves`: holds for the corrected `get_legal_moves` (Findings row 1). As written, no board has a legal move.
- `LetterConnectFour.HasWon`: models the corrected `hasWon` (Findings row 2). As written, experiments/connectFour.py:76-92 misses the same diagonals.
- `LetterConnectFour.IsADraw`: models `isADraw` over the corrected `hasWon` (Findings row 2). As written, a full board whose only four in a row is a missed diagonal counts as a draw.
- `ExpSearch.BackPropagated`: states the back-propagation with the corrected turn (Findings row 3). As written, odd levels are never credited, which `ExpSearch.AsWrittenOddLevelsNeverWin` shows.
- `ExpSearch.MonteCarloSearchTree.BackPropagate`: models `backpropogate` with the corrected turn (Findings row 3). As written, odd levels are never credited.
- `ExpSearch.SomeChild`: holds for the corrected `get_legal_moves` (Findings row 1). As written, an expansion adds no child.
- `ExpSearch.MonteCarloSearchTree.Expand`: models `expand` with the corrected `get_legal_moves` and `has_won` (Findings rows 1 and 2). As written it adds no child, and it expands a game won only on a missed diagonal.
- `ExpSearch.Rollout`: models `rollout` with the corrected `get_legal_moves` and `has_won` (Findings rows 1 and 2). As written, `np.random.choice` at experiments/monte_carlo_search_tree.py:111 gets an empty list on any game not over and raises ValueError.
- `ExpSearch.MonteCarloSearchTree.Grow`: models the end of `select_node` with the corrected expansion (Findings row 1). As written, `np.random.choice` at experiments/monte_carlo_search_tree.py:60 gets no children and raises ValueError.
- `ExpSearch.MonteCarloSearchTree.SelectNode`: models `select_node` with the corrected expansion (Findings row 1), for the same reason.
- `ExpSearch.MonteCarloSearchTree.Search`: models `search` with the corrected expansion, roll-out and turn (Findings rows 1 to 3). As written, the first round raises ValueError.
- `ExpSearch.MonteCarloSearchTree.BestMove`: models `best_move`, whose `is_over` uses the corrected `has_won` (Findings row 2). As written, a game won only on a missed diagonal is not over.
- Console and driver code: `main`, `play_one_hand_of_ninety_nine`, the print functions, `graphical_main_game.py`, `ninetynine.py`, `file_renamer.py`, `experiments/humanAiMainGame.py`, `experiments/human_ai_main_game.py` and the unfinished `experiments/monteCarloSearchTree.py`. They contain I/O, rendering, or calls to undefined names.

## Findings

| source | as written | input that shows it | evidently intended | confidence | as-written member | corrected member |
|---|---|---|---|---|---|---|
| experiments/connect_four.py:148-149 | `get_legal_moves` keeps the columns whose top cell equals the number 0, but cells hold `"_"` or a player number 1 or 2 | the opening board: no legal move, so `expand` adds no child, and `np.random.choice` in `select_node` (experiments/monte_carlo_search_tree.py:60) and in `rollout` (line 111) raises ValueError on the empty list | the columns whose top cell is `"_"` | high (not executed) | ExpConnectFour.AsWrittenNoLegalMoves | ExpConnectFour.LegalMovesSpec |
| experiments/connect_four.py:113-133 | both diagonal scans start in columns 0..2 only, and the falling scan in rows 0..1 only (the same at experiments/connectFour.py:76-92) | the rising diagonal (5,3),(4,4),(3,5),(2,6) and the falling diagonal (2,0),(3,1),(4,2),(5,3) are not found | windows starting in columns 0..3, and falling windows in rows 0..2 | high (not executed) | FourInARow.RisingDiagonalMissed | FourInARow.HasWonIsLineOfFour |
| experiments/monte_carlo_search_tree.py:117-123 | `whose_turn = 1 - whose_turn` with players numbered 1 and 2 gives 0 or -1 at odd levels | turn 1 and outcome 1: the parent of the leaf is compared with 0 and never credited | the turn passes to the other player (`next_player`) at each level | high (not executed) | ExpSearch.AsWrittenOddLevelsNeverWin | ExpSearch.WonAlternates |
