/**
 * The text side of the console game: reading a card from two characters,
 * the letters a card is shown with, sorting a hand for display, and moving
 * cards from a hand into a bid.
 */
module HumanAiMainGame {
  import opened Wrappers
  import opened Cards
  import opened NinetyNineState

  /** Upper-casing of one character, for the ASCII letters. */
  function Upper(ch: char): (u: char)
    ensures 'a' <= ch <= 'z' ==> 'A' <= u <= 'Z' && u as int == ch as int - 32
    ensures !('a' <= ch <= 'z') ==> u == ch
  {
    if 'a' <= ch <= 'z' then (ch as int - 32) as char else ch
  }

  /** The rank an upper-case character names, as `get_valid_card` reads the first character. */
  function RankOf(ch: char): Option<Rank> {
    match ch
    case 'A' => Some(Ace)
    case 'K' => Some(King)
    case 'Q' => Some(Queen)
    case 'J' => Some(Jack)
    case 'T' => Some(Ten)
    case '9' => Some(Nine)
    case '8' => Some(Eight)
    case '7' => Some(Seven)
    case '6' => Some(Six)
    case _ => None
  }

  /** The suit an upper-case character names, as `get_valid_card` reads the second character. */
  function SuitOf(ch: char): Option<Suit> {
    match ch
    case 'D' => Some(Diamonds)
    case 'S' => Some(Spades)
    case 'H' => Some(Hearts)
    case 'C' => Some(Clubs)
    case _ => None
  }

  /** The letter `print_rank` shows for a rank. */
  function RankLetter(r: Rank): char {
    match r
    case Ace => 'A'
    case King => 'K'
    case Queen => 'Q'
    case Jack => 'J'
    case Ten => 'T'
    case Nine => '9'
    case Eight => '8'
    case Seven => '7'
    case Six => '6'
  }

  /** The letter `print_suit` shows for a suit. */
  function SuitLetter(s: Suit): char {
    match s
    case Diamonds => 'D'
    case Spades => 'S'
    case Hearts => 'H'
    case Clubs => 'C'
  }

  /** The rank letters read are exactly the letters shown. */
  lemma RankLetters(ch: char, r: Rank)
    ensures RankOf(ch) == Some(r) <==> RankLetter(r) == ch
  {
  }

  /** The suit letters read are exactly the letters shown. */
  lemma SuitLetters(ch: char, s: Suit)
    ensures SuitOf(ch) == Some(s) <==> SuitLetter(s) == ch
  {
  }

  /**
   * `get_valid_card`: reads the rank from the first character and the suit
   * from the second, in either case; further characters are ignored.
   */
  function ParseCard(s: string): (r: Result<Card, Error>)
    ensures |s| == 0 ==> r == Err(IndexError)
    ensures |s| > 0 && RankOf(Upper(s[0])).None? ==> r == Err(ValueError("Not a valid rank"))
    ensures |s| == 1 && RankOf(Upper(s[0])).Some? ==> r == Err(IndexError)
    ensures |s| > 1 && RankOf(Upper(s[0])).Some? && SuitOf(Upper(s[1])).None? ==> r == Err(ValueError("Not a valid suit"))
    ensures r.Ok? <==> |s| > 1 && RankOf(Upper(s[0])).Some? && SuitOf(Upper(s[1])).Some?
    ensures r.Ok? ==> RankLetter(r.value.rank) == Upper(s[0]) && SuitLetter(r.value.suit) == Upper(s[1])
  {
    if |s| == 0 then
      Err(IndexError)
    else
      match RankOf(Upper(s[0]))
      case None => Err(ValueError("Not a valid rank"))
      case Some(rank) =>
        if |s| < 2 then
          Err(IndexError)
        else
          match SuitOf(Upper(s[1]))
          case None => Err(ValueError("Not a valid suit"))
          case Some(suit) => Ok(Card(rank, suit))
  }

  /** Reading back the letters a card is shown with gives the card, whatever follows them. */
  lemma ParseShownCard(c: Card, rest: string)
    ensures ParseCard([RankLetter(c.rank), SuitLetter(c.suit)] + rest) == Ok(c)
  {
    var s := [RankLetter(c.rank), SuitLetter(c.suit)] + rest;
    assert s[0] == RankLetter(c.rank) && s[1] == SuitLetter(c.suit);
    RankLetters(s[0], c.rank);
    SuitLetters(s[1], c.suit);
  }

  /** "TH" and "th" both name the ten of hearts. */
  lemma TenOfHearts()
    ensures ParseCard("TH") == Ok(Card(Ten, Hearts))
    ensures ParseCard("th") == Ok(Card(Ten, Hearts))
  {
  }

  /** Every non-empty set of cards has a greatest card. */
  lemma MaxCardExists(s: set<Card>)
    requires s != {}
    ensures exists m :: m in s && forall c :: c in s && c != m ==> Less(c, m)
  {
    var m := GreatestCard(s);
  }

  /** The greatest card of a non-empty set, found by taking one card out at a time. */
  lemma {:induction false} GreatestCard(s: set<Card>) returns (m: Card)
    requires s != {}
    ensures m in s && forall c :: c in s && c != m ==> Less(c, m)
    decreases |s|
  {
    var x :| x in s;
    if s == {x} {
      m := x;
    } else {
      var rest := s - {x};
      var g := GreatestCard(rest);
      m := GreaterWith(rest, g, x);
      assert rest + {x} == s;
    }
  }

  /** Adding one card to a set with greatest card `g` gives a set whose greatest card is `g` or the new one. */
  lemma GreaterWith(rest: set<Card>, g: Card, x: Card) returns (m: Card)
    requires g in rest && forall c :: c in rest && c != g ==> Less(c, g)
    ensures m in rest + {x} && forall c :: c in rest + {x} && c != m ==> Less(c, m)
  {
    LessIsStrictTotalOrder(x, g, g);
    if x == g || Less(x, g) {
      m := g;
    } else {
      m := x;
      forall c | c in rest + {x} && c != x
        ensures Less(c, x)
      {
        if c != g {
          LessIsStrictTotalOrder(c, g, x);
        }
      }
    }
  }

  /** Each card comes strictly before the next in the card order: descending. */
  predicate Descending(r: seq<Card>) {
    forall i, j :: 0 <= i < j < |r| ==> Less(r[j], r[i])
  }

  /**
   * `get_sorted_cards`: the cards of a set, greatest first. The list sort
   * is modelled by its result: the greatest remaining card is taken until
   * none remain.
   */
  method GetSortedCards(cards: set<Card>) returns (r: seq<Card>)
    ensures Descending(r)
    ensures forall c :: c in r <==> c in cards
    ensures |r| == |cards|
  {
    r := [];
    var rest := cards;
    while rest != {}
      invariant rest <= cards
      invariant Descending(r)
      invariant forall c :: c in r <==> c in cards && c !in rest
      invariant forall i, c :: 0 <= i < |r| && c in rest ==> Less(c, r[i])
      invariant |r| + |rest| == |cards|
      decreases |rest|
    {
      MaxCardExists(rest);
      var m :| m in rest && forall c :: c in rest && c != m ==> Less(c, m);
      forall i, c | 0 <= i < |r| && c in rest - {m}
        ensures Less(c, r[i])
      {
      }
      r := r + [m];
      rest := rest - {m};
    }
  }

  /** The first card of a descending sequence comes before all the others and does not recur. */
  lemma DescendingHead(a: seq<Card>)
    requires Descending(a) && a != []
    ensures forall c :: c in a && c != a[0] ==> Less(c, a[0])
    ensures forall c :: c in a[1..] <==> c in a && c != a[0]
  {
    forall c | c in a[1..] ensures c in a && c != a[0] {
      var k :| 0 <= k < |a[1..]| && a[1..][k] == c;
      assert Less(a[k + 1], a[0]);
      LessIsStrictTotalOrder(c, c, c);
    }
    forall c | c in a && c != a[0] ensures c in a[1..] && Less(c, a[0]) {
      var k :| 0 <= k < |a| && a[k] == c;
      assert a[1..][k - 1] == c;
    }
  }

  /** A set of cards has one descending order only: the sort result is determined by the set. */
  lemma {:induction false} DescendingUnique(a: seq<Card>, b: seq<Card>)
    requires Descending(a) && Descending(b)
    requires forall c :: c in a <==> c in b
    ensures a == b
    decreases |a|
  {
    assert a != [] ==> a[0] in b;
    assert b != [] ==> b[0] in a;
    if a != [] && b != [] {
      DescendingHead(a);
      DescendingHead(b);
      assert a[0] in b && b[0] in a;
      if a[0] != b[0] {
        assert Less(a[0], b[0]) && Less(b[0], a[0]);
        LessIsStrictTotalOrder(a[0], b[0], a[0]);
        assert false;
      }
      DescendingUnique(a[1..], b[1..]);
      assert a == [a[0]] + a[1..] && b == [b[0]] + b[1..];
    }
  }

  /**
   * `get_random_bid`: three times, a card chosen from the hand moves to the
   * bid; choosing from an empty hand raises IndexError after the hand has
   * been emptied.
   */
  method GetRandomBid(p: Player) returns (r: Result<(), Error>)
    modifies p
    ensures r.Ok? <==> |old(p.hand)| >= NumCardsInBid
    ensures p.hand + p.bid == old(p.hand + p.bid)
    ensures p.hand <= old(p.hand) && p.bid - old(p.bid) <= old(p.hand)
    ensures r.Ok? ==> |p.hand| == |old(p.hand)| - NumCardsInBid
    ensures r.Ok? ==> old(p.hand) !! old(p.bid) ==> |p.bid| == |old(p.bid)| + NumCardsInBid
    ensures r.Err? ==> p.hand == {} && p.bid == old(p.bid + p.hand)
    ensures p.tricksWon == old(p.tricksWon) && p.stage == old(p.stage)
  {
    ghost var hand0, bid0 := p.hand, p.bid;
    for i := 0 to NumCardsInBid
      invariant p.hand <= hand0
      invariant p.bid == bid0 + (hand0 - p.hand)
      invariant |p.hand| + i == |hand0|
      invariant p.tricksWon == old(p.tricksWon) && p.stage == old(p.stage)
    {
      if p.hand == {} {
        assert hand0 - p.hand == hand0;
        return Err(IndexError);
      }
      var card :| card in p.hand;
      p.hand := p.hand - {card};
      p.bid := p.bid + {card};
    }
    MovedCards(hand0, bid0, p.hand);
    r := Ok(());
  }

  /** Moving the cards of `hand` that are not in `kept` into `bid`. */
  lemma MovedCards(hand: set<Card>, bid: set<Card>, kept: set<Card>)
    requires kept <= hand
    ensures kept + (bid + (hand - kept)) == hand + bid
    ensures |hand - kept| == |hand| - |kept|
    ensures hand !! bid ==> |bid + (hand - kept)| == |bid| + |hand| - |kept|
  {
    assert hand == kept + (hand - kept);
    if hand !! bid {
      assert bid !! (hand - kept);
    }
  }

  /** What reading a bid from a sequence of typed lines does. */
  datatype BidRun = BidRun(player: PlayerData, consumed: nat, error: Option<Error>)

  /**
   * The loop of `get_human_bid`: while the bid holds fewer than three cards a
   * line is read; a line that does not name a card ends the loop with the
   * parser's error, a card not in the hand changes nothing, and a card in
   * the hand moves to the bid. Running out of lines is EOFError.
   */
  function HumanBid(d: PlayerData, lines: seq<string>): BidRun
    decreases |lines|
  {
    if |d.bid| >= NumCardsInBid then
      BidRun(d, 0, None)
    else if lines == [] then
      BidRun(d, 0, Some(EOFError))
    else
      match ParseCard(lines[0])
      case Err(e) => BidRun(d, 1, Some(e))
      case Ok(c) =>
        var next := if c in d.hand then d.(hand := d.hand - {c}, bid := d.bid + {c}) else d;
        var run := HumanBid(next, lines[1..]);
        run.(consumed := run.consumed + 1)
  }

  /**
   * Reading a bid keeps every card in the hand or the bid, only moves cards
   * out of the hand, and when it finishes the bid holds three cards.
   */
  lemma {:induction false} HumanBidMovesCards(d: PlayerData, lines: seq<string>)
    requires d.hand !! d.bid && |d.bid| <= NumCardsInBid
    ensures var run := HumanBid(d, lines);
      && run.player.hand + run.player.bid == d.hand + d.bid
      && run.player.hand !! run.player.bid
      && run.player.hand <= d.hand
      && run.player.tricksWon == d.tricksWon && run.player.stage == d.stage
      && run.consumed <= |lines|
      && (run.error.None? ==> |run.player.bid| == NumCardsInBid)
    decreases |lines|
  {
    if |d.bid| < NumCardsInBid && lines != [] && ParseCard(lines[0]).Ok? {
      var c := ParseCard(lines[0]).value;
      var next := if c in d.hand then d.(hand := d.hand - {c}, bid := d.bid + {c}) else d;
      assert next.hand + next.bid == d.hand + d.bid;
      HumanBidMovesCards(next, lines[1..]);
    }
  }

  /** A card not in the hand is skipped: the bid goes on from the next line unchanged. */
  lemma CardNotInHandSkipped(d: PlayerData, lines: seq<string>)
    requires |d.bid| < NumCardsInBid && lines != []
    requires ParseCard(lines[0]).Ok? && ParseCard(lines[0]).value !in d.hand
    ensures HumanBid(d, lines).player == HumanBid(d, lines[1..]).player
    ensures HumanBid(d, lines).consumed == HumanBid(d, lines[1..]).consumed + 1
  {
  }

  /** `get_human_bid`, with the typed lines supplied as a sequence. */
  method GetHumanBid(p: Player, lines: seq<string>) returns (r: Result<nat, Error>)
    modifies p
    ensures var run := HumanBid(old(p.Data()), lines);
      && p.Data() == run.player
      && (run.error.None? ==> r == Ok(run.consumed))
      && (run.error.Some? ==> r == Err(run.error.value))
  {
    var read := 0;
    while |p.bid| < NumCardsInBid
      invariant read <= |lines|
      invariant HumanBid(old(p.Data()), lines) == HumanBid(p.Data(), lines[read..]).(consumed := HumanBid(p.Data(), lines[read..]).consumed + read)
      decreases |lines| - read
    {
      if read == |lines| {
        return Err(EOFError);
      }
      var card := ParseCard(lines[read]);
      if card.Err? {
        return Err(card.error);
      }
      assert lines[read..][1..] == lines[read + 1..];
      if card.value in p.hand {
        p.hand := p.hand - {card.value};
        p.bid := p.bid + {card.value};
      }
      read := read + 1;
    }
    r := Ok(read);
  }

  /** `all_cards_played`: true exactly when every hand is empty. */
  method AllCardsPlayed(players: seq<PlayerData>) returns (b: bool)
    ensures b <==> forall i :: 0 <= i < |players| ==> |players[i].hand| == 0
  {
    for i := 0 to |players|
      invariant forall k :: 0 <= k < i ==> |players[k].hand| == 0
    {
      if |players[i].hand| > 0 {
        return false;
      }
    }
    return true;
  }

  /** With the trick empty, the hand is over exactly when all cards are played. */
  lemma GameOverWhenAllPlayed(g: GameState)
    requires |g.trick.cards| == 0
    ensures GameIsOver(g) <==> forall i :: 0 <= i < |g.players| ==> |g.players[i].hand| == 0
  {
  }
}
