/**
 * The game deck of models/game_deck.go: a typed deck filled with every
 * coloured rank in every colour, then wild and draw_4 without colour, then
 * shuffled.
 */
module GameDeck {
  import opened Seqs
  import opened Rank
  import opened Color
  import opened Cards
  import opened TypedDeck

  /** One card of each rank in `ranks`, all of colour `c`, in table order: one inner loop. */
  function RanksInColor(ranks: seq<string>, c: string): seq<Card> {
    seq(|ranks|, k requires 0 <= k < |ranks| => Card(ranks[k], c))
  }

  /** The ranks one colour receives, in the order of the two inner loops. */
  const ColoredRanks: seq<string> := NumberCards + ActionCards

  /** The cards the outer loop adds for one colour: the number ranks, then draw_2, reverse, skip. */
  function ColorRun(c: string): seq<Card> {
    RanksInColor(NumberCards, c) + RanksInColor(ActionCards, c)
  }

  /** The cards `initColoredCards` adds, for the colours in order. */
  function ColoredCards(colors: seq<string>): seq<Card>
    decreases |colors|
  {
    if colors == [] then [] else ColorRun(colors[0]) + ColoredCards(colors[1..])
  }

  /** The cards `initNonColoredCards` adds. */
  function NonColoredCards(): seq<Card> {
    RanksInColor(ActionCardsNoColor, "")
  }

  /** Card `k` of the coloured block has the (k mod 13)-th coloured rank and the (k div 13)-th colour. */
  lemma {:induction false} ColoredCardsAt(colors: seq<string>)
    ensures |ColoredCards(colors)| == 13 * |colors|
    ensures forall k | 0 <= k < 13 * |colors| ::
      ColoredCards(colors)[k] == Card(ColoredRanks[k % 13], colors[k / 13])
    decreases |colors|
  {
    if colors != [] {
      var rest := colors[1..];
      ColoredCardsAt(rest);
      var s := ColoredCards(colors);
      assert s == ColorRun(colors[0]) + ColoredCards(rest);
      forall k | 0 <= k < 13 * |colors|
        ensures s[k] == Card(ColoredRanks[k % 13], colors[k / 13])
      {
        if k < 13 {
          assert k % 13 == k && k / 13 == 0;
        } else {
          assert (k - 13) % 13 == k % 13 && (k - 13) / 13 + 1 == k / 13;
          assert s[k] == ColoredCards(rest)[k - 13];
        }
      }
    }
  }

  /** All cards of `s` have type `t0`: the count of `t0` is `|s|` and of every other type zero. */
  lemma {:induction false} CountTypeUniform(s: seq<Card>, t0: string, t: string)
    requires forall i | 0 <= i < |s| :: Type(s[i]) == t0
    ensures CountType(s, t) == if t == t0 then |s| else 0
    decreases |s|
  {
    if s != [] {
      CountTypeUniform(s[..|s| - 1], t0, t);
    }
  }

  /** The per-type counts of one colour's run: ten number cards and three coloured actions. */
  lemma CountColorRun(c: string, t: string)
    ensures CountType(ColorRun(c), t) ==
      if t == NUMBER_CARD then 10 else if t == ACTION_CARD then 3 else 0
  {
    var numbers, actions := RanksInColor(NumberCards, c), RanksInColor(ActionCards, c);
    forall i | 0 <= i < |numbers| ensures Type(numbers[i]) == NUMBER_CARD {
      TypeOfNumberRanks(numbers[i].rank, c);
    }
    forall i | 0 <= i < |actions| ensures Type(actions[i]) == ACTION_CARD {
      TypeActionCardIff(actions[i]);
    }
    CountTypeUniform(numbers, NUMBER_CARD, t);
    CountTypeUniform(actions, ACTION_CARD, t);
    CountTypeConcat(numbers, actions, t);
  }

  /** The per-type counts of the coloured block: ten number cards and three coloured actions per colour. */
  lemma {:induction false} CountColoredCards(colors: seq<string>, t: string)
    ensures CountType(ColoredCards(colors), t) ==
      if t == NUMBER_CARD then 10 * |colors| else if t == ACTION_CARD then 3 * |colors| else 0
    decreases |colors|
  {
    if colors != [] {
      CountColoredCards(colors[1..], t);
      CountColorRun(colors[0], t);
      CountTypeConcat(ColorRun(colors[0]), ColoredCards(colors[1..]), t);
    }
  }

  /** The per-type counts of the colourless block: two colourless actions. */
  lemma CountNonColoredCards(t: string)
    ensures CountType(NonColoredCards(), t) == if t == ACTION_CARD_NO_COLOR then 2 else 0
  {
  }

  /**
   * `initColoredCards`: appends the coloured block for the colours of
   * `ALLColors` (52 cards, in the order `ColoredCardsAt` gives), adding 40
   * to the number-card count and 12 to the action-card count.
   */
  function InitColoredCards(d: Deck): (r: Deck)
    ensures |r.cards| == |d.cards| + 52 && r.cards == d.cards + ColoredCards(ALLColors)
    ensures Get(r.counter, NUMBER_CARD) == Get(d.counter, NUMBER_CARD) + 40
    ensures Get(r.counter, ACTION_CARD) == Get(d.counter, ACTION_CARD) + 12
    ensures forall t | t != NUMBER_CARD && t != ACTION_CARD :: Get(r.counter, t) == Get(d.counter, t)
  {
    ColoredCardsAt(ALLColors);
    CountColoredCards(ALLColors, NUMBER_CARD);
    CountColoredCards(ALLColors, ACTION_CARD);
    forall t | t != NUMBER_CARD && t != ACTION_CARD ensures CountType(ColoredCards(ALLColors), t) == 0 {
      CountColoredCards(ALLColors, t);
    }
    AddCards(d, ColoredCards(ALLColors))
  }

  /** `initNonColoredCards`: appends wild then draw_4, both with the empty colour. */
  function InitNonColoredCards(d: Deck): (r: Deck)
    ensures r.cards == d.cards + [Card(WILD, ""), Card(DRAW_4, "")]
    ensures Get(r.counter, ACTION_CARD_NO_COLOR) == Get(d.counter, ACTION_CARD_NO_COLOR) + 2
    ensures forall t | t != ACTION_CARD_NO_COLOR :: Get(r.counter, t) == Get(d.counter, t)
  {
    CountNonColoredCards(ACTION_CARD_NO_COLOR);
    forall t | t != ACTION_CARD_NO_COLOR ensures CountType(NonColoredCards(), t) == 0 {
      CountNonColoredCards(t);
    }
    AddCards(d, NonColoredCards())
  }

  /** The two initialisation steps of `NewGameDeck`, applied to a deck. */
  function FillDeck(d: Deck): Deck {
    InitNonColoredCards(InitColoredCards(d))
  }

  /** The order the two initialisation steps add cards in: the coloured block, then the colourless block. */
  function InitialOrder(): seq<Card> {
    ColoredCards(ALLColors) + NonColoredCards()
  }

  /** A colourless card is a wild or draw_4; every other card has one of the four colours. */
  ghost predicate WellColored(cards: seq<Card>) {
    forall x | x in cards ::
      (x.color == "" ==> Type(x) == ACTION_CARD_NO_COLOR) && (x.color != "" ==> x.color in ALLColors)
  }

  /** The thirteen coloured ranks are all different. */
  lemma ColoredRanksDistinct()
    ensures Distinct(ColoredRanks) && |ColoredRanks| == 13
  {
  }

  /** A card is in a one-colour block exactly when it has that colour and one of the block's ranks. */
  lemma RanksInColorMembers(ranks: seq<string>, c: string, x: Card)
    ensures x in RanksInColor(ranks, c) <==> x.color == c && x.rank in ranks
  {
    if x.color == c && x.rank in ranks {
      var k :| 0 <= k < |ranks| && ranks[k] == x.rank;
      assert RanksInColor(ranks, c)[k] == x;
    }
  }

  /** A block for repeat-free ranks has no repeats. */
  lemma RanksInColorDistinct(ranks: seq<string>, c: string)
    requires Distinct(ranks)
    ensures Distinct(RanksInColor(ranks, c))
  {
  }

  /** A card is in the coloured block exactly when its colour is one of the colours and its rank a coloured rank. */
  lemma {:induction false} ColoredCardsMembers(colors: seq<string>, x: Card)
    ensures x in ColoredCards(colors) <==> x.color in colors && x.rank in ColoredRanks
    decreases |colors|
  {
    if colors != [] {
      ColoredCardsMembers(colors[1..], x);
      RanksInColorMembers(NumberCards, colors[0], x);
      RanksInColorMembers(ActionCards, colors[0], x);
      assert colors == [colors[0]] + colors[1..];
    }
  }

  /** For repeat-free colours, each (colour, coloured rank) pair occurs once in the coloured block. */
  lemma {:induction false} ColoredCardsDistinct(colors: seq<string>)
    requires Distinct(colors)
    ensures Distinct(ColoredCards(colors))
    decreases |colors|
  {
    if colors != [] {
      var c := colors[0];
      var rest := colors[1..];
      assert Distinct(rest);
      ColoredCardsDistinct(rest);
      ColoredRanksDistinct();
      assert RanksInColor(NumberCards, c) + RanksInColor(ActionCards, c) == RanksInColor(ColoredRanks, c);
      RanksInColorDistinct(ColoredRanks, c);
      forall x | x in ColorRun(c) ensures x !in ColoredCards(rest) {
        RanksInColorMembers(ColoredRanks, c, x);
        ColoredCardsMembers(rest, x);
      }
      DistinctConcat(ColorRun(c), ColoredCards(rest));
    }
  }

  /** No card of the unshuffled deck repeats: each (colour, coloured rank) pair, wild and draw_4 occur exactly once. */
  lemma InitialDeckDistinct()
    ensures Distinct(InitialOrder())
  {
    AllColorsDistinct();
    ColoredCardsDistinct(ALLColors);
    forall x | x in ColoredCards(ALLColors) ensures x !in NonColoredCards() {
      ColoredCardsMembers(ALLColors, x);
      RanksInColorMembers(ActionCardsNoColor, "", x);
    }
    DistinctConcat(ColoredCards(ALLColors), NonColoredCards());
  }

  /** Every (colour, coloured rank) pair is in the unshuffled deck. */
  lemma InitialDeckComplete(c: string, r: string)
    requires c in ALLColors && r in ColoredRanks
    ensures Card(r, c) in InitialOrder()
  {
    ColoredCardsMembers(ALLColors, Card(r, c));
  }

  /** Every card of the unshuffled deck is well coloured. */
  lemma InitialDeckWellColored()
    ensures WellColored(InitialOrder())
  {
    AllColorsDistinct();
    forall x | x in InitialOrder()
      ensures (x.color == "" ==> Type(x) == ACTION_CARD_NO_COLOR) && (x.color != "" ==> x.color in ALLColors)
    {
      if x in ColoredCards(ALLColors) {
        ColoredCardsMembers(ALLColors, x);
      } else {
        assert x in NonColoredCards();
        RanksInColorMembers(ActionCardsNoColor, "", x);
        TypeColorlessIff(x);
      }
    }
  }

  /** The two initialisation steps append the 54 cards of the initialisation order. */
  lemma FillDeckCards(d: Deck)
    ensures |InitialOrder()| == 54
    ensures FillDeck(d).cards == d.cards + InitialOrder()
  {
    ColoredCardsAt(ALLColors);
  }

  /**
   * The two initialisation steps add 40 number cards, 12 coloured actions
   * and 2 colourless actions to the counter, which stays consistent.
   */
  lemma FillDeckCounts(d: Deck)
    ensures Get(FillDeck(d).counter, NUMBER_CARD) == Get(d.counter, NUMBER_CARD) + 40
    ensures Get(FillDeck(d).counter, ACTION_CARD) == Get(d.counter, ACTION_CARD) + 12
    ensures Get(FillDeck(d).counter, ACTION_CARD_NO_COLOR) == Get(d.counter, ACTION_CARD_NO_COLOR) + 2
    ensures forall t | t != NUMBER_CARD && t != ACTION_CARD && t != ACTION_CARD_NO_COLOR ::
      Get(FillDeck(d).counter, t) == Get(d.counter, t)
    ensures Consistent(d) ==> Consistent(FillDeck(d))
  {
    var d1 := InitColoredCards(d);
    if Consistent(d) {
      AddCardsConsistent(d, ColoredCards(ALLColors));
      AddCardsConsistent(d1, NonColoredCards());
    }
  }

  /**
   * `NewGameDeck`: a fresh deck filled by the two initialisation steps, in
   * an order chosen by the random draws. The result is a permutation of the
   * initialisation order with a consistent 40/12/2 counter.
   */
  method NewGameDeck(draw: nat -> nat) returns (gd: Deck)
    ensures multiset(gd.cards) == multiset(InitialOrder()) && |gd.cards| == 54
    ensures WellColored(gd.cards)
    ensures Consistent(gd)
    ensures Get(gd.counter, NUMBER_CARD) == 40
    ensures Get(gd.counter, ACTION_CARD) == 12
    ensures Get(gd.counter, ACTION_CARD_NO_COLOR) == 2
    ensures forall t | t != NUMBER_CARD && t != ACTION_CARD && t != ACTION_CARD_NO_COLOR :: Get(gd.counter, t) == 0
  {
    var d0 := NewDeck();
    FillDeckCards(d0);
    FillDeckCounts(d0);
    InitialDeckWellColored();
    var filled := FillDeck(d0);
    assert filled.cards == InitialOrder();
    gd := ShuffleDeck(filled, draw);
    forall x | x in gd.cards ensures x in InitialOrder() {
      assert x in multiset(gd.cards);
    }
  }
}
