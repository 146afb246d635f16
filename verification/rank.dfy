/** The rank constants and the three rank tables of models/constants/rank. */
module Rank {
  import opened Seqs

  const ZERO: string := "0"
  const ONE: string := "1"
  const TWO: string := "2"
  const THREE: string := "3"
  const FOUR: string := "4"
  const FIVE: string := "5"
  const SIX: string := "6"
  const SEVEN: string := "7"
  const EIGHT: string := "8"
  const NINE: string := "9"
  const WILD: string := "wild"
  const DRAW_4: string := "draw_4"
  const DRAW_2: string := "draw_2"
  const REVERSE: string := "reverse"
  const SKIP: string := "skip"

  /** Every rank constant the package declares. */
  const AllRanks: set<string> :=
    {ZERO, ONE, TWO, THREE, FOUR, FIVE, SIX, SEVEN, EIGHT, NINE,
     WILD, DRAW_4, DRAW_2, REVERSE, SKIP}

  const NumberCards: seq<string> := [ZERO, ONE, TWO, THREE, FOUR, FIVE, SIX, SEVEN, EIGHT, NINE]

  const ActionCards: seq<string> := [DRAW_2, REVERSE, SKIP]

  const ActionCardsNoColor: seq<string> := [WILD, DRAW_4]

  /** Each table is free of repeats and has rank.go's length and order. */
  lemma RankTables()
    ensures |NumberCards| == 10 && Distinct(NumberCards)
    ensures forall k | 0 <= k < 10 :: NumberCards[k] == [('0' as int + k) as char]
    ensures ActionCards == [DRAW_2, REVERSE, SKIP] && Distinct(ActionCards)
    ensures ActionCardsNoColor == [WILD, DRAW_4] && Distinct(ActionCardsNoColor)
  {
  }

  /** The three tables are pairwise disjoint and together hold all fifteen constants. */
  lemma RankTablesPartition()
    ensures forall r | r in NumberCards :: r !in ActionCards && r !in ActionCardsNoColor
    ensures forall r | r in ActionCards :: r !in ActionCardsNoColor
    ensures |NumberCards + ActionCards + ActionCardsNoColor| == 15
    ensures Distinct(NumberCards + ActionCards + ActionCardsNoColor)
    ensures forall r :: r in AllRanks <==> r in NumberCards || r in ActionCards || r in ActionCardsNoColor
  {
  }
}
