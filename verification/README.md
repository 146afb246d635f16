# UNO card model in Dafny

A Dafny model of the card-game value layer of the Go UNO server. It covers:

- the rank and colour constants, and colour parsing;
- the card value: its type bucket, its log line, the colour and rank matches, and the `ValidCard` check;
- both generations of the deck. `models/game/deck.go` keeps an integer counter. `models/deck.go` keeps a count per card type in a map;
- the 54-card game deck that `NewGameDeck` builds and shuffles;
- both generations of the player. The game-package player also has `HasPlayableCard`;
- the helpers of `internal/utils.go`;
- the command factory registry.

Everything is a value. Each Go method that changes a deck or a player is a function that returns the updated value. Go's `(T, error)` returns become `Wrappers.Result`, and nil pointers become `Wrappers.Option`. `ParseColor`, which returns a colour and an error together, gives a `Color.Parsed` pair whose error part is an `Option`. The shuffle takes its random draws as a parameter.

The two Go `Card` structs (`models/card.go` and `models/game/card.go`) have the same fields. Their `Type` and `LogCard` bodies are also identical. So module `Cards` defines one `Card` datatype for both.

Modules and the Go files they follow:

| module | models |
|---|---|
| `Rank`, `Color` | `models/constants/rank/rank.go`, `models/constants/color/color.go` |
| `Strings` | Go string order (`<=` on strings) and `strings.ToLower`, on `seq<char>` |
| `Cards` | `models/card.go`, `models/game/card.go` |
| `Seqs`, `Shuffle` | the slice idioms both decks use (`append(s[:i], s[i+1:]...)`, `rand.Shuffle` with a swap) |
| `CountedDeck` | `models/game/deck.go` |
| `TypedDeck` | `models/deck.go` |
| `GameDeck` | `models/game_deck.go` |
| `HandPlayer`, `GamePlayer` | `models/player.go`, `models/game/player.go` |
| `Utils` | `internal/utils.go` |
| `Registry` | `models/commands/registry.go` |

## Model

| member | source | states |
|---|---|---|
| Strings.DigitRange | models/game/card.go:14 | A string lies in the Go string range ["0", "9"] iff it starts with a digit below '9' or is exactly "9" |
| Strings.ToLower | models/constants/color/color.go:22 | Lower-casing keeps the length and maps each character through ASCII lower-casing |
| Strings.ToLowerFixesLower | models/constants/color/color.go:22 | Lower-casing leaves a string unchanged iff it has no upper-case letter |
| Strings.ToLowerIdempotent | models/constants/color/color.go:22 | Lower-casing twice equals lower-casing once |
| Rank.RankTables | models/constants/rank/rank.go:23-27 | `NumberCards` is "0".."9" in order with no repeats; `ActionCards` is [draw_2, reverse, skip]; `ActionCardsNoColor` is [wild, draw_4] |
| Rank.RankTablesPartition | models/constants/rank/rank.go:5-27 | The three tables are pairwise disjoint and together hold 15 rank constants, none repeated |
| Color.ParseColor | models/constants/color/color.go:21-35 | Succeeds iff the lower-cased input is one of the four colours, and then returns it; otherwise returns the empty colour with the error "invalid color: " plus the lower-cased input |
| Color.AllColorsDistinct | models/constants/color/color.go:10-19 | `ALLColors` has 4 distinct, non-empty, lower-case entries |
| Color.ParseColorInAllColors | models/constants/color/color.go:23-31 | Every successful parse is a member of `ALLColors` |
| Color.ParseColorCaseInsensitive | models/constants/color/color.go:22-24 | Two inputs that are equal after lower-casing parse to the same result |
| Color.ParseColorRoundTrip | models/constants/color/color.go:17-31 | Parsing the name of any colour in `ALLColors` gives that colour and no error |
| Color.ParseColorExamples | models/constants/color/color.go:21-34 | "RED", "Red" and "bLuE" parse to red and blue; "purple" and "" give an error, and "purple" also gives the empty colour |
| Cards.Type | models/game/card.go:13-20 | The result is always one of the three type names |
| Cards.TypeNumberCard | models/game/card.go:14-15 | A card is "number-card" iff its rank starts with a digit below '9' or is "9" (lexicographic comparison, so "10" also counts) |
| Cards.TypeOfNumberRanks | models/game/card.go:14-15 | Every rank of `NumberCards` gives "number-card" in any colour |
| Cards.TypeColorlessIff | models/game/card.go:16-17 | A card is "action-card-no-color" iff its rank is wild or draw_4, for every possible rank |
| Cards.TypeActionCardIff | models/game/card.go:13-20 | Among the 15 rank constants, a card is "action-card" iff its rank is skip, reverse or draw_2 |
| Cards.TypeIgnoresColor | models/game/card.go:13-20 | The type depends only on the rank, never on the colour |
| Cards.LogCard | models/game/card.go:22-24 | The log line is the rank, then one space, then the colour |
| Cards.LogCardInjective | models/card.go:22-24 | For ranks without a space, equal log lines mean equal cards |
| Cards.IsSameColor | models/game/card.go:26-33 | A colour match together with a rank match holds iff the cards are equal; `Cards.SameColorAndRankIsEquality` adds that the match is an equivalence |
| Cards.IsSameRank | models/game/card.go:36-42 | Cards of the same rank have the same type bucket; `Cards.SameColorAndRankIsEquality` adds that the match is an equivalence |
| Cards.SameColorAndRankIsEquality | models/game/card.go:26-42 | Same colour and same rank together hold iff the cards are equal; each match is reflexive, symmetric and transitive |
| Cards.ValidCard | models/card.go:26-33 | As written, `ValidCard` holds iff the colours or the ranks are equal: its first branch never fires (see `Cards.ValidCardIsColorOrRank` and `Cards.ValidCardRejectsWild`) |
| Cards.ValidCardIsColorOrRank | models/card.go:26-33 | `Type` never returns "action-bottomCard-no-color"; `ValidCard` holds iff the colours or the ranks are equal; it is reflexive and symmetric |
| Cards.ValidCardRejectsWild | models/card.go:27-31 | As written, a wild is not valid on a red 5, and a draw_4 is not valid on a blue skip |
| Cards.ValidCardIntendedAcceptsColorless | models/card.go:27-28 | With the intended type name, every wild and draw_4 is valid, and every other card agrees with `ValidCard` |
| Seqs.RemoveAt | models/game/deck.go:38 | Removing index i keeps the elements before i, shifts the ones after i down by one, and removes exactly that element from the multiset |
| Seqs.Swap | models/deck.go:22-24 | The swap exchanges two positions, keeps every other position and keeps the multiset |
| Shuffle.Shuffle | models/game/deck.go:21-26 | For any random draws, the result has the same length and the same multiset of cards |
| CountedDeck.NewDeck | models/game/deck.go:13-19 | A new deck has no cards and a counter that agrees with its card count |
| CountedDeck.AddCard | models/game/deck.go:28-31 | The card goes at the end, earlier cards stay put, the counter goes up by 1, and a consistent counter stays consistent |
| CountedDeck.RemoveCard | models/game/deck.go:33-41 | In range: returns the card at the index, keeps the rest in order, removes exactly that card from the multiset and lowers the counter by 1. Out of range: returns the zero card and the deck unchanged |
| CountedDeck.AddThenRemoveRestores | models/game/deck.go:28-41 | Removing the card just added gives that card back and restores the deck exactly |
| CountedDeck.ShuffleDeck | models/game/deck.go:21-26 | Shuffling keeps the multiset of cards, the card count and the counter |
| CountedDeck.AddCards | models/game/player.go:32-36 | Adding a batch appends it in order and raises the counter by the batch size |
| CountedDeck.ApplyOpsConsistent | models/game/deck.go:28-41 | Any run of add and remove calls keeps counter == number of cards |
| CountedDeck.NumberOfCards | models/game/deck.go:43-45 | The card count; `CountedDeck.CounterTracksCards` proves the stored counter always equals it |
| CountedDeck.CounterTracksCards | models/game/deck.go:13-45 | Starting from `NewDeck`, after any add/remove run, the counter equals `NumberOfCards` |
| TypedDeck.CountTypePermutation | models/deck.go:20-25 | Per-type card counts depend only on the multiset of cards, so shuffling cannot change them |
| TypedDeck.NewDeck | models/deck.go:13-18 | A new deck has no cards and an empty counter map, which is consistent |
| TypedDeck.AddCard | models/deck.go:27-30 | The card goes at the end; only its type's count goes up, by 1; a consistent counter stays consistent |
| TypedDeck.RemoveCard | models/deck.go:32-40 | In range: returns the card at the index, keeps the rest in order, old multiset = new multiset + {removed}, and only the removed card's type count drops by 1. Out of range: returns the zero card and changes nothing |
| TypedDeck.AddThenRemoveRestores | models/deck.go:27-40 | Removing the card just added gives that card back, the same cards and the same count for every type |
| TypedDeck.ShuffleDeck | models/deck.go:20-25 | Shuffling keeps the multiset, leaves the counter map untouched and keeps it consistent |
| TypedDeck.AddCards | models/player.go:25-29 | Adding a batch appends it in order, and each type's count goes up by the number of batch cards of that type |
| TypedDeck.AddCardsConsistent | models/player.go:25-29 | Adding a batch keeps a consistent counter consistent |
| TypedDeck.ApplyOpsConsistent | models/deck.go:27-39 | Any run of add and remove calls keeps every type's count equal to the number of cards of that type |
| TypedDeck.CounterTracksTypes | models/deck.go:13-39 | Starting from `NewDeck`, `Counter[t]` always equals the number of cards of type t |
| GameDeck.ColoredCardsAt | models/game_deck.go:22-31 | In the coloured block, card k has coloured rank k mod 13 (the ten number ranks, then draw_2, reverse, skip) and colour k div 13 of the colour list |
| GameDeck.CountColorRun | models/game_deck.go:24-29 | One colour adds 10 number cards and 3 coloured action cards |
| GameDeck.CountColoredCards | models/game_deck.go:22-31 | The coloured block has 10 number cards and 3 action cards per colour, and no others |
| GameDeck.CountNonColoredCards | models/game_deck.go:33-37 | The colourless block has exactly 2 colourless action cards |
| GameDeck.InitColoredCards | models/game_deck.go:22-31 | Appends the 52-card coloured block for `ALLColors` after the existing cards; the number count goes up by 40, the action count by 12, and no other count changes |
| GameDeck.InitNonColoredCards | models/game_deck.go:33-37 | Appends wild then draw_4, both with the empty colour; only the colourless count changes, by 2 |
| GameDeck.ColoredRanksDistinct | models/game_deck.go:24-29 | The 13 ranks each colour receives are all different |
| GameDeck.RanksInColorMembers | models/game_deck.go:24-29 | A card is in one inner loop's output iff it has that loop's colour and one of its ranks |
| GameDeck.ColoredCardsMembers | models/game_deck.go:22-31 | A card is in the coloured block iff its colour is in the list and its rank is a coloured rank |
| GameDeck.ColoredCardsDistinct | models/game_deck.go:22-31 | Given distinct colours, no card repeats in the coloured block |
| GameDeck.FillDeck | models/game_deck.go:16-17 | The two initialisation steps; `GameDeck.FillDeckCards` and `GameDeck.FillDeckCounts` state the cards they append and the counts they add |
| GameDeck.FillDeckCards | models/game_deck.go:16-17 | The two initialisation steps append the coloured block and then the colourless block, 54 cards, after whatever the deck already held |
| GameDeck.InitialDeckDistinct | models/game_deck.go:22-37 | No card repeats in the initialisation order, so each (colour, coloured rank) pair occurs at most once |
| GameDeck.InitialDeckComplete | models/game_deck.go:23-30 | Every (colour, coloured rank) pair occurs in the initialisation order |
| GameDeck.InitialDeckWellColored | models/game_deck.go:25-35 | Every card with the empty colour is a colourless action card; every other card's colour is in `ALLColors` |
| GameDeck.FillDeckCounts | models/game_deck.go:16-17 | The two initialisation steps raise number-card by 40, action-card by 12 and action-card-no-color by 2, leave every other type alone, and keep a consistent counter consistent |
| GameDeck.NewGameDeck | models/game_deck.go:12-20 | The final deck is a permutation of the initialisation order: 54 cards, all correctly coloured, with a consistent 40/12/2 counter |
| HandPlayer.NewPlayer | models/player.go:10-16 | A new player has the given name, an empty hand and an empty counter |
| HandPlayer.AddCards | models/player.go:25-29 | Cards are appended in order; each type's count goes up by its share; the name is kept; an empty batch changes nothing |
| HandPlayer.AddCardsKeepsConsistent | models/player.go:25-29 | Adding cards keeps the hand's counter consistent |
| GamePlayer.NewPlayer | models/game/player.go:14-21 | A new player has the given name, an empty hand, counter 0 and `Drawn` false |
| GamePlayer.AddCards | models/game/player.go:32-36 | Cards are appended in order; the hand grows by their count; name and `Drawn` are kept; an empty batch changes nothing |
| GamePlayer.PlayableOn | models/game/player.go:40-49 | The per-card test of the switch; `GamePlayer.PlayableOnColoredTop`, `GamePlayer.PlayableIgnoresTopColorOnColoredTop` and `GamePlayer.ColorlessPlaysOnColorless` state it on coloured and colourless tops |
| GamePlayer.HasPlayableCard | models/game/player.go:38-53 | The three-case switch returns true iff some hand card can follow the top card. On wild/draw_4 that means a coloured action in the top card's colour, the chosen colour, or another wild/draw_4; otherwise a colour or rank match |
| GamePlayer.EmptyHandHasNoPlay | models/game/player.go:38-53 | An empty hand has no playable card |
| GamePlayer.PlayableOnColoredTop | models/game/player.go:41-47 | If the top card is not wild/draw_4, the hand can play iff some card shares its colour or its rank |
| GamePlayer.PlayableIgnoresTopColorOnColoredTop | models/game/player.go:41-47 | If the top card is not wild/draw_4, the chosen top colour does not affect the answer |
| GamePlayer.PlayableIgnoresOrder | models/game/player.go:39-52 | Hands with the same multiset of cards get the same answer |
| GamePlayer.ColorlessPlaysOnColorless | models/game/player.go:43-45 | A wild or draw_4 in hand can always be played on a wild or draw_4 |
| Utils.ShouldBroadcast | internal/utils.go:9-19 | A message is withheld iff it is exactly "showcards,playcard" |
| Utils.ShouldBroadcastLetsCommandsThrough | internal/utils.go:10-18 | "playcard" and "showcards" are broadcast; only the joined string is withheld |
| Utils.ShouldBroadcastIntended | internal/utils.go:10 | With the two names as separate entries, a message is withheld iff it is "showcards" or "playcard" |
| Utils.ShouldBroadcastIntendedDiffers | internal/utils.go:9-19 | The written and intended checks disagree exactly on "showcards", "playcard" and "showcards,playcard" |
| Utils.IndexOfName | internal/utils.go:21-23 | Returns -1 iff no player has the name; otherwise the first index whose player has it |
| Utils.FindPlayer | internal/utils.go:20-28 | Returns none (nil) iff no player has the name; otherwise the first player with that name |
| Utils.ConvertDirectionToInteger | internal/utils.go:29-34 | The result is +1 or -1, and it is positive iff the direction is true |
| Utils.DirectionFlipNegates | internal/utils.go:29-34 | Flipping the direction negates the step, so two flips restore it |
| Utils.RemoveCardFromHand | internal/utils.go:35-42 | Removes only the first equal card and keeps the others in order; the hand comes back unchanged iff the card is absent; the length drops by 1 iff the card is present |
| Registry.RegisterCommand | models/commands/registry.go:17-21 | The tag is bound to the factory, and every other tag keeps its binding |
| Registry.GetCommandFactory | models/commands/registry.go:24-32 | Succeeds iff the tag is registered, and then returns its factory; otherwise returns the "no factory registered" error for that tag |
| Registry.RegisterThenGet | models/commands/registry.go:17-31 | After registering t with f, looking up t gives f with no error |
| Registry.RegisterLeavesOthers | models/commands/registry.go:20 | Registering t does not change the lookup result of any other tag |
| Registry.ReRegisterOverwrites | models/commands/registry.go:20 | Registering a tag a second time overwrites the first factory |
| Registry.InitRegistry | models/commands/registry.go:34-38 | The registry after `init`; `Registry.InitRegistrations` states its two keys and lookups |
| Registry.InitRegistrations | models/commands/registry.go:34-38 | After `init`, exactly SYNC_GAME_STATE and PLAYCARD are registered; DRAW_CARD and PLAY_CARD fail |

## Left out

- Randomness: `rand.Seed`/`rand.Shuffle` draws are a parameter (`draw`), so the model shows that shuffling permutes the cards for any draws, not that the permutation is uniform.
- `CardInHand` (both players), the `fmt` printing, `internal/bubbletea.go` and the `cmd/uno` wiring: presentation and startup only.
- `internal/network.go`, `internal/network/network.go` and `internal/lobby.go` are not part of this model: websocket I/O, goroutines, mutexes, HTTP handlers and random room ids.
- `internal/game.go` `NewGame` is not part of this model. It calls `GameDeck.Cut`, which is not in any file this model covers.
- The turn engine (`Game.Start`, `Game.HandleMessage`: playing a card, advancing turns, draw-and-reshuffle, win detection) is not in any file this model covers and is not modelled.
- `models/commands/base_command.go`, `models/dtos/*` and `models/state.go`: JSON marshalling wrappers. The registry covers the unknown-tag failure.
- The registry's `RWMutex`: concurrency only. Factories are opaque identifiers. `init` builds them from `SyncCommand` and `PlayCardComamnd` (sic), and neither type is declared in the files this model covers (models/commands/playcard.go declares `PlayCardCommand`).
- Color.ParseColor: `strings.ToLower` is Unicode-aware, but the model lowers ASCII letters only. The accept/reject decision is still exact: the only non-ASCII characters that lower to ASCII letters (Kelvin sign, dotted capital I) lower to 'k' and 'i', which occur in no colour name. The error text can differ for any input with a non-ASCII upper-case character: Go lowers it (the Kelvin sign to "k", the dotted capital I to "i"), while the model keeps the original character.
- Strings.ToLower: lowers the ASCII letters 'A'-'Z' only, not the Unicode case mapping of `strings.ToLower`. Every other character is kept unchanged.
- GamePlayer.HasPlayableCard: the package-level `TopColor` is declared in none of models/game/{card,deck,player}.go. It becomes the explicit parameter `topColor`. Because the player is a value, the hand and the `Drawn` flag cannot change.
- Utils.FindPlayer returns the player value, not a pointer to it, so identity and aliasing are not modelled. The model's player list has no nil elements, so the nil-pointer panic of `p.Name` (internal/utils.go:22) on a nil entry of `[]*models.Player` is not modelled.
- Utils.RemoveCardFromHand returns the new hand as a value. In Go, `append(hand[:i], hand[i+1:]...)` also shifts the elements of the caller's backing array. That aliasing is not modelled.
- Go's `int` counters (32 or 64 bits, depending on the platform) are modelled as unbounded integers. A deck holds far fewer than 2^31 cards, so no wrap-around can occur.
- TypedDeck.AddThenRemoveRestores: states equality of every count read through `Get`, not equality of the maps. Go leaves the type key in the map with count 0.
- The code builds a 54-card deck (one card of each coloured rank per colour, one wild, one draw_4), not the 108-card commercial UNO pack. The registered play-card tag is "PLAYCARD". There is no DRAW_CARD registration.

## Findings

| source | as written | input that shows it | evidently intended | confidence | as-written member | corrected member |
|---|---|---|---|---|---|---|
| models/card.go:27 | `ValidCard` tests `Type() == "action-bottomCard-no-color"`, a name `Type` never returns (a textual replacement of `card` by `bottomCard` evidently also rewrote the string) | bottom = wild with empty colour, top = red 5: `ValidCard` is false | `"action-card-no-color"`: wild and draw_4 are valid on any card | high; not executed | Cards.ValidCardRejectsWild | Cards.ValidCardIntendedAcceptsColorless |
| internal/utils.go:10 | the private-command list is the single string `"showcards,playcard"` | msg = "playcard": `ShouldBroadcast` is true, so the private command is broadcast to the room | two entries, "showcards" and "playcard" | medium; not executed | Utils.ShouldBroadcastLetsCommandsThrough | Utils.ShouldBroadcastIntended |
