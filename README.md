# pycasinosim playing cards in Dafny

This project models the playing-card layer of pycasinosim, a casino
simulator, and proves properties of the model. It covers two Python modules.

- `pycasinosim/casino/equipment/card.py` defines the `Rank` and `Face`
  enumerations with their display helpers, the frozen `Card` record, the
  `CardShuffle` modes and a stateful 52-card `Deck`. The `Deck` builds its
  cards as the product of faces and ranks, may shuffle them by repeatedly
  popping a random index into a new list, and deals from the front.
  It is modelled in `equipment_card.dfy`:
  - the enumerations and `Card` are datatypes with pure functions;
  - `Deck` is a class whose `cards` field the methods reassign.
- `pycasinosim/casino/items/card.py` is an older, purely value-level variant:
  `CardRank`, `CardFace`, `Card` and a frozen `Deck` whose default contents
  are the same 52-card product. It is modelled in `items_card.dfy`. The
  Python module repeats the enumerations as classes of its own, so the model
  repeats them as datatypes of its own.

Supporting modules:

- `decimal.dfy` is Python's `str` on a non-negative integer, with a parser
  and the round trip `Parse(Show(n)) == n`. This is how an abbreviation
  such as "10" is known to denote its rank.
- `sequences.dfy` holds `list.pop(i)` (`RemoveAt`), `itertools.product`
  (`Product`) and facts about sequences without repeats.
- `shuffle.dfy` is the deck shuffle as a function `ShuffleBy(orig, picks)`
  of the random indices drawn. It proves three things:
  - every complete run of picks yields a permutation;
  - every permutation is yielded by some run;
  - on distinct cards, different runs give different orders.
- `identity.dfy` is the `uuid4` identity supply. An `IdentitySource` issues
  tokens from a counter and keeps a ghost record `issued` of the tokens it
  has handed out. While its invariant `Valid()` holds, each new token lies
  outside that record, so one source never issues a token twice.
- `wrappers.dfy` holds `Option`, for Python's `None` returns and parameters.

The random index `secrets.choice(range(0, n))` is modelled as an arbitrary
index in `[0, n)`. Inside `Deck.ShuffleCards` it is a nondeterministic
choice, and a ghost out-parameter records each choice. Every result is
proved for all such choices.

## Model

| member | source | states |
|---|---|---|
| EquipmentCard.Rank.Name | pycasinosim/casino/equipment/card.py:18-30 | a name of at least three capital letters, whose first letter `Abbreviation` takes (card.py:53); the body holds the declared names ACE to KING, which `AbbreviationTable` pins through their first letters |
| EquipmentCard.Rank.Value | pycasinosim/casino/equipment/card.py:13-30 | the thirteen members carry the values 1 to 13 |
| EquipmentCard.AllRanksByValue | pycasinosim/casino/equipment/card.py:13-30 | `list(Rank)` holds the members in value order, member k having value k + 1 |
| EquipmentCard.RankValueInjective | pycasinosim/casino/equipment/card.py:13-30 | no two ranks share a value |
| EquipmentCard.Rank.IsPictureCard | pycasinosim/casino/equipment/card.py:32-40 | true exactly for ACE, TEN, JACK, QUEEN and KING (values 1, 10, 11, 12, 13) |
| EquipmentCard.Rank.Abbreviation | pycasinosim/casino/equipment/card.py:42-53 | for values 2 to 10 a digit string that reads back as the value; otherwise the first letter of the name, which is not a digit |
| EquipmentCard.AbbreviationTable | pycasinosim/casino/equipment/card.py:42-53 | the thirteen abbreviations are A, 2, ..., 10, J, Q, K |
| EquipmentCard.AbbreviationInjective | pycasinosim/casino/equipment/card.py:42-53 | different ranks have different abbreviations |
| EquipmentCard.PictureCardIffNotSingleDigit | pycasinosim/casino/equipment/card.py:32-53 | a rank is a picture card exactly when its abbreviation is not a single digit |
| EquipmentCard.Face.Value | pycasinosim/casino/equipment/card.py:56-64 | the four members carry the values 1 to 4 |
| EquipmentCard.AllFacesByValue | pycasinosim/casino/equipment/card.py:56-64 | `list(Face)` holds the members in value order |
| EquipmentCard.FaceValueInjective | pycasinosim/casino/equipment/card.py:56-64 | no two faces share a value |
| EquipmentCard.Face.Colour | pycasinosim/casino/equipment/card.py:66-75 | "red" exactly for DIAMOND and HEART, "black" otherwise |
| EquipmentCard.Face.Symbol | pycasinosim/casino/equipment/card.py:77-91 | every face, with no fall-through, maps to a one-character suit symbol |
| EquipmentCard.SymbolTable | pycasinosim/casino/equipment/card.py:77-91 | CLUB, DIAMOND, HEART and SPADE print as the club, diamond, heart and spade suit symbols |
| EquipmentCard.SymbolInjective | pycasinosim/casino/equipment/card.py:77-91 | different faces have different symbols |
| EquipmentCard.ColourMatchesSymbol | pycasinosim/casino/equipment/card.py:66-91 | a face is red exactly when its symbol is the diamond or the heart |
| EquipmentCard.Card.Abbreviation | pycasinosim/casino/equipment/card.py:105-113 | 2 or 3 characters: the rank abbreviation followed by the face symbol |
| EquipmentCard.CardAbbreviationIff | pycasinosim/casino/equipment/card.py:105-113 | two cards print the same exactly when they have the same rank and face |
| EquipmentCard.NewCard | pycasinosim/casino/equipment/card.py:94-103 | a new card has the given rank and face and an identity token the supply had not issued before |
| EquipmentCard.SameRankAndFaceAreDistinct | tests/casino/equipment/test_card_module.py:26-29 | two cards made with the same rank and face are unequal |
| EquipmentCard.ShufflesDeck | pycasinosim/casino/equipment/card.py:148-149 | a deck shuffles exactly when the mode is given and is not Shoe (so Deck or DeckAndShoe) |
| EquipmentCard.CanonicalCards | pycasinosim/casino/equipment/card.py:143-145 | 52 cards whose identities are issued in order |
| EquipmentCard.CanonicalIsProduct | pycasinosim/casino/equipment/card.py:143-145 | card i is `Card(p[1], p[0])` for the i-th pair p of `product(list(Face), list(Rank))` |
| EquipmentCard.CanonicalCardAt | pycasinosim/casino/equipment/card.py:143-145 | card i has face value i / 13 + 1 and rank value i % 13 + 1 |
| EquipmentCard.CanonicalHasPair | pycasinosim/casino/equipment/card.py:143-145 | every (rank, face) pair sits at index `PairIndex(r, f)` |
| EquipmentCard.CanonicalPairAt | pycasinosim/casino/equipment/card.py:143-145 | the card at index i is the pair whose index is i |
| EquipmentCard.CanonicalOnePerPair | pycasinosim/casino/equipment/card.py:143-145 | each (rank, face) pair occurs exactly once |
| EquipmentCard.CanonicalDistinct | pycasinosim/casino/equipment/card.py:103 | the 52 cards of a new deck are pairwise different |
| EquipmentCard.AccountedNoCardTwice | pycasinosim/casino/equipment/card.py:162-172 | when the dealt and remaining cards together are the cards the deck was built with, no card appears twice in either |
| EquipmentCard.CanonicalIds | pycasinosim/casino/equipment/card.py:143-145 | every card of a new deck carries one of the 52 identities issued for that deck |
| EquipmentCard.CanonicalSamePairSameCard | pycasinosim/casino/equipment/card.py:143-145 | two cards of a new deck with the same rank and face are the same card |
| EquipmentCard.AccountedOnePerPair | pycasinosim/casino/equipment/card.py:143-172 | under the same accounting, no two cards among those dealt and those remaining share both rank and face |
| EquipmentCard.AccountedCoversEveryPair | pycasinosim/casino/equipment/card.py:143-172 | under the same accounting, every (rank, face) pair is either dealt or still in the deck |
| EquipmentCard.Deck.constructor | pycasinosim/casino/equipment/card.py:132-149 | 52 canonical cards whose identities the supply had not issued before, flag cleared; kept in canonical order unless the mode shuffles, else a permutation of the canonical cards |
| EquipmentCard.Deck.ShuffleCards | pycasinosim/casino/equipment/card.py:151-163 | with the flag clear, the cards become `ShuffleBy(old cards, picks)` for the valid picks drawn; with it set, nothing changes |
| EquipmentCard.Deck.DrawCard | pycasinosim/casino/equipment/card.py:165-174 | on a non-empty deck, returns the first card, keeps the tail and lowers the count by one; on an empty deck, returns None and changes nothing |
| EquipmentCard.Deck.CanDrawCard | pycasinosim/casino/equipment/card.py:176-182 | true exactly when the remaining count is positive |
| EquipmentCard.Deck.CardsRemaining | pycasinosim/casino/equipment/card.py:184-189 | the count is zero exactly when the deck is empty |
| EquipmentCard.Deck.Next | pycasinosim/casino/equipment/card.py:197-205 | yields a card exactly when one can be drawn, by drawing it; otherwise stops and changes nothing |
| EquipmentCard.DrainDeck | tests/casino/equipment/test_card_module.py:38-42 | drawing while a card can be drawn stops with no cards remaining and returns the deck's cards in order |
| EquipmentCard.Collect | pycasinosim/casino/equipment/card.py:191-205 | iterating the deck to exhaustion yields its cards in order and empties it |
| EquipmentCard.DealUnshuffledDeck | tests/casino/equipment/test_card_module.py:33-35 | a deck made with no mode holds 52 cards and deals them in canonical order |
| EquipmentCard.DealShuffledDeck | pycasinosim/casino/equipment/card.py:148-163 | a deck made with mode Deck deals 52 cards forming a permutation of the canonical cards |
| Shuffle.Steps | pycasinosim/casino/equipment/card.py:159-162 | after k picks the pool has lost k elements and the output has gained k |
| Shuffle.StepsMultiset | pycasinosim/casino/equipment/card.py:159-162 | at every step the pool and the output together hold exactly the original elements, so each card is moved exactly once |
| Shuffle.ShuffleBy | pycasinosim/casino/equipment/card.py:158-163 | for every valid run of picks, the output has the original length and multiset |
| Shuffle.StepsFront | pycasinosim/casino/equipment/card.py:160-162 | the first pick moves that element to the front of the output, and the rest of the run shuffles what remains |
| Shuffle.ShuffleByFront | pycasinosim/casino/equipment/card.py:160-162 | the shuffle's first element is the element the first pick chose |
| Shuffle.ShuffleByCons | pycasinosim/casino/equipment/card.py:160-162 | prepending a pick to a run draws that element first |
| Shuffle.ShuffleOutcomeIffPermutation | pycasinosim/casino/equipment/card.py:158-163 | a sequence is a shuffle outcome if and only if it is a permutation of the input |
| Shuffle.EveryPermutationReachable | pycasinosim/casino/equipment/card.py:158-163 | every permutation of the input is produced by some run of picks |
| Shuffle.PicksReaching | pycasinosim/casino/equipment/card.py:160-162 | constructs the run of picks that produces a given permutation |
| Shuffle.ShuffleByInjective | pycasinosim/casino/equipment/card.py:158-163 | on distinct cards, different runs of picks give different orders; with `EveryPermutationReachable`, runs and orders correspond one to one |
| Shuffle.FirstPickAgrees | pycasinosim/casino/equipment/card.py:160-162 | two runs with the same outcome on distinct elements made the same first pick |
| Sequences.RemoveAt | pycasinosim/casino/equipment/card.py:162 | `pop(i)` leaves the elements before i in place and shifts those after it down by one |
| Sequences.RemoveAtMultiset | pycasinosim/casino/equipment/card.py:162 | the popped element plus what remains is the original multiset |
| Sequences.Product | pycasinosim/casino/equipment/card.py:144 | `product(xs, ys)` has length `len(xs) * len(ys)` |
| Sequences.ProductAt | pycasinosim/casino/equipment/card.py:144 | the pair `(xs[q], ys[j])` sits at index `q * len(ys) + j` |
| Decimal.Show | pycasinosim/casino/equipment/card.py:52 | `str(n)` is a non-empty digit string without a leading zero, of length 1 exactly when n < 10 |
| Decimal.ParseShow | pycasinosim/casino/equipment/card.py:52 | `str(n)` reads back as n |
| Decimal.ShowInjective | pycasinosim/casino/equipment/card.py:52 | different numbers render differently |
| Identity.IdentitySource.constructor | pycasinosim/casino/equipment/card.py:103 | a new supply has issued nothing and satisfies its invariant |
| Identity.IdentitySource.Fresh | pycasinosim/casino/equipment/card.py:103 | keeps the invariant, returns a token outside the issued record and adds exactly that token to it |
| Identity.IdentitySource.Issue | pycasinosim/casino/equipment/card.py:143-145 | keeps the invariant and issues a block of consecutive tokens, one per card, none of them issued before |
| EquipmentCard.DeckCount | pycasinosim/casino/equipment/card.py:143-174 | in every valid deck, the dealt and remaining cards number 52 together |
| EquipmentCard.DeckOnePerPair | pycasinosim/casino/equipment/card.py:143-174 | in every valid deck, no two cards among those dealt and those remaining share both rank and face |
| EquipmentCard.DeckCoversEveryPair | pycasinosim/casino/equipment/card.py:143-174 | in every valid deck, each (rank, face) pair is dealt or still in the deck |
| EquipmentCard.TwoDecksShareNoCard | pycasinosim/casino/equipment/card.py:103-145 | two decks built from one supply, in any modes, share no card |
| ItemsCard.CardRank.Name | pycasinosim/casino/items/card.py:15-27 | a name of at least three capital letters, whose first letter `AsAbbreviation` takes (items/card.py:50); the body holds the declared names ACE to KING, which `AsAbbreviationTable` pins through their first letters |
| ItemsCard.CardRank.Value | pycasinosim/casino/items/card.py:11-27 | the thirteen members carry the values 1 to 13 |
| ItemsCard.AllCardRanksByValue | pycasinosim/casino/items/card.py:11-27 | `list(CardRank)` holds the members in value order |
| ItemsCard.CardRankValueInjective | pycasinosim/casino/items/card.py:11-27 | no two ranks share a value |
| ItemsCard.CardRank.IsPictureCard | pycasinosim/casino/items/card.py:29-37 | true exactly for ACE, TEN, JACK, QUEEN and KING |
| ItemsCard.CardRank.AsAbbreviation | pycasinosim/casino/items/card.py:39-50 | for values 2 to 10 a digit string that reads back as the value; otherwise the first letter of the name |
| ItemsCard.AsAbbreviationTable | pycasinosim/casino/items/card.py:39-50 | the thirteen abbreviations are A, 2, ..., 10, J, Q, K |
| ItemsCard.AsAbbreviationInjective | pycasinosim/casino/items/card.py:39-50 | different ranks have different abbreviations |
| ItemsCard.CardFace.Value | pycasinosim/casino/items/card.py:53-60 | the four members carry the values 1 to 4 |
| ItemsCard.AllCardFacesByValue | pycasinosim/casino/items/card.py:53-60 | `list(CardFace)` holds the members in value order |
| ItemsCard.CardFaceValueInjective | pycasinosim/casino/items/card.py:53-60 | no two faces share a value |
| ItemsCard.CardFace.Colour | pycasinosim/casino/items/card.py:62-71 | "red" exactly for DIAMOND and HEART, "black" for CLUB and SPADE |
| ItemsCard.CardFace.AsSymbol | pycasinosim/casino/items/card.py:73-87 | every face, with no fall-through, maps to a one-character suit symbol |
| ItemsCard.AsSymbolTable | pycasinosim/casino/items/card.py:73-87 | CLUB, DIAMOND, HEART and SPADE print as the club, diamond, heart and spade suit symbols |
| ItemsCard.AsSymbolInjective | pycasinosim/casino/items/card.py:73-87 | different faces have different symbols |
| ItemsCard.Card.AsAbbreviation | pycasinosim/casino/items/card.py:100-108 | 2 or 3 characters: the rank abbreviation followed by the face symbol |
| ItemsCard.CardAsAbbreviationIff | pycasinosim/casino/items/card.py:100-108 | two cards print the same exactly when they have the same rank and face |
| ItemsCard.NewCard | pycasinosim/casino/items/card.py:90-98 | a new card has the given rank and face and an identity token the supply had not issued before |
| ItemsCard.DefaultCards | pycasinosim/casino/items/card.py:117-121 | 52 cards whose identities are issued in order |
| ItemsCard.DefaultIsProduct | pycasinosim/casino/items/card.py:117-121 | card i is `Card(p[1], p[0])` for the i-th pair p of `product(list(CardFace), list(CardRank))` |
| ItemsCard.DefaultOnePerPair | pycasinosim/casino/items/card.py:117-121 | each (rank, face) pair occurs exactly once, at index (face - 1) * 13 + (rank - 1) |
| ItemsCard.DefaultDistinct | pycasinosim/casino/items/card.py:98 | the 52 default cards are pairwise different |
| ItemsCard.NewDeck | pycasinosim/casino/items/card.py:111-122 | a deck made with the default factory holds the 52 default cards with fresh identities |

## Left out

- Shoe: no shoe, overdrawn-card replacement, multi-deck composition or
  shoe-level shuffle exists in the modelled code. Only the `CardShuffle.Shoe`
  and `DeckAndShoe` values name it. `ShufflesDeck` treats both values as the
  code does.
- Shuffle idempotence: the `_shuffled` flag starts False and nothing ever sets
  it. So every call of `_shuffle_cards` reshuffles, and the model does the
  same. `Deck.ShuffleCards` keeps the guard, but no operation sets the flag.
- Randomness: `secrets.choice` is an arbitrary valid index. The
  cryptographic quality and the uniform distribution of the shuffle are not
  modelled. The bijection between runs of picks and orders
  (`ShuffleOutcomeIffPermutation`, `ShuffleByInjective`) stands in for it.
- `uuid4` and `str`: identities are naturals from a counter, not random UUID
  strings. Distinct identities are guaranteed by the counter, where the source
  relies on collisions being improbable.
- Identity.IdentitySource: the model assumes one source per run, shared by
  every card and deck. Two separately constructed sources both start at 0 and
  can issue equal tokens. `next` and `issued` are fields a caller could
  overwrite, and only `Valid()`, which every operation requires and keeps,
  ties them together.
- The `TypeError` guard in `Deck.__init__`: `Option<CardShuffle>` makes a
  non-`CardShuffle` argument unrepresentable, so the error path cannot arise.
- `Deck.__repr__` and `__iter__`: `__repr__` is string formatting only, and
  `__iter__` returns the deck itself. Iteration is modelled by `Deck.Next`
  and `Collect`.
- `frozen=True` on `items/card.py` is immutability, which a Dafny datatype has
  by construction. The field's `set[Card]` annotation disagrees with its list
  default, so the field is modelled as the list (`seq<Card>`).
- EquipmentCard.Deck.constructor: states "a permutation of the canonical
  cards" (multiset equality) for a shuffled deck, not the existential
  `IsShuffleOutcome`. `ShuffleOutcomeIffPermutation` proves the two
  equivalent.
- EquipmentCard.Rank.IsPictureCard, ItemsCard.CardRank.IsPictureCard: follow
  the code, which includes TEN. Both doc comments name only ACE, JACK, QUEEN
  and KING.
- Packaging (`setup.py`) and the rest of the simulator (tables, games,
  players) are not part of this model.
