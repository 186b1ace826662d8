/**
 The playing-card layer used at the table: the `Rank` and `Face`
 enumerations with their display helpers, `Card` (rank, face and an identity
 token), the `CardShuffle` modes and the stateful 52-card `Deck`.
 */
module EquipmentCard {
  import opened Wrappers
  import opened Decimal
  import opened Sequences
  import opened Shuffle
  import opened Identity

  /** The thirteen ranks, ACE = 1 through KING = 13. */
  datatype Rank =
    | Ace | Two | Three | Four | Five | Six | Seven
    | Eight | Nine | Ten | Jack | Queen | King
  {
    /** The integer value of the member. */
    function Value(): (v: int)
      ensures 1 <= v <= 13
    {
      match this
      case Ace => 1 case Two => 2 case Three => 3 case Four => 4
      case Five => 5 case Six => 6 case Seven => 7 case Eight => 8
      case Nine => 9 case Ten => 10 case Jack => 11 case Queen => 12
      case King => 13
    }

    /** The member's name. */
    function Name(): (s: string)
      ensures |s| >= 3 && forall k :: 0 <= k < |s| ==> 'A' <= s[k] <= 'Z'
    {
      match this
      case Ace => "ACE" case Two => "TWO" case Three => "THREE"
      case Four => "FOUR" case Five => "FIVE" case Six => "SIX"
      case Seven => "SEVEN" case Eight => "EIGHT" case Nine => "NINE"
      case Ten => "TEN" case Jack => "JACK" case Queen => "QUEEN"
      case King => "KING"
    }

    /** Membership of the value in [1, 10, 11, 12, 13]. The doc comment of
        the source names only ACE, JACK, QUEEN and KING; the code also
        admits TEN, and so does this model. */
    function IsPictureCard(): (b: bool)
      ensures b <==> this in {Ace, Ten, Jack, Queen, King}
    {
      Value() in [1, 10, 11, 12, 13]
    }

    /** The decimal value for TWO..TEN, the first letter of the name
        otherwise. */
    function Abbreviation(): (s: string)
      ensures 2 <= Value() <= 10 ==> AllDigits(s) && Parse(s) == Value()
      ensures !(2 <= Value() <= 10) ==> |s| == 1 && s[0] == Name()[0] && !IsDigit(s[0])
      ensures 1 <= |s| <= 2
    {
      if 2 <= Value() && Value() <= 10 then
        ParseShow(Value());
        Show(Value())
      else
        Name()[..1]
    }
  }

  /** The members in definition order, as `list(Rank)`. */
  const AllRanks: seq<Rank> :=
    [Ace, Two, Three, Four, Five, Six, Seven, Eight, Nine, Ten, Jack, Queen, King]

  lemma AllRanksByValue(k: nat)
    requires k < 13
    ensures |AllRanks| == 13 && AllRanks[k].Value() == k + 1
  {
  }

  lemma RankValueInjective(r1: Rank, r2: Rank)
    requires r1.Value() == r2.Value()
    ensures r1 == r2
  {
  }

  /** The abbreviation each rank prints as. */
  lemma AbbreviationTable()
    ensures Ace.Abbreviation() == "A" && Two.Abbreviation() == "2"
    ensures Three.Abbreviation() == "3" && Four.Abbreviation() == "4"
    ensures Five.Abbreviation() == "5" && Six.Abbreviation() == "6"
    ensures Seven.Abbreviation() == "7" && Eight.Abbreviation() == "8"
    ensures Nine.Abbreviation() == "9" && Ten.Abbreviation() == "10"
    ensures Jack.Abbreviation() == "J" && Queen.Abbreviation() == "Q"
    ensures King.Abbreviation() == "K"
  {
    assert Show(10) == Show(1) + [DigitChar(0)];
  }

  /** No two ranks share an abbreviation. */
  lemma AbbreviationInjective(r1: Rank, r2: Rank)
    requires r1.Abbreviation() == r2.Abbreviation()
    ensures r1 == r2
  {
    var a := r1.Abbreviation();
    if 2 <= r1.Value() <= 10 && 2 <= r2.Value() <= 10 {
      RankValueInjective(r1, r2);
    } else if !(2 <= r1.Value() <= 10) && !(2 <= r2.Value() <= 10) {
      assert r1.Name()[0] == a[0] == r2.Name()[0];
    } else {
      assert false;
    }
  }

  /** The picture cards are exactly the ranks whose abbreviation is not a
      single digit. */
  lemma PictureCardIffNotSingleDigit(r: Rank)
    ensures r.IsPictureCard() <==> !(|r.Abbreviation()| == 1 && IsDigit(r.Abbreviation()[0]))
  {
    if r == Ten {
      AbbreviationTable();
    }
  }

  /** The four faces, CLUB = 1 through SPADE = 4. */
  datatype Face = Club | Diamond | Heart | Spade
  {
    function Value(): (v: int)
      ensures 1 <= v <= 4
    {
      match this
      case Club => 1 case Diamond => 2 case Heart => 3 case Spade => 4
    }

    /** "red" for DIAMOND and HEART, "black" for the others. */
    function Colour(): (s: string)
      ensures s == "red" || s == "black"
      ensures s == "red" <==> this in {Diamond, Heart}
    {
      if this == Diamond || this == Heart then "red" else "black"
    }

    /** The suit symbol: one character, defined for every face. */
    function Symbol(): (s: string)
      ensures |s| == 1
    {
      match this
      case Club => "\U{2663}"
      case Diamond => "\U{2666}"
      case Heart => "\U{2665}"
      case Spade => "\U{2660}"
    }
  }

  /** The members in definition order, as `list(Face)`. */
  const AllFaces: seq<Face> := [Club, Diamond, Heart, Spade]

  lemma AllFacesByValue(k: nat)
    requires k < 4
    ensures |AllFaces| == 4 && AllFaces[k].Value() == k + 1
  {
  }

  lemma FaceValueInjective(f1: Face, f2: Face)
    requires f1.Value() == f2.Value()
    ensures f1 == f2
  {
  }

  /** The symbol each face prints as. */
  lemma SymbolTable()
    ensures Club.Symbol() == "\U{2663}" && Diamond.Symbol() == "\U{2666}"
    ensures Heart.Symbol() == "\U{2665}" && Spade.Symbol() == "\U{2660}"
  {
  }

  /** No two faces share a symbol. */
  lemma SymbolInjective(f1: Face, f2: Face)
    requires f1.Symbol() == f2.Symbol()
    ensures f1 == f2
  {
    assert f1.Symbol()[0] == f2.Symbol()[0];
  }

  /** A face is red exactly when its symbol is a red suit's. */
  lemma ColourMatchesSymbol(f: Face)
    ensures f.Colour() == "red" <==> f.Symbol() in {"\U{2666}", "\U{2665}"}
  {
  }

  /** A physical card. Equality includes the identity token, so two cards of
      the same rank and face built by two constructions are different. */
  datatype Card = Card(rank: Rank, face: Face, id: Token)
  {
    /** The rank's abbreviation followed by the face's symbol. */
    function Abbreviation(): (s: string)
      ensures |s| == 2 || |s| == 3
      ensures s[..|s| - 1] == rank.Abbreviation() && s[|s| - 1..] == face.Symbol()
    {
      rank.Abbreviation() + face.Symbol()
    }
  }

  /** Two cards print the same exactly when they have the same rank and
      face, whatever their identities. */
  lemma CardAbbreviationIff(c1: Card, c2: Card)
    ensures c1.Abbreviation() == c2.Abbreviation()
        <==> c1.rank == c2.rank && c1.face == c2.face
  {
    var a1, a2 := c1.Abbreviation(), c2.Abbreviation();
    if a1 == a2 {
      AbbreviationInjective(c1.rank, c2.rank);
      SymbolInjective(c1.face, c2.face);
    }
  }

  /** `Card(rank, face)`: a new card with a fresh identity. */
  method NewCard(rank: Rank, face: Face, ids: IdentitySource) returns (c: Card)
    requires ids.Valid()
    modifies ids
    ensures ids.Valid()
    ensures c.rank == rank && c.face == face
    ensures c.id !in old(ids.issued) && ids.issued == old(ids.issued) + {c.id}
    ensures c.id == old(ids.next) && ids.next == old(ids.next) + 1
  {
    var t := ids.Fresh();
    c := Card(rank, face, t);
  }

  /** Two constructions with the same rank and face give unequal cards. */
  method SameRankAndFaceAreDistinct(ids: IdentitySource) returns (c1: Card, c2: Card)
    requires ids.Valid()
    modifies ids
    ensures ids.Valid()
    ensures c1.rank == c2.rank == Ace && c1.face == c2.face == Heart
    ensures c1 != c2
  {
    c1 := NewCard(Ace, Heart, ids);
    c2 := NewCard(Ace, Heart, ids);
  }

  /** When a deck shuffles. `Deck` is a constructor name both here and as the
      class below, so it is always written `CardShuffle.Deck`. */
  datatype CardShuffle = Deck | Shoe | DeckAndShoe

  /** The deck shuffles itself for modes Deck and DeckAndShoe; with no mode
      or mode Shoe it keeps the canonical order. */
  function ShufflesDeck(mode: Option<CardShuffle>): (b: bool)
    ensures b <==> mode.Some? && mode.value != Shoe
  {
    match mode
    case None => false
    case Some(m) => m == CardShuffle.Deck || m == CardShuffle.DeckAndShoe
  }

  /** The 52 cards a new deck is built with: card `i` takes the `i`-th
      (face, rank) pair of `product(list(Face), list(Rank))` and the `i`-th
      identity issued from `first` on (`CanonicalIsProduct`). */
  function CanonicalCards(first: Token): (cs: seq<Card>)
    ensures |cs| == 52
    ensures forall i :: 0 <= i < 52 ==> cs[i].id == first + i
  {
    seq(52, i requires 0 <= i < 52 => Card(AllRanks[i % 13], AllFaces[i / 13], first + i))
  }

  /** The cards of a new deck carry the identities issued for it. */
  lemma CanonicalIds(first: Token, c: Card)
    requires c in CanonicalCards(first)
    ensures first <= c.id < first + 52
  {
    var i :| 0 <= i < 52 && CanonicalCards(first)[i] == c;
  }

  /** The new deck is the list comprehension over the product. */
  lemma CanonicalIsProduct(first: Token, i: nat)
    requires i < 52
    ensures |Product(AllFaces, AllRanks)| == 52
    ensures CanonicalCards(first)[i]
         == Card(Product(AllFaces, AllRanks)[i].1, Product(AllFaces, AllRanks)[i].0, first + i)
  {
    var q, j := i / 13, i % 13;
    ProductAt(AllFaces, AllRanks, q, j, i);
  }

  /** Card `i` of a new deck has face `i / 13 + 1` and rank `i % 13 + 1`. */
  lemma CanonicalCardAt(first: Token, i: nat)
    requires i < 52
    ensures CanonicalCards(first)[i].face.Value() == i / 13 + 1
    ensures CanonicalCards(first)[i].rank.Value() == i % 13 + 1
  {
    var q, j := i / 13, i % 13;
    AllFacesByValue(q);
    AllRanksByValue(j);
  }

  /** The index of the pair (r, f) in a new deck. */
  function PairIndex(r: Rank, f: Face): (k: nat)
    ensures k < 52
  {
    (f.Value() - 1) * 13 + (r.Value() - 1)
  }

  lemma CanonicalHasPair(first: Token, r: Rank, f: Face)
    ensures CanonicalCards(first)[PairIndex(r, f)].rank == r
    ensures CanonicalCards(first)[PairIndex(r, f)].face == f
  {
    var k := PairIndex(r, f);
    DivModThirteen(f.Value() - 1, r.Value() - 1);
    CanonicalCardAt(first, k);
    RankValueInjective(CanonicalCards(first)[k].rank, r);
    FaceValueInjective(CanonicalCards(first)[k].face, f);
  }

  lemma CanonicalPairAt(first: Token, i: nat)
    requires i < 52
    ensures i == PairIndex(CanonicalCards(first)[i].rank, CanonicalCards(first)[i].face)
  {
    CanonicalCardAt(first, i);
  }

  /** Each (rank, face) pair occurs in a new deck exactly once. */
  lemma CanonicalOnePerPair(first: Token, r: Rank, f: Face)
    ensures CanonicalCards(first)[PairIndex(r, f)].rank == r
    ensures CanonicalCards(first)[PairIndex(r, f)].face == f
    ensures forall i :: (0 <= i < 52 && CanonicalCards(first)[i].rank == r &&
                        CanonicalCards(first)[i].face == f) ==> i == PairIndex(r, f)
  {
    CanonicalHasPair(first, r, f);
    forall i | 0 <= i < 52 && CanonicalCards(first)[i].rank == r && CanonicalCards(first)[i].face == f
      ensures i == PairIndex(r, f)
    {
      CanonicalPairAt(first, i);
    }
  }

  /** The 52 cards of a new deck have 52 different identities. */
  lemma CanonicalDistinct(first: Token)
    ensures Distinct(CanonicalCards(first))
  {
  }

  /** The cards already dealt and the cards still in the deck are, together,
      the cards the deck was built with. */
  ghost predicate Accounted(dealt: seq<Card>, cards: seq<Card>, built: seq<Card>) {
    multiset(dealt) + multiset(cards) == multiset(built)
  }

  /** In a deck built as a new one, no card is dealt twice, or both dealt
      and still in the deck. */
  lemma AccountedNoCardTwice(dealt: seq<Card>, cards: seq<Card>, first: Token)
    requires Accounted(dealt, cards, CanonicalCards(first))
    ensures Distinct(dealt + cards)
  {
    CanonicalDistinct(first);
    assert multiset(dealt + cards) == multiset(dealt) + multiset(cards);
    DistinctPermutation(dealt + cards, CanonicalCards(first));
  }

  /** Two cards of a new deck with the same rank and face are the same card. */
  lemma CanonicalSamePairSameCard(first: Token, x: Card, y: Card)
    requires x in CanonicalCards(first) && y in CanonicalCards(first)
    ensures x.rank == y.rank && x.face == y.face ==> x == y
  {
    var cs := CanonicalCards(first);
    var a :| 0 <= a < 52 && cs[a] == x;
    var b :| 0 <= b < 52 && cs[b] == y;
    CanonicalOnePerPair(first, x.rank, x.face);
  }

  /** In a deck built as a new one, no two cards among those dealt and those
      still in the deck share both rank and face. */
  lemma AccountedOnePerPair(dealt: seq<Card>, cards: seq<Card>, first: Token, i: nat, j: nat)
    requires Accounted(dealt, cards, CanonicalCards(first))
    requires i < j < |dealt + cards|
    ensures (dealt + cards)[i].rank != (dealt + cards)[j].rank
         || (dealt + cards)[i].face != (dealt + cards)[j].face
  {
    var s := dealt + cards;
    AccountedNoCardTwice(dealt, cards, first);
    assert multiset(s) == multiset(dealt) + multiset(cards);
    assert s[i] in multiset(s) && s[j] in multiset(s);
    CanonicalSamePairSameCard(first, s[i], s[j]);
  }

  /** In a deck built as a new one, every (rank, face) pair is either dealt
      or still in the deck. */
  lemma AccountedCoversEveryPair(dealt: seq<Card>, cards: seq<Card>, first: Token, r: Rank, f: Face)
    requires Accounted(dealt, cards, CanonicalCards(first))
    ensures exists c :: c in dealt + cards && c.rank == r && c.face == f
  {
    CanonicalHasPair(first, r, f);
    var c := CanonicalCards(first)[PairIndex(r, f)];
    assert c in multiset(CanonicalCards(first));
    assert multiset(dealt + cards) == multiset(dealt) + multiset(cards);
    assert c in multiset(dealt + cards);
  }

  /** A standard deck. `cards` is the list the source pops from; `built`
      and `dealt` are the model's record of the cards the deck was built with
      and of those it has handed out, in order. */
  class Deck {
    const shuffle: Option<CardShuffle>
    var cards: seq<Card>
    var shuffled: bool
    ghost const first: Token
    ghost const built: seq<Card>
    ghost var dealt: seq<Card>

    ghost predicate Valid()
      reads this
    {
      built == CanonicalCards(first) && Accounted(dealt, cards, built)
    }

    /** Builds the canonical 52 cards with fresh identities, then shuffles
        them when the mode asks for a deck-level shuffle. */
    constructor (cardShuffle: Option<CardShuffle>, ids: IdentitySource)
      requires ids.Valid()
      modifies ids
      ensures ids.Valid()
      ensures forall c :: c in built ==> c.id !in old(ids.issued) && c.id in ids.issued
      ensures Valid() && dealt == [] && !shuffled && shuffle == cardShuffle
      ensures built == CanonicalCards(old(ids.next)) && ids.next == old(ids.next) + 52
      ensures CardsRemaining() == 52
      ensures ShufflesDeck(cardShuffle) ==> multiset(cards) == multiset(built)
      ensures !ShufflesDeck(cardShuffle) ==> cards == built
    {
      shuffle := cardShuffle;
      var first := ids.Issue(52);
      var canonical := CanonicalCards(first);
      this.first := first;
      built := canonical;
      forall c | c in canonical
        ensures c.id !in old(ids.issued) && c.id in ids.issued
      {
        CanonicalIds(first, c);
      }
      cards := canonical;
      dealt := [];
      shuffled := false;
      new;
      if ShufflesDeck(shuffle) {
        ghost var orig := cards;
        ghost var picks := ShuffleCards();
      }
    }

    /** Moves a card at a random index of the remaining cards to a new list
        until none remain, then makes that list the deck. The random index is
        any valid one; `picks` records the choices made. The guard flag is
        never set, so every call shuffles. */
    method ShuffleCards() returns (ghost picks: seq<nat>)
      requires Valid()
      modifies this`cards
      ensures Valid()
      ensures old(shuffled) ==> cards == old(cards)
      ensures !old(shuffled) ==> ValidPicks(picks, |old(cards)|) && cards == ShuffleBy(old(cards), picks)
    {
      picks := [];
      if !shuffled {
        ghost var orig := cards;
        var shuffledCards: seq<Card> := [];
        while CanDrawCard()
          invariant PicksFit(picks, |orig|)
          invariant Steps(orig, picks) == (cards, shuffledCards)
          decreases |cards|
        {
          var i :| 0 <= i < CardsRemaining();
          ghost var before := picks;
          shuffledCards := shuffledCards + [cards[i]];
          cards := RemoveAt(cards, i);
          picks := picks + [i];
          assert picks[..|picks| - 1] == before;
        }
        cards := shuffledCards;
        assert cards == ShuffleBy(orig, picks);
      }
    }

    /** Pops and returns the first card, or returns None on an empty deck. */
    method DrawCard() returns (c: Option<Card>)
      requires Valid()
      modifies this`cards, this`dealt
      ensures Valid()
      ensures old(cards) == [] ==> c == None && cards == old(cards) && dealt == old(dealt)
      ensures old(cards) != [] ==> c == Some(old(cards)[0]) && cards == old(cards)[1..]
                                   && dealt == old(dealt) + [old(cards)[0]]
      ensures CardsRemaining() == if old(cards) == [] then 0 else old(CardsRemaining()) - 1
    {
      if CanDrawCard() {
        assert cards == [cards[0]] + cards[1..];
        c := Some(cards[0]);
        dealt := dealt + [cards[0]];
        cards := cards[1..];
      } else {
        c := None;
      }
    }

    /** Whether a card can be drawn. */
    function CanDrawCard(): (b: bool)
      reads this
      ensures b <==> CardsRemaining() > 0
    {
      |cards| > 0
    }

    /** The number of cards still in the deck. */
    function CardsRemaining(): (n: nat)
      reads this
      ensures n == 0 <==> cards == []
    {
      |cards|
    }

    /** One step of iteration: the next card, or None where the source raises
        StopIteration. */
    method Next() returns (c: Option<Card>)
      requires Valid()
      modifies this`cards, this`dealt
      ensures Valid()
      ensures c.Some? <==> old(CanDrawCard())
      ensures old(cards) == [] ==> cards == old(cards) && dealt == old(dealt)
      ensures old(cards) != [] ==> c == Some(old(cards)[0]) && cards == old(cards)[1..]
                                   && dealt == old(dealt) + [old(cards)[0]]
    {
      if CanDrawCard() {
        c := DrawCard();
      } else {
        c := None;
      }
    }
  }

  /** Draws while a card can be drawn: the deck ends empty, and the cards come
      out in the order the deck held them. */
  method DrainDeck(d: Deck) returns (drawn: seq<Card>)
    requires d.Valid()
    modifies d`cards, d`dealt
    ensures d.Valid() && d.CardsRemaining() == 0 && !d.CanDrawCard()
    ensures drawn == old(d.cards) && d.dealt == old(d.dealt) + drawn
  {
    drawn := [];
    while d.CanDrawCard()
      invariant d.Valid()
      invariant old(d.cards) == drawn + d.cards
      invariant d.dealt == old(d.dealt) + drawn
      decreases |d.cards|
    {
      var c := d.DrawCard();
      drawn := drawn + [c.value];
    }
  }

  /** Iterates the deck to exhaustion: the same cards, and the iteration
      stops exactly when the deck is empty. */
  method Collect(d: Deck) returns (drawn: seq<Card>)
    requires d.Valid()
    modifies d`cards, d`dealt
    ensures d.Valid() && d.CardsRemaining() == 0
    ensures drawn == old(d.cards) && d.dealt == old(d.dealt) + drawn
  {
    drawn := [];
    while true
      invariant d.Valid()
      invariant old(d.cards) == drawn + d.cards
      invariant d.dealt == old(d.dealt) + drawn
      decreases |d.cards|
    {
      var c := d.Next();
      if c.None? {
        break;
      }
      drawn := drawn + [c.value];
    }
  }

  /** A deck built with no shuffle mode deals the 52 canonical cards in
      order, one per (rank, face) pair. */
  method DealUnshuffledDeck(ids: IdentitySource) returns (drawn: seq<Card>)
    requires ids.Valid()
    modifies ids
    ensures ids.Valid()
    ensures |drawn| == 52 && drawn == CanonicalCards(old(ids.next))
  {
    var d := new Deck(None, ids);
    drawn := DrainDeck(d);
  }

  /** A shuffled deck deals a permutation of the 52 canonical cards. */
  method DealShuffledDeck(ids: IdentitySource) returns (drawn: seq<Card>)
    requires ids.Valid()
    modifies ids
    ensures ids.Valid()
    ensures |drawn| == 52 && multiset(drawn) == multiset(CanonicalCards(old(ids.next)))
  {
    var d := new Deck(Some(CardShuffle.Deck), ids);
    drawn := DrainDeck(d);
  }

  /** Two decks built from one identity supply share no card, since every
      card carries an identity issued for it alone. */
  method TwoDecksShareNoCard(mode1: Option<CardShuffle>, mode2: Option<CardShuffle>, ids: IdentitySource)
    returns (d1: Deck, d2: Deck)
    requires ids.Valid()
    modifies ids
    ensures ids.Valid() && d1.Valid() && d2.Valid()
    ensures forall c :: c in d1.cards ==> c !in d2.cards
  {
    d1 := new Deck(mode1, ids);
    ghost var between := ids.issued;
    d2 := new Deck(mode2, ids);
    forall c | c in d1.cards
      ensures c !in d2.cards
    {
      assert c in multiset(d1.cards);
      assert c.id in between;
      assert c !in d2.built;
      assert c !in multiset(d2.cards);
    }
  }

  /** Every valid deck accounts for exactly 52 cards, dealt or remaining. */
  lemma DeckCount(d: Deck)
    requires d.Valid()
    ensures |d.dealt| + |d.cards| == 52
  {
    assert |multiset(d.dealt) + multiset(d.cards)| == |multiset(d.built)|;
  }

  /** In every valid deck, no two cards among those dealt and those remaining
      share both rank and face. */
  lemma DeckOnePerPair(d: Deck, i: nat, j: nat)
    requires d.Valid() && i < j < |d.dealt + d.cards|
    ensures (d.dealt + d.cards)[i].rank != (d.dealt + d.cards)[j].rank
         || (d.dealt + d.cards)[i].face != (d.dealt + d.cards)[j].face
  {
    AccountedOnePerPair(d.dealt, d.cards, d.first, i, j);
  }

  /** In every valid deck, each (rank, face) pair is dealt or remaining. */
  lemma DeckCoversEveryPair(d: Deck, r: Rank, f: Face)
    requires d.Valid()
    ensures exists c :: c in d.dealt + d.cards && c.rank == r && c.face == f
  {
    AccountedCoversEveryPair(d.dealt, d.cards, d.first, r, f);
  }
}
