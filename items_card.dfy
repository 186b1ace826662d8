/**
 The second, value-only card layer: the `CardRank` and `CardFace`
 enumerations, the frozen `Card` record and the frozen `Deck` record whose
 default contents are the 52 cards of the product of faces and ranks.
 */
module ItemsCard {
  import opened Decimal
  import opened Sequences
  import opened Identity

  /** The thirteen ranks, ACE = 1 through KING = 13. */
  datatype CardRank =
    | Ace | Two | Three | Four | Five | Six | Seven
    | Eight | Nine | Ten | Jack | Queen | King
  {
    function Value(): (v: int)
      ensures 1 <= v <= 13
    {
      match this
      case Ace => 1 case Two => 2 case Three => 3 case Four => 4
      case Five => 5 case Six => 6 case Seven => 7 case Eight => 8
      case Nine => 9 case Ten => 10 case Jack => 11 case Queen => 12
      case King => 13
    }

    /** The member's name. */
    function Name(): (s: string)
      ensures |s| >= 3 && forall k :: 0 <= k < |s| ==> 'A' <= s[k] <= 'Z'
    {
      match this
      case Ace => "ACE" case Two => "TWO" case Three => "THREE"
      case Four => "FOUR" case Five => "FIVE" case Six => "SIX"
      case Seven => "SEVEN" case Eight => "EIGHT" case Nine => "NINE"
      case Ten => "TEN" case Jack => "JACK" case Queen => "QUEEN"
      case King => "KING"
    }

    /** Membership of the value in [1, 10, 11, 12, 13]: TEN counts as a
        picture card here too, although the doc comment leaves it out. */
    function IsPictureCard(): (b: bool)
      ensures b <==> this in {Ace, Ten, Jack, Queen, King}
    {
      Value() in [1, 10, 11, 12, 13]
    }

    /** The decimal value for TWO..TEN, the first letter of the name
        otherwise. */
    function AsAbbreviation(): (s: string)
      ensures 2 <= Value() <= 10 ==> AllDigits(s) && Parse(s) == Value()
      ensures !(2 <= Value() <= 10) ==> |s| == 1 && s[0] == Name()[0] && !IsDigit(s[0])
      ensures 1 <= |s| <= 2
    {
      if 2 <= Value() && Value() <= 10 then
        ParseShow(Value());
        Show(Value())
      else
        Name()[..1]
    }
  }

  /** `list(CardRank)`. */
  const AllCardRanks: seq<CardRank> :=
    [Ace, Two, Three, Four, Five, Six, Seven, Eight, Nine, Ten, Jack, Queen, King]

  lemma AllCardRanksByValue(k: nat)
    requires k < 13
    ensures |AllCardRanks| == 13 && AllCardRanks[k].Value() == k + 1
  {
  }

  lemma CardRankValueInjective(r1: CardRank, r2: CardRank)
    requires r1.Value() == r2.Value()
    ensures r1 == r2
  {
  }

  /** The abbreviation each rank prints as. */
  lemma AsAbbreviationTable()
    ensures Ace.AsAbbreviation() == "A" && Two.AsAbbreviation() == "2"
    ensures Three.AsAbbreviation() == "3" && Four.AsAbbreviation() == "4"
    ensures Five.AsAbbreviation() == "5" && Six.AsAbbreviation() == "6"
    ensures Seven.AsAbbreviation() == "7" && Eight.AsAbbreviation() == "8"
    ensures Nine.AsAbbreviation() == "9" && Ten.AsAbbreviation() == "10"
    ensures Jack.AsAbbreviation() == "J" && Queen.AsAbbreviation() == "Q"
    ensures King.AsAbbreviation() == "K"
  {
    assert Show(10) == Show(1) + [DigitChar(0)];
  }

  /** No two ranks share an abbreviation. */
  lemma AsAbbreviationInjective(r1: CardRank, r2: CardRank)
    requires r1.AsAbbreviation() == r2.AsAbbreviation()
    ensures r1 == r2
  {
    var a := r1.AsAbbreviation();
    if 2 <= r1.Value() <= 10 && 2 <= r2.Value() <= 10 {
      CardRankValueInjective(r1, r2);
    } else if !(2 <= r1.Value() <= 10) && !(2 <= r2.Value() <= 10) {
      assert r1.Name()[0] == a[0] == r2.Name()[0];
    } else {
      assert false;
    }
  }

  /** The four faces, CLUB = 1 through SPADE = 4. */
  datatype CardFace = Club | Diamond | Heart | Spade
  {
    function Value(): (v: int)
      ensures 1 <= v <= 4
    {
      match this
      case Club => 1 case Diamond => 2 case Heart => 3 case Spade => 4
    }

    /** "red" for DIAMOND and HEART, "black" for the others. */
    function Colour(): (s: string)
      ensures s == "red" || s == "black"
      ensures s == "red" <==> this in {Diamond, Heart}
    {
      if this == Diamond || this == Heart then "red" else "black"
    }

    /** The suit symbol; the if-chain covers every member, so the implicit
        `None` fall-through is unreachable. */
    function AsSymbol(): (s: string)
      ensures |s| == 1
    {
      match this
      case Club => "\U{2663}"
      case Diamond => "\U{2666}"
      case Heart => "\U{2665}"
      case Spade => "\U{2660}"
    }
  }

  /** `list(CardFace)`. */
  const AllCardFaces: seq<CardFace> := [Club, Diamond, Heart, Spade]

  lemma AllCardFacesByValue(k: nat)
    requires k < 4
    ensures |AllCardFaces| == 4 && AllCardFaces[k].Value() == k + 1
  {
  }

  lemma CardFaceValueInjective(f1: CardFace, f2: CardFace)
    requires f1.Value() == f2.Value()
    ensures f1 == f2
  {
  }

  /** The symbol each face prints as. */
  lemma AsSymbolTable()
    ensures Club.AsSymbol() == "\U{2663}" && Diamond.AsSymbol() == "\U{2666}"
    ensures Heart.AsSymbol() == "\U{2665}" && Spade.AsSymbol() == "\U{2660}"
  {
  }

  /** No two faces share a symbol. */
  lemma AsSymbolInjective(f1: CardFace, f2: CardFace)
    requires f1.AsSymbol() == f2.AsSymbol()
    ensures f1 == f2
  {
    assert f1.AsSymbol()[0] == f2.AsSymbol()[0];
  }

  /** A frozen card: rank, face and an identity token generated when the
      card is made. Equality compares all three. */
  datatype Card = Card(rank: CardRank, face: CardFace, uuid: Token)
  {
    /** The rank's abbreviation followed by the face's symbol. */
    function AsAbbreviation(): (s: string)
      ensures |s| == 2 || |s| == 3
      ensures s[..|s| - 1] == rank.AsAbbreviation() && s[|s| - 1..] == face.AsSymbol()
    {
      rank.AsAbbreviation() + face.AsSymbol()
    }
  }

  /** Two cards print the same exactly when they have the same rank and
      face. */
  lemma CardAsAbbreviationIff(c1: Card, c2: Card)
    ensures c1.AsAbbreviation() == c2.AsAbbreviation()
        <==> c1.rank == c2.rank && c1.face == c2.face
  {
    var a1, a2 := c1.AsAbbreviation(), c2.AsAbbreviation();
    if a1 == a2 {
      AsAbbreviationInjective(c1.rank, c2.rank);
      AsSymbolInjective(c1.face, c2.face);
    }
  }

  /** `Card(rank, face)` with the default identity factory. */
  method NewCard(rank: CardRank, face: CardFace, ids: IdentitySource) returns (c: Card)
    requires ids.Valid()
    modifies ids
    ensures ids.Valid()
    ensures c.rank == rank && c.face == face
    ensures c.uuid !in old(ids.issued) && ids.issued == old(ids.issued) + {c.uuid}
    ensures c.uuid == old(ids.next) && ids.next == old(ids.next) + 1
  {
    var t := ids.Fresh();
    c := Card(rank, face, t);
  }

  /** The default contents of a deck: card `i` takes the `i`-th (face, rank)
      pair of `product(list(CardFace), list(CardRank))` (`DefaultIsProduct`)
      and the `i`-th identity issued from `first` on. */
  function DefaultCards(first: Token): (cs: seq<Card>)
    ensures |cs| == 52
    ensures forall i :: 0 <= i < 52 ==> cs[i].uuid == first + i
  {
    seq(52, i requires 0 <= i < 52 => Card(AllCardRanks[i % 13], AllCardFaces[i / 13], first + i))
  }

  lemma DefaultIsProduct(first: Token, i: nat)
    requires i < 52
    ensures |Product(AllCardFaces, AllCardRanks)| == 52
    ensures DefaultCards(first)[i]
         == Card(Product(AllCardFaces, AllCardRanks)[i].1, Product(AllCardFaces, AllCardRanks)[i].0, first + i)
  {
    ProductAt(AllCardFaces, AllCardRanks, i / 13, i % 13, i);
  }

  /** The index of the pair (r, f) in the default contents. */
  function DefaultIndex(r: CardRank, f: CardFace): (k: nat)
    ensures k < 52
  {
    (f.Value() - 1) * 13 + (r.Value() - 1)
  }

  /** Each (rank, face) pair occurs in the default contents exactly once,
      at `DefaultIndex(r, f)`. */
  lemma DefaultOnePerPair(first: Token, r: CardRank, f: CardFace)
    ensures DefaultCards(first)[DefaultIndex(r, f)].rank == r
    ensures DefaultCards(first)[DefaultIndex(r, f)].face == f
    ensures forall i :: (0 <= i < 52 && DefaultCards(first)[i].rank == r &&
                        DefaultCards(first)[i].face == f) ==> i == DefaultIndex(r, f)
  {
    var cs := DefaultCards(first);
    var k := DefaultIndex(r, f);
    DivModThirteen(f.Value() - 1, r.Value() - 1);
    AllCardFacesByValue(k / 13);
    AllCardRanksByValue(k % 13);
    CardRankValueInjective(cs[k].rank, r);
    CardFaceValueInjective(cs[k].face, f);
    forall i | 0 <= i < 52 && cs[i].rank == r && cs[i].face == f
      ensures i == k
    {
      AllCardFacesByValue(i / 13);
      AllCardRanksByValue(i % 13);
    }
  }

  /** The 52 default cards have 52 different identities. */
  lemma DefaultDistinct(first: Token)
    ensures Distinct(DefaultCards(first))
  {
  }

  /** A frozen deck: only its list of cards. */
  datatype Deck = Deck(cards: seq<Card>)

  /** `Deck()` with the default factory: the 52 default cards, each with a
      fresh identity. */
  method NewDeck(ids: IdentitySource) returns (d: Deck)
    requires ids.Valid()
    modifies ids
    ensures ids.Valid()
    ensures forall c :: c in d.cards ==> c.uuid !in old(ids.issued) && c.uuid in ids.issued
    ensures d.cards == DefaultCards(old(ids.next)) && ids.next == old(ids.next) + 52
  {
    var first := ids.Issue(52);
    d := Deck(DefaultCards(first));
    forall c | c in d.cards
      ensures c.uuid !in old(ids.issued) && c.uuid in ids.issued
    {
      var i :| 0 <= i < 52 && d.cards[i] == c;
    }
  }
}
