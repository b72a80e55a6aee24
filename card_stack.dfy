/** The deck of one game session: the cards still to rate, the running
    smash / pass / kill summary and the votes the session has sent. */
module CardStack {
  import opened Types
  import opened Seqs
  import opened Db
  import Actions

  /** `typeMap`: which vote each swipe direction casts. */
  function TypeMap(d: SwipeDirection): (t: VoteType)
    ensures t == Smash <==> d == Left
    ensures t == Pass <==> d == Right
    ensures t == Kill <==> d == Up
  {
    match d
    case Left => Smash
    case Right => Pass
    case Up => Kill
  }

  /** No two directions cast the same vote, and every vote has a direction. */
  lemma TypeMapBijective(a: SwipeDirection, b: SwipeDirection, t: VoteType)
    ensures TypeMap(a) == TypeMap(b) ==> a == b
    ensures exists d :: TypeMap(d) == t
  {
    match t
    case Smash => assert TypeMap(Left) == t;
    case Pass => assert TypeMap(Right) == t;
    case Kill => assert TypeMap(Up) == t;
  }

  function CardId(c: CharacterWithRelations): Id {
    c.character.id
  }

  /** `prev.filter((c) => c.id !== id)` */
  function RemoveCard(cards: seq<CharacterWithRelations>, id: Id): (r: seq<CharacterWithRelations>)
    ensures forall c :: c in r <==> c in cards && CardId(c) != id
    ensures IsSubsequence(r, cards)
    ensures (exists c :: c in cards && CardId(c) == id) ==> |r| < |cards|
    ensures (forall c :: c in cards ==> CardId(c) != id) ==> r == cards
    decreases |cards|
  {
    if |cards| == 0 then []
    else
      var rest := RemoveCard(cards[1..], id);
      SubsequenceLength(rest, cards[1..]);
      if CardId(cards[0]) == id then
        SubsequenceOfTail(rest, cards);
        rest
      else
        assert forall c :: c in cards && CardId(c) == id ==> c in cards[1..];
        [cards[0]] + rest
  }

  /** Removing a card twice is removing it once. */
  lemma RemoveCardIdempotent(cards: seq<CharacterWithRelations>, id: Id)
    ensures RemoveCard(RemoveCard(cards, id), id) == RemoveCard(cards, id)
  {
  }

  /** A card as the stack renders it: the character and whether it is the
      active (top) card. */
  datatype Shown = Shown(character: CharacterWithRelations, active: bool)

  /** The number of cards rendered at once. */
  const WindowSize: nat := 3

  /** `cards.slice(0, 3).map((character, index) => ... active={index === 0})` */
  function Window(cards: seq<CharacterWithRelations>): (r: seq<Shown>)
    ensures |r| == if |cards| < WindowSize then |cards| else WindowSize
    ensures forall i :: 0 <= i < |r| ==> r[i].character == cards[i]
    ensures forall i :: 0 <= i < |r| ==> (r[i].active <==> i == 0)
  {
    var n := if |cards| < WindowSize then |cards| else WindowSize;
    seq(n, i requires 0 <= i < n => Shown(cards[i], i == 0))
  }

  /** Exactly one card is active while any is left, and it is the first. */
  lemma OneActiveCard(cards: seq<CharacterWithRelations>)
    ensures |cards| > 0 ==> |Window(cards)| > 0 && Window(cards)[0] == Shown(cards[0], true)
    ensures forall i :: 0 < i < |Window(cards)| ==> !Window(cards)[i].active
    ensures |cards| == 0 ==> Window(cards) == []
  {
  }

  class Stack {
    /** `initialCharacters` */
    const initial: seq<CharacterWithRelations>
    var cards: seq<CharacterWithRelations>
    var stats: VoteCounts
    /** The votes passed to `submitVote`, oldest first. */
    var submitted: seq<VoteRow>

    /** The deck only loses cards, keeping the initial order; the summary
        counts exactly the votes sent, each from the anonymous session. */
    ghost predicate Valid()
      reads this
    {
      && IsSubsequence(cards, initial)
      && (forall t :: stats.Get(t) == Actions.CountOfType(submitted, t))
      && (forall v :: v in submitted ==> v.sessionId == AnonymousSession)
    }

    constructor (initialCharacters: seq<CharacterWithRelations>)
      ensures initial == initialCharacters && cards == initialCharacters
      ensures stats == NoVotes && submitted == []
      ensures Valid()
    {
      initial := initialCharacters;
      cards := initialCharacters;
      stats := NoVotes;
      submitted := [];
      SubsequenceOfItself(initialCharacters);
    }

    /** `total` */
    function Total(): nat
      reads this
    {
      |initial|
    }

    /** `remaining` */
    function Remaining(): (r: nat)
      reads this
      requires Valid()
      ensures r <= Total()
    {
      SubsequenceLength(cards, initial);
      |cards|
    }

    /** `total - remaining`: how many cards have left the deck. */
    function Rated(): (r: nat)
      reads this
      requires Valid()
      ensures r + Remaining() == Total()
    {
      Total() - Remaining()
    }

    /** `progress`, the share of the deck rated, in percent. */
    function Progress(): (p: real)
      reads this
      requires Valid()
      ensures Total() == 0 ==> p == 0.0
      ensures 0.0 <= p <= 100.0
      ensures Remaining() == 0 && Total() > 0 ==> p == 100.0
    {
      if Total() > 0 then
        var share := (Rated() as real) / (Total() as real);
        assert 0.0 <= share <= 1.0 && (Remaining() == 0 ==> share == 1.0) by {
          ShareBounds(Rated(), Total());
        }
        share * 100.0
      else 0.0
    }

    /** `handleSwipe(id, direction)`: the summary counts the vote, the vote
        is sent, and every card of that character leaves the deck. */
    method HandleSwipe(id: Id, direction: SwipeDirection)
      requires Valid()
      modifies this
      ensures Valid()
      ensures stats == old(stats).Inc(TypeMap(direction))
      ensures submitted == old(submitted) + [VoteRow(id, TypeMap(direction), AnonymousSession)]
      ensures cards == RemoveCard(old(cards), id)
    {
      var t := TypeMap(direction);
      stats := stats.Inc(t);
      ghost var before := submitted;
      submitted := submitted + [VoteRow(id, t, AnonymousSession)];
      assert submitted[..|submitted| - 1] == before;
      ghost var deck := cards;
      cards := RemoveCard(cards, id);
      SubsequenceTransitive(cards, deck, initial);
    }
  }

  lemma ShareBounds(part: nat, whole: nat)
    requires 0 < whole && part <= whole
    ensures 0.0 <= (part as real) / (whole as real) <= 1.0
    ensures part == whole ==> (part as real) / (whole as real) == 1.0
  {
  }

  /** The summary a finished session shows agrees with the vote statistics
      of the votes it sent. */
  lemma SummaryMatchesVoteStats(s: Stack)
    requires s.Valid()
    ensures Actions.GetVoteStats(s.submitted)
            == Actions.VoteStats(s.stats.Sum(), s.stats.smash, s.stats.pass, s.stats.kill)
  {
    Actions.VoteStatsAddUp(s.submitted);
    assert s.stats.Get(Smash) == s.stats.smash;
    assert s.stats.Get(Pass) == s.stats.pass;
    assert s.stats.Get(Kill) == s.stats.kill;
  }

  /** Swiping the top card always takes it out of the deck. */
  method SwipeTop(s: Stack, direction: SwipeDirection)
    requires s.Valid() && |s.cards| > 0
    modifies s
    ensures s.Valid()
    ensures s.Remaining() < old(s.Remaining())
    ensures s.Rated() > old(s.Rated())
  {
    var top := Window(s.cards)[0].character;
    s.HandleSwipe(CardId(top), direction);
  }
}
