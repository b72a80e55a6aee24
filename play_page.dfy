/** The play page: reads the saved game configuration, turns it into the
    filters of `getCharacters`, and renders either a redirect to the setup
    form, the "no characters found" state, or the card stack. */
module PlayPage {
  import opened Types
  import opened Seqs
  import opened Db
  import Js
  import opened Actions

  /** Where `redirect` sends a visitor without a configuration. */
  const SetupPath: string := "/"

  /** What `PlayContent` renders. */
  datatype Page =
    | Redirect(location: string)
    | NoCharacters
    | Game(initialCharacters: seq<CharacterWithRelations>)

  /** The cards `getCharacters` deals for `config` with the draws `rand`:
      the characters matching the non-empty selections, shuffled, then cut
      to the limit. */
  function Dealt(db: Snapshot, config: GameConfig, rand: seq<real>): (r: seq<CharacterWithRelations>)
    requires |db.characters| <= |rand| + 1 && Js.Draws(rand)
    ensures multiset(r) <= multiset(QueryCharacters(db, AsFilter(config.genders), AsFilter(config.animes)))
  {
    QueryFitsDraws(db, AsFilter(config.genders), AsFilter(config.animes), rand);
    var shuffled := Shuffled(QueryCharacters(db, AsFilter(config.genders), AsFilter(config.animes)), rand);
    PrefixMultiset(ApplyLimit(shuffled, config.limit), shuffled);
    ApplyLimit(shuffled, config.limit)
  }

  /** A query never returns more rows than the table holds. */
  lemma QueryFitsDraws(db: Snapshot, genders: Option<seq<string>>, names: Option<seq<string>>, rand: seq<real>)
    requires |db.characters| <= |rand| + 1
    ensures |QueryCharacters(db, genders, names)| <= |rand| + 1
  {
    SubsequenceLength(SelectCharacters(db.animes, db.characters, genders, names), db.characters);
  }

  /** The character rows a configuration selects. */
  predicate Chosen(db: Snapshot, config: GameConfig, c: CharacterRow) {
    c in db.characters && Selected(db.animes, AsFilter(config.genders), AsFilter(config.animes), c)
  }

  /** `PlayContent()` once `getGameConfig()` has answered `config`: no
      configuration redirects to the setup form; otherwise the page shows the
      empty state exactly when no character matches the selections, and the
      stack of the dealt cards otherwise. */
  method PlayContent(config: Option<GameConfig>, db: Snapshot, rand: seq<real>) returns (page: Page)
    requires |db.characters| <= |rand| + 1 && Js.Draws(rand)
    ensures config.None? <==> page == Redirect(SetupPath)
    ensures config.Some? ==> (page == NoCharacters <==> forall c :: c in db.characters ==> !Chosen(db, config.value, c))
    ensures config.Some? && page != NoCharacters ==> page == Game(Dealt(db, config.value, rand))
    ensures page.Game? ==> |page.initialCharacters| > 0
  {
    if config.None? {
      return Redirect(SetupPath);
    }
    var c := config.value;
    var animeNames := AsFilter(c.animes);
    var genders := AsFilter(c.genders);
    var limit := c.limit;
    QueryFitsDraws(db, genders, animeNames, rand);
    var characters := GetCharacters(db, genders, animeNames, limit, rand);
    DealtEmptyIffNoMatch(db, c, rand);
    if |characters| == 0 {
      return NoCharacters;
    }
    return Game(characters);
  }

  /** The deal is empty exactly when no character matches the selections:
      a positive limit never cuts a non-empty list down to nothing. */
  lemma DealtEmptyIffNoMatch(db: Snapshot, config: GameConfig, rand: seq<real>)
    requires |db.characters| <= |rand| + 1 && Js.Draws(rand)
    ensures Dealt(db, config, rand) == [] <==> forall c :: c in db.characters ==> !Chosen(db, config, c)
  {
    var rows := SelectCharacters(db.animes, db.characters, AsFilter(config.genders), AsFilter(config.animes));
    QueryFitsDraws(db, AsFilter(config.genders), AsFilter(config.animes), rand);
    var q := QueryCharacters(db, AsFilter(config.genders), AsFilter(config.animes));
    assert |q| == |rows|;
    if rows != [] {
      assert rows[0] in rows;
      assert Chosen(db, config, rows[0]);
    }
  }

  /** Every dealt card is a character the configuration selects, loaded with
      its images and anime, and there are never more cards than characters. */
  lemma DealtAreChosen(db: Snapshot, config: GameConfig, rand: seq<real>)
    requires |db.characters| <= |rand| + 1 && Js.Draws(rand)
    ensures forall card :: card in Dealt(db, config, rand) ==>
              Chosen(db, config, card.character) && card == WithRelations(db, card.character)
    ensures |Dealt(db, config, rand)| <= |db.characters|
  {
    var genders := AsFilter(config.genders);
    var names := AsFilter(config.animes);
    var rows := SelectCharacters(db.animes, db.characters, genders, names);
    QueryFitsDraws(db, genders, names, rand);
    var q := QueryCharacters(db, genders, names);
    var s := Shuffled(q, rand);
    var d := Dealt(db, config, rand);
    assert d <= s;
    forall card | card in d
      ensures Chosen(db, config, card.character) && card == WithRelations(db, card.character)
    {
      assert card in multiset(s);
      assert card in multiset(q);
      var i :| 0 <= i < |q| && q[i] == card;
      assert rows[i] in rows;
    }
    SubsequenceLength(rows, db.characters);
  }

  /** With no anime and no gender selected, and no positive limit, the stack
      holds every character of the table exactly once. */
  lemma NoSelectionDealsEveryone(db: Snapshot, config: GameConfig, rand: seq<real>)
    requires |db.characters| <= |rand| + 1 && Js.Draws(rand)
    requires config.animes == [] && config.genders == []
    requires config.limit.None? || config.limit.value <= 0
    ensures |Dealt(db, config, rand)| == |db.characters|
    ensures multiset(Dealt(db, config, rand))
            == multiset(seq(|db.characters|, i requires 0 <= i < |db.characters| => WithRelations(db, db.characters[i])))
  {
    NoFiltersSelectAll(db.animes, db.characters, AsFilter(config.genders), AsFilter(config.animes));
    QueryFitsDraws(db, AsFilter(config.genders), AsFilter(config.animes), rand);
    var q := QueryCharacters(db, AsFilter(config.genders), AsFilter(config.animes));
    assert q == seq(|db.characters|, i requires 0 <= i < |db.characters| => WithRelations(db, db.characters[i]));
  }

  /** A null (or non-positive) limit cuts nothing: every matching character
      is dealt, each exactly once. */
  lemma NoLimitDealsAllMatches(db: Snapshot, config: GameConfig, rand: seq<real>)
    requires |db.characters| <= |rand| + 1 && Js.Draws(rand)
    requires config.limit.None? || config.limit.value <= 0
    ensures |Dealt(db, config, rand)|
            == |SelectCharacters(db.animes, db.characters, AsFilter(config.genders), AsFilter(config.animes))|
    ensures multiset(Dealt(db, config, rand))
            == multiset(QueryCharacters(db, AsFilter(config.genders), AsFilter(config.animes)))
  {
    QueryFitsDraws(db, AsFilter(config.genders), AsFilter(config.animes), rand);
  }

  /** A positive limit deals that many cards, or all of them when fewer
      match. */
  lemma LimitCapsTheDeal(db: Snapshot, config: GameConfig, rand: seq<real>, n: int)
    requires |db.characters| <= |rand| + 1 && Js.Draws(rand)
    requires config.limit == Some(n) && n > 0
    ensures |Dealt(db, config, rand)|
            == if n < |SelectCharacters(db.animes, db.characters, AsFilter(config.genders), AsFilter(config.animes))|
               then n
               else |SelectCharacters(db.animes, db.characters, AsFilter(config.genders), AsFilter(config.animes))|
  {
    QueryFitsDraws(db, AsFilter(config.genders), AsFilter(config.animes), rand);
  }

  // ---------------------------------------------------------------------
  // Reading the configuration as written

  /** How far `PlayContent` gets with the value `getGameConfig` returns as
      written, before any character is fetched. */
  datatype Start = Redirects | Throws | ReadsSelection

  /** JavaScript truthiness of a parsed value. */
  predicate JsonTruthy(j: Json) {
    match j
    case JNull => false
    case JBool(b) => b
    case JNumber(n) => n != 0
    case JString(s) => s != ""
    case JArray(_) => true
    case JObject(_) => true
  }

  /** `config.key`: an object's property, `undefined` on anything else. */
  function Member(j: Json, key: string): Option<Json> {
    if j.JObject? then Property(j.fields, key) else None
  }

  /** Reading `.length` of `undefined` or `null` throws. */
  predicate LengthThrows(v: Option<Json>) {
    v.None? || v == Some(JNull)
  }

  /** The first lines of `PlayContent` on an unchecked value: a falsy value
      (or none) redirects, and a truthy one lacking `animes` or `genders`
      throws a `TypeError` at `config.animes.length`. */
  function StartAsWritten(config: Option<Json>): (r: Start)
    ensures r == Redirects <==> config.None? || !JsonTruthy(config.value)
    ensures r == Throws <==> config.Some? && JsonTruthy(config.value)
                             && (LengthThrows(Member(config.value, "animes")) || LengthThrows(Member(config.value, "genders")))
  {
    if config.None? || !JsonTruthy(config.value) then Redirects
    else if LengthThrows(Member(config.value, "animes")) || LengthThrows(Member(config.value, "genders")) then Throws
    else ReadsSelection
  }

  /** The cookie `{}`: parsed, it passes the unchecked `as GameConfig` cast
      and the page throws; with the checked read it is no configuration and
      the page redirects to the setup form. */
  lemma EmptyObjectCookie(parse: string -> Option<Json>)
    requires parse("{}") == Some(JObject([]))
    ensures StartAsWritten(GetGameConfigAsWritten(Some("{}"), parse)) == Throws
    ensures GetGameConfig(Some("{}"), parse) == None
  {
  }

  /** With the checked read, a value that reaches the selection code always
      has both lists, so no cookie makes the page throw there: every cookie
      either redirects or yields a configuration. */
  lemma CheckedReadNeverThrows(cookie: Option<string>, parse: string -> Option<Json>)
    ensures GetGameConfig(cookie, parse).Some? ==>
              StartAsWritten(GetGameConfigAsWritten(cookie, parse)) == ReadsSelection
  {
    var j := GetGameConfigAsWritten(cookie, parse);
    if GetGameConfig(cookie, parse).Some? {
      var c := GetGameConfig(cookie, parse).value;
      assert j == Some(j.value);
      assert DecodeConfig(j.value) == Some(c);
      assert Member(j.value, "animes") == Some(StringsJson(c.animes));
      assert Member(j.value, "genders") == Some(StringsJson(c.genders));
    }
  }
}
