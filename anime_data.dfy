/** Drawing one random character from the external catalog: the three
    fetchers reduced to what they return for an answered request, the
    candidate pool with its case-insensitive gender filter, and the card
    built from the chosen character with its fallbacks. */
module AnimeData {
  import opened Types
  import opened Catalog
  import opened Seqs
  import Js

  /** `MAX_PAGES`: the random pool is one of the first 50 pages. */
  const MaxPages: nat := 50

  /** `Math.floor(Math.random() * MAX_PAGES) + 1` for the draw `draw`. */
  function RandomPage(draw: real): (page: int)
    requires 0.0 <= draw < 1.0
    ensures 1 <= page <= MaxPages
  {
    Js.RandomIndex(draw, MaxPages) + 1
  }

  // ---------------------------------------------------------------------
  // Fetchers, once the request is answered

  /** `fetchRandomCharacters`: the page's characters, none on a failed call. */
  function RandomCharacters(response: Response<seq<Character>>): seq<Character> {
    match response
    case NotOk => []
    case Ok(characters) => characters
  }

  /** `fetchAnimeSearchResults`: the matching media, none on a failed call. */
  function SearchResults(response: Response<seq<Media>>): seq<Media> {
    match response
    case NotOk => []
    case Ok(media) => media
  }

  /** `fetchCharactersForAnime`: the cast, or null on a failed call. */
  function CharactersForAnime(response: Response<seq<Character>>): Option<seq<Character>> {
    match response
    case NotOk => None
    case Ok(characters) => Some(characters)
  }

  /** A failed call yields an empty list from the list fetchers and null from
      the per-anime one; an answered call yields its body unchanged. */
  lemma FetchersOnFailure(characters: Response<seq<Character>>, media: Response<seq<Media>>)
    ensures characters.NotOk? <==> CharactersForAnime(characters).None?
    ensures characters.NotOk? ==> RandomCharacters(characters) == []
    ensures media.NotOk? ==> SearchResults(media) == []
    ensures characters.Ok? ==> RandomCharacters(characters) == characters.body
                               && CharactersForAnime(characters) == Some(characters.body)
    ensures media.Ok? ==> SearchResults(media) == media.body
  {
  }

  // ---------------------------------------------------------------------
  // The candidate pool

  /** The optional arguments of `getRandomCharacter`. */
  datatype RandomOptions = RandomOptions(animeId: Option<int>, gender: Option<string>)

  /** The list the draw starts from: the anime's cast when a (non-zero)
      anime id is given, the random page otherwise. */
  function Candidates(options: RandomOptions, byAnime: Response<seq<Character>>, random: Response<seq<Character>>)
    : Option<seq<Character>>
  {
    if Js.NumTruthy(options.animeId) then CharactersForAnime(byAnime)
    else Some(RandomCharacters(random))
  }

  /** `(char.gender || "").toLowerCase() === target.toLowerCase()` */
  predicate GenderIs(c: Character, target: string) {
    Js.ToLower(Js.OrDefault(c.gender, "")) == Js.ToLower(target)
  }

  /** The gender filter of `getRandomCharacter`. */
  function FilterByGender(characters: seq<Character>, target: string): (r: seq<Character>)
    ensures forall c :: c in r <==> c in characters && GenderIs(c, target)
    ensures IsSubsequence(r, characters)
    decreases |characters|
  {
    if |characters| == 0 then []
    else
      var rest := FilterByGender(characters[1..], target);
      if GenderIs(characters[0], target) then [characters[0]] + rest
      else
        SubsequenceOfTail(rest, characters);
        rest
  }

  /** The filter ignores case on both sides: asking for "FEMALE" keeps the
      same characters as asking for "female". */
  lemma {:induction false} GenderFilterIgnoresCase(characters: seq<Character>, target: string)
    ensures FilterByGender(characters, Js.ToLower(target)) == FilterByGender(characters, target)
    decreases |characters|
  {
    Js.ToLowerIdempotent(target);
    if |characters| > 0 {
      GenderFilterIgnoresCase(characters[1..], target);
    }
  }

  /** The characters the draw chooses among: the candidates, narrowed to
      the requested gender when one is given. */
  function Pool(options: RandomOptions, byAnime: Response<seq<Character>>, random: Response<seq<Character>>)
    : (r: seq<Character>)
    ensures Candidates(options, byAnime, random).None? ==> r == []
    ensures Candidates(options, byAnime, random).Some? ==> IsSubsequence(r, Candidates(options, byAnime, random).value)
    ensures Js.Truthy(options.gender) ==> forall c :: c in r ==> GenderIs(c, options.gender.value)
    ensures Js.Truthy(options.gender) && Candidates(options, byAnime, random).Some?
            ==> r == FilterByGender(Candidates(options, byAnime, random).value, options.gender.value)
    ensures !Js.Truthy(options.gender) && Candidates(options, byAnime, random).Some?
            ==> r == Candidates(options, byAnime, random).value
  {
    match Candidates(options, byAnime, random)
    case None => []
    case Some(characters) =>
      if Js.Truthy(options.gender) then FilterByGender(characters, options.gender.value)
      else
        SubsequenceOfItself(characters);
        characters
  }

  // ---------------------------------------------------------------------
  // The card

  /** What `getRandomCharacter` returns. */
  datatype RandomCharacter = RandomCharacter(
    id: int,
    name: Option<string>,
    image: Option<string>,
    age: string,
    gender: string,
    anime: string,
    releaseDate: string)

  const Unknown: string := "Unknown"
  const UnknownAnime: string := "Unknown Anime"
  const UnknownDate: string := "Unknown Date"

  /** `` year ? `${year}` : fallback `` */
  function ReleaseDate(year: Option<int>, fallback: string): (s: string)
    ensures Js.NumTruthy(year) ==> s == Js.IntToString(year.value)
    ensures !Js.NumTruthy(year) ==> s == fallback
  {
    if Js.NumTruthy(year) then Js.IntToString(year.value) else fallback
  }

  /** A positive year is written so that it reads back as the same year. */
  lemma ReleaseDateReadsBack(year: int, fallback: string)
    requires year > 0
    ensures ReleaseDate(Some(year), fallback) == Js.NatToString(year)
    ensures Js.DecimalValue(ReleaseDate(Some(year), fallback)) == year
  {
    Js.NatToStringRoundTrip(year);
  }

  /** The result object built from the chosen character. */
  function ToCard(c: Character): (r: RandomCharacter)
    ensures r.id == c.id
    ensures r.name == Js.Or(c.name.full, c.name.native) && r.image == Js.Or(c.image.large, c.image.medium)
    ensures r.age != "" && r.gender != "" && r.releaseDate != ""
    ensures Js.Truthy(c.age) ==> r.age == c.age.value
    ensures !Js.Truthy(c.age) ==> r.age == Unknown
    ensures Js.Truthy(c.gender) ==> r.gender == c.gender.value
    ensures !Js.Truthy(c.gender) ==> r.gender == Unknown
    ensures |c.media| == 0 ==> r.anime == UnknownAnime && r.releaseDate == UnknownDate
    ensures |c.media| > 0 ==> r.anime == AnimeTitle(c.media[0])
    ensures |c.media| > 0 ==> r.releaseDate == ReleaseDate(c.media[0].startYear, UnknownDate)
  {
    var anime := if |c.media| > 0 then AnimeTitle(c.media[0]) else UnknownAnime;
    var date := if |c.media| > 0 then ReleaseDate(c.media[0].startYear, UnknownDate) else UnknownDate;
    RandomCharacter(
      c.id,
      Js.Or(c.name.full, c.name.native),
      Js.Or(c.image.large, c.image.medium),
      Js.OrDefault(c.age, Unknown),
      Js.OrDefault(c.gender, Unknown),
      anime,
      date)
  }

  /** `getRandomCharacter(options)` with the answers of the fetch it makes
      and the draw `draw` of `Math.random()`: null when the candidates are
      missing or empty, or when the gender filter leaves none; otherwise the
      card of one character of the pool. */
  function GetRandomCharacter(options: RandomOptions, byAnime: Response<seq<Character>>,
                              random: Response<seq<Character>>, draw: real): (r: Option<RandomCharacter>)
    requires 0.0 <= draw < 1.0
    ensures r.None? <==> Pool(options, byAnime, random) == []
    ensures r.Some? ==> exists c :: c in Pool(options, byAnime, random) && r.value == ToCard(c)
  {
    match Candidates(options, byAnime, random)
    case None => None
    case Some(characters) =>
      if |characters| == 0 then None
      else
        var pool := if Js.Truthy(options.gender) then FilterByGender(characters, options.gender.value) else characters;
        if |pool| == 0 then None
        else
          var chosen := pool[Js.RandomIndex(draw, |pool|)];
          Some(ToCard(chosen))
  }

  /** A failed fetch leaves nothing to draw from. */
  lemma FailedFetchGivesNull(options: RandomOptions, byAnime: Response<seq<Character>>,
                             random: Response<seq<Character>>, draw: real)
    requires 0.0 <= draw < 1.0
    requires if Js.NumTruthy(options.animeId) then byAnime.NotOk? else random.NotOk?
    ensures GetRandomCharacter(options, byAnime, random, draw) == None
  {
  }

  /** A candidate of the requested gender (or any candidate, with no gender
      asked for) always leads to a character being returned. */
  lemma MatchingCandidateIsDrawn(options: RandomOptions, byAnime: Response<seq<Character>>,
                                 random: Response<seq<Character>>, draw: real, c: Character)
    requires 0.0 <= draw < 1.0
    requires Candidates(options, byAnime, random).Some? && c in Candidates(options, byAnime, random).value
    requires Js.Truthy(options.gender) ==> GenderIs(c, options.gender.value)
    ensures GetRandomCharacter(options, byAnime, random, draw).Some?
  {
    assert c in Pool(options, byAnime, random);
  }

  /** With a gender asked for, the drawn character has that gender, up to
      case; with none asked for, any candidate may come back. */
  lemma DrawnCharacterHasGender(options: RandomOptions, byAnime: Response<seq<Character>>,
                                random: Response<seq<Character>>, draw: real)
    requires 0.0 <= draw < 1.0
    requires Js.Truthy(options.gender)
    requires GetRandomCharacter(options, byAnime, random, draw).Some?
    ensures Candidates(options, byAnime, random).Some?
    ensures exists c :: c in Candidates(options, byAnime, random).value
                        && GenderIs(c, options.gender.value)
                        && GetRandomCharacter(options, byAnime, random, draw).value == ToCard(c)
  {
    var pool := Pool(options, byAnime, random);
    var c :| c in pool && GetRandomCharacter(options, byAnime, random, draw).value == ToCard(c);
    assert c in Candidates(options, byAnime, random).value;
  }
}
