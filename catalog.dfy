/** The records of the external anime catalog's GraphQL answers, as far as
    the code reads them, already decoded; and the outcome of one HTTP call. */
module Catalog {
  import opened Types
  import Js

  datatype Name = Name(full: Option<string>, native: Option<string>)

  datatype Image = Image(large: Option<string>, medium: Option<string>)

  /** The romaji title is always present in the catalog; the English one
      may be missing. */
  datatype Title = Title(romaji: string, english: Option<string>)

  /** A media (anime) node: its id, titles and `startDate.year`. */
  datatype Media = Media(id: int, title: Title, startYear: Option<int>)

  /** `title.english || title.romaji`: the name both the random-character
      card and the seeder give an anime. */
  function AnimeTitle(m: Media): (t: string)
    ensures Js.Truthy(m.title.english) ==> t == m.title.english.value
    ensures !Js.Truthy(m.title.english) ==> t == m.title.romaji
  {
    Js.OrDefault(m.title.english, m.title.romaji)
  }

  /** A character node. `media` holds the media nodes the random-page query
      asks for; the per-anime queries do not ask for them and it is empty. */
  datatype Character = Character(
    id: int,
    name: Name,
    image: Image,
    age: Option<string>,
    gender: Option<string>,
    media: seq<Media>)

  /** One page of an anime's characters: `nodes` (an absent list read as
      empty) and `pageInfo.hasNextPage` (an absent flag read as false). */
  datatype CharacterPage = CharacterPage(nodes: seq<Character>, hasNextPage: bool)

  /** One `fetch`: a response whose `ok` is false, or the decoded body. */
  datatype Response<T> = NotOk | Ok(body: T)
}
