/** The relational store as the code uses it: the `animes`, `characters`,
    `character_images` and `votes` tables, read as a snapshot of rows and
    written through a `Store` whose inserts enforce the unique external ids
    and the foreign keys. */
module Db {
  import opened Types

  /** The uuid primary keys; this model draws them from a counter. */
  type Id = nat

  datatype AnimeRow = AnimeRow(id: Id, externalId: int, title: string, releaseDate: string)

  datatype CharacterRow = CharacterRow(
    id: Id,
    externalId: int,
    name: Option<string>,
    age: string,
    gender: Option<string>,
    animeId: Id)

  datatype ImageRow = ImageRow(characterId: Id, imageUrl: string)

  datatype VoteRow = VoteRow(characterId: Id, voteType: VoteType, sessionId: string)

  /** The session id `submitVote` falls back to. */
  const AnonymousSession: string := "anonymous"

  /** The four tables at one moment. */
  datatype Snapshot = Snapshot(
    animes: seq<AnimeRow>,
    characters: seq<CharacterRow>,
    images: seq<ImageRow>,
    votes: seq<VoteRow>)

  /** A character with its `images` and its `anime` loaded
      (`CharacterWithRelations` of src/lib/types.ts). */
  datatype CharacterWithRelations = CharacterWithRelations(
    character: CharacterRow,
    images: seq<ImageRow>,
    anime: Option<AnimeRow>)

  function ImagesOf(images: seq<ImageRow>, id: Id): (r: seq<ImageRow>)
    ensures forall m :: m in r <==> m in images && m.characterId == id
  {
    if |images| == 0 then []
    else if images[0].characterId == id then [images[0]] + ImagesOf(images[1..], id)
    else ImagesOf(images[1..], id)
  }

  function AnimeById(animes: seq<AnimeRow>, id: Id): (r: Option<AnimeRow>)
    ensures r.Some? ==> r.value in animes && r.value.id == id
    ensures r.None? ==> forall k :: 0 <= k < |animes| ==> animes[k].id != id
  {
    if |animes| == 0 then None
    else if animes[0].id == id then Some(animes[0])
    else AnimeById(animes[1..], id)
  }

  function CharacterById(characters: seq<CharacterRow>, id: Id): (r: Option<CharacterRow>)
    ensures r.Some? ==> r.value in characters && r.value.id == id
    ensures r.None? ==> forall k :: 0 <= k < |characters| ==> characters[k].id != id
  {
    if |characters| == 0 then None
    else if characters[0].id == id then Some(characters[0])
    else CharacterById(characters[1..], id)
  }

  /** The `with: { images: true, anime: true }` join for one character. */
  function WithRelations(db: Snapshot, c: CharacterRow): CharacterWithRelations {
    CharacterWithRelations(c, ImagesOf(db.images, c.id), AnimeById(db.animes, c.animeId))
  }

  /** `vote.character` loaded `with: { images: true, anime: true }`. */
  function LoadCharacter(db: Snapshot, id: Id): (r: Option<CharacterWithRelations>)
    ensures r.Some? <==> CharacterById(db.characters, id).Some?
    ensures r.Some? ==> r.value.character.id == id
  {
    match CharacterById(db.characters, id)
    case None => None
    case Some(c) => Some(WithRelations(db, c))
  }

  // ---------------------------------------------------------------------
  // Lookups by key

  predicate HasAnime(animes: seq<AnimeRow>, externalId: int) {
    exists k | 0 <= k < |animes| :: animes[k].externalId == externalId
  }

  predicate HasCharacter(characters: seq<CharacterRow>, externalId: int) {
    exists k | 0 <= k < |characters| :: characters[k].externalId == externalId
  }

  /** Rows are only ever appended, so a key once present stays present. */
  lemma HasAnimeGrows(animes: seq<AnimeRow>, more: seq<AnimeRow>, externalId: int)
    requires HasAnime(animes, externalId) && animes <= more
    ensures HasAnime(more, externalId)
  {
    var k :| 0 <= k < |animes| && animes[k].externalId == externalId;
    assert more[k] == animes[k];
  }

  lemma HasCharacterGrows(characters: seq<CharacterRow>, more: seq<CharacterRow>, externalId: int)
    requires HasCharacter(characters, externalId) && characters <= more
    ensures HasCharacter(more, externalId)
  {
    var k :| 0 <= k < |characters| && characters[k].externalId == externalId;
    assert more[k] == characters[k];
  }

  /** `db.query.animes.findFirst({ where: eq(animes.externalId, e) })` */
  function FindAnime(animes: seq<AnimeRow>, externalId: int): (r: Option<AnimeRow>)
    ensures r.Some? <==> HasAnime(animes, externalId)
    ensures r.Some? ==> r.value in animes && r.value.externalId == externalId
  {
    if |animes| == 0 then None
    else if animes[0].externalId == externalId then Some(animes[0])
    else
      var r := FindAnime(animes[1..], externalId);
      assert HasAnime(animes, externalId) ==> HasAnime(animes[1..], externalId) by {
        if HasAnime(animes, externalId) {
          var k :| 0 <= k < |animes| && animes[k].externalId == externalId;
          assert animes[1..][k - 1] == animes[k];
        }
      }
      r
  }

  /** `db.query.characters.findFirst({ where: eq(characters.externalId, e) })` */
  function FindCharacter(characters: seq<CharacterRow>, externalId: int): (r: Option<CharacterRow>)
    ensures r.Some? <==> HasCharacter(characters, externalId)
    ensures r.Some? ==> r.value in characters && r.value.externalId == externalId
  {
    if |characters| == 0 then None
    else if characters[0].externalId == externalId then Some(characters[0])
    else
      var r := FindCharacter(characters[1..], externalId);
      assert HasCharacter(characters, externalId) ==> HasCharacter(characters[1..], externalId) by {
        if HasCharacter(characters, externalId) {
          var k :| 0 <= k < |characters| && characters[k].externalId == externalId;
          assert characters[1..][k - 1] == characters[k];
        }
      }
      r
  }

  // ---------------------------------------------------------------------
  // Table constraints

  function CharacterIds(characters: seq<CharacterRow>): set<Id> {
    set c | c in characters :: c.id
  }

  /** Unique external ids, unique primary keys (all below `nextId`), and the
      foreign keys from characters to anime and from images to characters. */
  ghost predicate Constraints(animes: seq<AnimeRow>, characters: seq<CharacterRow>, images: seq<ImageRow>, nextId: Id) {
    && (forall i, j :: 0 <= i < j < |animes| ==> animes[i].externalId != animes[j].externalId)
    && (forall i, j :: 0 <= i < j < |characters| ==> characters[i].externalId != characters[j].externalId)
    && (forall i :: 0 <= i < |animes| ==> animes[i].id < nextId)
    && (forall i :: 0 <= i < |characters| ==> characters[i].id < nextId)
    && (forall i, j :: 0 <= i < j < |animes| ==> animes[i].id != animes[j].id)
    && (forall i, j :: 0 <= i < j < |characters| ==> characters[i].id != characters[j].id)
    && (forall i :: 0 <= i < |characters| ==> AnimeById(animes, characters[i].animeId).Some?)
    && (forall i :: 0 <= i < |images| ==> images[i].characterId in CharacterIds(characters))
  }

  lemma AppendAnimeKeepsConstraints(animes: seq<AnimeRow>, characters: seq<CharacterRow>, images: seq<ImageRow>, nextId: Id, row: AnimeRow)
    requires Constraints(animes, characters, images, nextId)
    requires row.id == nextId && !HasAnime(animes, row.externalId)
    ensures Constraints(animes + [row], characters, images, nextId + 1)
  {
    AnimeByIdAppend(animes, row);
  }

  lemma AppendCharacterKeepsConstraints(animes: seq<AnimeRow>, characters: seq<CharacterRow>, images: seq<ImageRow>, nextId: Id, row: CharacterRow)
    requires Constraints(animes, characters, images, nextId)
    requires row.id == nextId && !HasCharacter(characters, row.externalId)
    requires AnimeById(animes, row.animeId).Some?
    ensures Constraints(animes, characters + [row], images, nextId + 1)
    ensures CharacterIds(characters + [row]) == CharacterIds(characters) + {row.id}
  {
    var after := characters + [row];
    assert CharacterIds(after) == CharacterIds(characters) + {row.id} by {
      forall id | id in CharacterIds(characters) ensures id in CharacterIds(after) {
        var c :| c in characters && c.id == id;
        assert c in after;
      }
    }
  }

  lemma AppendImagesKeepsConstraints(animes: seq<AnimeRow>, characters: seq<CharacterRow>, images: seq<ImageRow>, nextId: Id, rows: seq<ImageRow>)
    requires Constraints(animes, characters, images, nextId)
    requires forall m :: m in rows ==> m.characterId in CharacterIds(characters)
    ensures Constraints(animes, characters, images + rows, nextId)
  {
    var after := images + rows;
    forall i | |images| <= i < |after|
      ensures after[i].characterId in CharacterIds(characters)
    {
      assert after[i] in rows;
    }
  }

  // ---------------------------------------------------------------------
  // The store that the seeder writes

  class Store {
    var animes: seq<AnimeRow>
    var characters: seq<CharacterRow>
    var images: seq<ImageRow>
    var votes: seq<VoteRow>
    /** The next primary key to hand out (in place of `defaultRandom()`). */
    var nextId: Id

    ghost predicate Valid()
      reads this
    {
      Constraints(animes, characters, images, nextId)
    }

    function Contents(): Snapshot
      reads this
    {
      Snapshot(animes, characters, images, votes)
    }

    constructor ()
      ensures Valid()
      ensures Contents() == Snapshot([], [], [], [])
    {
      animes, characters, images, votes := [], [], [], [];
      nextId := 0;
    }

    /** `db.insert(animes).values(...).returning()`: refused (`None`) when the
        external id is taken, otherwise the new row is appended. */
    method InsertAnime(externalId: int, title: string, releaseDate: string) returns (r: Option<AnimeRow>)
      requires Valid()
      modifies this
      ensures Valid()
      ensures r.None? <==> HasAnime(old(animes), externalId)
      ensures r.None? ==> animes == old(animes)
      ensures r.Some? ==> r.value.externalId == externalId && r.value.title == title
                          && r.value.releaseDate == releaseDate
                          && animes == old(animes) + [r.value]
      ensures characters == old(characters) && images == old(images) && votes == old(votes)
    {
      if FindAnime(animes, externalId).Some? {
        return None;
      }
      var row := AnimeRow(nextId, externalId, title, releaseDate);
      AppendAnimeKeepsConstraints(animes, characters, images, nextId, row);
      animes := animes + [row];
      nextId := nextId + 1;
      r := Some(row);
    }

    /** `db.insert(characters).values(...).returning()`: refused when the
        external id is taken or `animeId` names no anime row. */
    method InsertCharacter(externalId: int, name: Option<string>, age: string, gender: Option<string>, animeId: Id)
      returns (r: Option<CharacterRow>)
      requires Valid()
      modifies this
      ensures Valid()
      ensures r.None? <==> HasCharacter(old(characters), externalId) || AnimeById(animes, animeId).None?
      ensures r.None? ==> characters == old(characters)
      ensures r.Some? ==> r.value == CharacterRow(r.value.id, externalId, name, age, gender, animeId)
                          && r.value.id !in CharacterIds(old(characters))
                          && characters == old(characters) + [r.value]
      ensures animes == old(animes) && images == old(images) && votes == old(votes)
    {
      if FindCharacter(characters, externalId).Some? || AnimeById(animes, animeId).None? {
        return None;
      }
      var row := CharacterRow(nextId, externalId, name, age, gender, animeId);
      AppendCharacterKeepsConstraints(animes, characters, images, nextId, row);
      characters := characters + [row];
      nextId := nextId + 1;
      r := Some(row);
    }

    /** `db.insert(characterImages).values(rows)`: all rows or none, refused
        when a row names no character. */
    method InsertImages(rows: seq<ImageRow>) returns (ok: bool)
      requires Valid()
      modifies this
      ensures Valid()
      ensures ok <==> forall m :: m in rows ==> m.characterId in CharacterIds(characters)
      ensures images == if ok then old(images) + rows else old(images)
      ensures animes == old(animes) && characters == old(characters) && votes == old(votes)
      ensures nextId == old(nextId)
    {
      ok := forall m | m in rows :: m.characterId in CharacterIds(characters);
      if ok {
        AppendImagesKeepsConstraints(animes, characters, images, nextId, rows);
        images := images + rows;
      }
    }

    /** `submitVote({ characterId, type, sessionId })`: one vote row is
        appended, its session defaulting to "anonymous" when none is given;
        refused (`false`) when no character has that id, as the foreign key
        of `votes.character_id` requires. */
    method SubmitVote(characterId: Id, voteType: VoteType, sessionId: Option<string>) returns (ok: bool)
      requires Valid()
      modifies this
      ensures Valid()
      ensures ok <==> characterId in CharacterIds(characters)
      ensures ok ==> votes == old(votes) + [VoteRow(characterId, voteType,
                                                    if sessionId.Some? then sessionId.value else AnonymousSession)]
      ensures !ok ==> votes == old(votes)
      ensures animes == old(animes) && characters == old(characters) && images == old(images)
      ensures nextId == old(nextId)
    {
      ok := characterId in CharacterIds(characters);
      if ok {
        var session := if sessionId.Some? then sessionId.value else AnonymousSession;
        votes := votes + [VoteRow(characterId, voteType, session)];
      }
    }
  }

  lemma AnimeByIdAppend(animes: seq<AnimeRow>, row: AnimeRow)
    ensures forall id :: AnimeById(animes, id).Some? ==> AnimeById(animes + [row], id) == AnimeById(animes, id)
  {
    forall id | AnimeById(animes, id).Some?
      ensures AnimeById(animes + [row], id) == AnimeById(animes, id)
    {
      AnimeByIdPrefix(animes, [row], id);
    }
  }

  lemma {:induction false} AnimeByIdPrefix(animes: seq<AnimeRow>, more: seq<AnimeRow>, id: Id)
    requires AnimeById(animes, id).Some?
    ensures AnimeById(animes + more, id) == AnimeById(animes, id)
    decreases |animes|
  {
    assert (animes + more)[0] == animes[0];
    if animes[0].id != id {
      assert (animes + more)[1..] == animes[1..] + more;
      AnimeByIdPrefix(animes[1..], more, id);
    }
  }
}
