/** The seeding script: for each target anime, look it up in the catalog,
    store it unless its external id is already stored, gather up to four
    pages of its characters and store every character (with its images)
    whose external id is not stored yet. Catalog answers are inputs. */
module Seeder {
  import opened Types
  import opened Catalog
  import opened Db
  import Js
  import Seqs

  // ---------------------------------------------------------------------
  // Catalog answers

  /** `fetchAnimeData` once answered: null for a failed request or an answer
      without `data.Media`, else the media node. */
  function FetchedAnime(response: Response<Option<Media>>): (r: Option<Media>)
    ensures r.Some? <==> response.Ok? && response.body.Some?
    ensures r.Some? ==> r.value == response.body.value
  {
    match response
    case NotOk => None
    case Ok(media) => media
  }

  /** The answer to one request for a page of an anime's characters: a
      failed request, an answer without `data.Media`, or a page. */
  type PageAnswer = Response<Option<CharacterPage>>

  predicate Answered(a: PageAnswer) {
    a.Ok? && a.body.Some?
  }

  /** An answered page that says another page follows. */
  predicate Continues(a: PageAnswer) {
    Answered(a) && a.body.value.hasNextPage
  }

  /** The page limit of `fetchCharactersForAnime`. */
  const MaxCharacterPages: nat := 4

  /** The characters the pagination loop collects from page `page` on, when
      page `p` is answered by `pageOf(p)`. */
  function Gathered(pageOf: nat -> PageAnswer, page: nat): seq<Character>
    decreases MaxCharacterPages + 1 - page
  {
    if page > MaxCharacterPages then []
    else if !Answered(pageOf(page)) then []
    else
      var p := pageOf(page).body.value;
      p.nodes + (if p.hasNextPage then Gathered(pageOf, page + 1) else [])
  }

  /** `fetchCharactersForAnime(animeId)`, with `pageOf` answering the
      requests for that anime. */
  method FetchCharactersForAnime(pageOf: nat -> PageAnswer) returns (allCharacters: seq<Character>)
    ensures allCharacters == Gathered(pageOf, 1)
  {
    allCharacters := [];
    var page: nat := 1;
    var hasNextPage := true;
    while hasNextPage && page <= MaxCharacterPages
      invariant 1 <= page <= MaxCharacterPages + 1
      invariant hasNextPage ==> allCharacters + Gathered(pageOf, page) == Gathered(pageOf, 1)
      invariant !hasNextPage ==> allCharacters == Gathered(pageOf, 1)
      decreases MaxCharacterPages + 1 - page
    {
      var response := pageOf(page);
      if response.NotOk? || response.body.None? {
        GatheredStep(pageOf, page, allCharacters);
        break;
      }
      var nodes := response.body.value.nodes;
      GatheredStep(pageOf, page, allCharacters);
      allCharacters := allCharacters + nodes;
      hasNextPage := response.body.value.hasNextPage;
      page := page + 1;
    }
    if hasNextPage {
      GatheredStep(pageOf, page, allCharacters);
    }
  }

  /** One turn of the pagination loop, on the characters `acc` gathered so
      far: a page past the limit or not answered adds nothing and ends the
      loop; an answered page adds its characters. */
  lemma GatheredStep(pageOf: nat -> PageAnswer, page: nat, acc: seq<Character>)
    ensures page > MaxCharacterPages || !Answered(pageOf(page)) ==> acc + Gathered(pageOf, page) == acc
    ensures page <= MaxCharacterPages && Answered(pageOf(page)) ==>
              acc + Gathered(pageOf, page)
              == (acc + pageOf(page).body.value.nodes)
                 + (if pageOf(page).body.value.hasNextPage then Gathered(pageOf, page + 1) else [])
  {
  }

  /** The characters of pages `page` up to (not including) `stop`, in order. */
  function PagesBefore(pageOf: nat -> PageAnswer, page: nat, stop: nat): seq<Character>
    decreases stop - page
  {
    if page >= stop then []
    else (if Answered(pageOf(page)) then pageOf(page).body.value.nodes else []) + PagesBefore(pageOf, page + 1, stop)
  }

  /** The loop reads pages in order until the first page that fails, is
      invalid or says it is the last, and never past page four: the result
      is the characters of every page before that one, then that page's
      own characters when it was answered. */
  lemma {:induction false} GatheredStopsAt(pageOf: nat -> PageAnswer, page: nat, stop: nat)
    requires 1 <= page <= stop <= MaxCharacterPages + 1
    requires forall q :: page <= q < stop ==> Continues(pageOf(q))
    requires stop <= MaxCharacterPages ==> !Continues(pageOf(stop))
    ensures Gathered(pageOf, page)
            == PagesBefore(pageOf, page, stop)
               + (if stop <= MaxCharacterPages && Answered(pageOf(stop)) then pageOf(stop).body.value.nodes else [])
    decreases stop - page
  {
    var last := if stop <= MaxCharacterPages && Answered(pageOf(stop)) then pageOf(stop).body.value.nodes else [];
    if page < stop {
      assert Continues(pageOf(page));
      var nodes := pageOf(page).body.value.nodes;
      var middle := PagesBefore(pageOf, page + 1, stop);
      GatheredStopsAt(pageOf, page + 1, stop);
      assert Gathered(pageOf, page) == nodes + Gathered(pageOf, page + 1);
      assert PagesBefore(pageOf, page, stop) == nodes + middle;
      assert nodes + (middle + last) == (nodes + middle) + last;
    } else {
      assert PagesBefore(pageOf, page, stop) == [];
      assert Gathered(pageOf, page) == last;
    }
  }

  /** No page after the fourth is ever read: two catalogs that agree on
      pages one to four give the same characters. */
  lemma {:induction false} GatheredReadsFourPages(f: nat -> PageAnswer, g: nat -> PageAnswer, page: nat)
    requires forall q :: page <= q <= MaxCharacterPages ==> f(q) == g(q)
    ensures Gathered(f, page) == Gathered(g, page)
    decreases MaxCharacterPages + 1 - page
  {
    if page <= MaxCharacterPages {
      GatheredReadsFourPages(f, g, page + 1);
    }
  }

  // ---------------------------------------------------------------------
  // New rows

  const Unknown: string := "Unknown"

  /** `startDate?.year ? String(startDate.year) : "Unknown"` */
  function AnimeReleaseDate(m: Media): (s: string)
    ensures s != ""
    ensures m.startYear.Some? && m.startYear.value > 0 ==> s == Js.NatToString(m.startYear.value)
    ensures !Js.NumTruthy(m.startYear) ==> s == Unknown
  {
    if Js.NumTruthy(m.startYear) then Js.IntToString(m.startYear.value) else Unknown
  }

  /** `name.full || name.native` */
  function CharacterName(c: Character): (n: Option<string>)
    ensures Js.Truthy(c.name.full) ==> n == c.name.full
    ensures !Js.Truthy(c.name.full) ==> n == c.name.native
  {
    Js.Or(c.name.full, c.name.native)
  }

  /** The image rows of a new character: the large picture, then the medium
      one, each only when present. */
  function ImageRows(id: Id, image: Image): (rows: seq<ImageRow>)
    ensures |rows| == (if Js.Truthy(image.large) then 1 else 0) + (if Js.Truthy(image.medium) then 1 else 0)
    ensures forall m :: m in rows ==> m.characterId == id && m.imageUrl != ""
    ensures Js.Truthy(image.large) ==> rows[0] == ImageRow(id, image.large.value)
    ensures Js.Truthy(image.medium) ==> rows[|rows| - 1] == ImageRow(id, image.medium.value)
  {
    (if Js.Truthy(image.large) then [ImageRow(id, image.large.value)] else [])
    + (if Js.Truthy(image.medium) then [ImageRow(id, image.medium.value)] else [])
  }

  /** The row stored for a new character of anime `animeId`. */
  predicate IsNewCharacterRow(row: CharacterRow, c: Character, animeId: Id) {
    && row.externalId == c.id
    && row.name == CharacterName(c)
    && row.age == Js.OrDefault(c.age, Unknown)
    && row.gender == Some(Js.OrDefault(c.gender, Unknown))
    && row.animeId == animeId
  }

  /** The external ids of some characters. */
  function CastIds(cast: seq<Character>): set<int> {
    set c | c in cast :: c.id
  }

  /** The characters of the gathered `list` that the inner loop stores over
      the character rows `known`: in list order, each one whose external id
      is neither stored in `known` nor taken by an earlier character of
      `list`. */
  function NewCast(known: seq<CharacterRow>, list: seq<Character>): seq<Character>
    decreases |list|
  {
    if list == [] then []
    else
      var before := NewCast(known, list[..|list| - 1]);
      var c := list[|list| - 1];
      if HasCharacter(known, c.id) || c.id in CastIds(before) then before
      else before + [c]
  }

  lemma NewCastSnoc(known: seq<CharacterRow>, list: seq<Character>, c: Character)
    ensures NewCast(known, list + [c])
            == if HasCharacter(known, c.id) || c.id in CastIds(NewCast(known, list)) then NewCast(known, list)
               else NewCast(known, list) + [c]
  {
    assert (list + [c])[..|list|] == list;
  }

  /** The new cast is drawn from the list and holds no character whose id
      was stored before. */
  lemma {:induction false} NewCastFromList(known: seq<CharacterRow>, list: seq<Character>)
    ensures forall x :: x in NewCast(known, list) ==> x in list && !HasCharacter(known, x.id)
    decreases |list|
  {
    if list != [] {
      var n := |list| - 1;
      NewCastFromList(known, list[..n]);
      NewCastSnoc(known, list[..n], list[n]);
      assert list == list[..n] + [list[n]];
    }
  }

  /** No two characters of `cast` share an external id. */
  ghost predicate DistinctIds(cast: seq<Character>) {
    forall i, j :: 0 <= i < j < |cast| ==> cast[i].id != cast[j].id
  }

  lemma DistinctIdsSnoc(cast: seq<Character>, c: Character)
    requires DistinctIds(cast) && c.id !in CastIds(cast)
    ensures DistinctIds(cast + [c])
  {
    var longer := cast + [c];
    forall i, j | 0 <= i < j < |longer| ensures longer[i].id != longer[j].id {
      assert longer[i] == cast[i];
      if j < |cast| {
        assert longer[j] == cast[j];
      } else {
        assert cast[i] in cast;
      }
    }
  }

  /** No two characters of the new cast share an external id. */
  lemma {:induction false} NewCastDistinct(known: seq<CharacterRow>, list: seq<Character>)
    ensures DistinctIds(NewCast(known, list))
    decreases |list|
  {
    if list != [] {
      var n := |list| - 1;
      NewCastDistinct(known, list[..n]);
      NewCastSnoc(known, list[..n], list[n]);
      assert list == list[..n] + [list[n]];
      var before := NewCast(known, list[..n]);
      if !(HasCharacter(known, list[n].id) || list[n].id in CastIds(before)) {
        DistinctIdsSnoc(before, list[n]);
      }
    }
  }

  /** Every character of the list is accounted for: its id was stored
      before or is the id of a character of the new cast. */
  lemma {:induction false} NewCastCovers(known: seq<CharacterRow>, list: seq<Character>)
    ensures forall c :: c in list ==> HasCharacter(known, c.id) || c.id in CastIds(NewCast(known, list))
    decreases |list|
  {
    if list != [] {
      var n := |list| - 1;
      var before, last := NewCast(known, list[..n]), list[n];
      NewCastCovers(known, list[..n]);
      NewCastSnoc(known, list[..n], last);
      assert list == list[..n] + [last];
      assert CastIds(before) <= CastIds(NewCast(known, list));
      forall c | c in list ensures HasCharacter(known, c.id) || c.id in CastIds(NewCast(known, list)) {
        if c != last {
          assert c in list[..n];
        }
      }
    }
  }

  /** A list whose characters all have rows already stores nobody. */
  lemma {:induction false} NewCastNothingNew(known: seq<CharacterRow>, list: seq<Character>)
    requires AllStored(known, list)
    ensures NewCast(known, list) == []
    decreases |list|
  {
    if list != [] {
      var n := |list| - 1;
      assert list[n] in list;
      assert AllStored(known, list[..n]) by {
        forall c | c in list[..n] ensures HasCharacter(known, c.id) {
          assert c in list;
        }
      }
      NewCastNothingNew(known, list[..n]);
    }
  }

  /** The first character of the list with an external id not stored
      before is itself stored: a later duplicate of its id does not replace
      it. */
  lemma {:induction false} NewCastKeepsFirst(known: seq<CharacterRow>, list: seq<Character>, j: nat)
    requires j < |list| && !HasCharacter(known, list[j].id)
    requires forall i :: 0 <= i < j ==> list[i].id != list[j].id
    ensures list[j] in NewCast(known, list)
    decreases |list|
  {
    var n := |list| - 1;
    var before := NewCast(known, list[..n]);
    if j == n {
      NewCastFromList(known, list[..n]);
      forall x | x in before ensures x.id != list[j].id {
        var i :| 0 <= i < n && list[..n][i] == x;
        assert list[i] == x;
      }
      assert list[j].id !in CastIds(before);
    } else {
      assert list[..n][j] == list[j];
      NewCastKeepsFirst(known, list[..n], j);
    }
  }

  /** The rows stored for `cast`, in order: row `k` is the new row of
      character `k`, of anime `animeId`. */
  ghost predicate RowsOf(rows: seq<CharacterRow>, cast: seq<Character>, animeId: Id) {
    && |rows| == |cast|
    && forall k :: 0 <= k < |rows| ==> IsNewCharacterRow(rows[k], cast[k], animeId)
  }

  lemma RowsOfSnoc(rows: seq<CharacterRow>, cast: seq<Character>, animeId: Id, r: CharacterRow, c: Character)
    requires RowsOf(rows, cast, animeId) && IsNewCharacterRow(r, c, animeId)
    ensures RowsOf(rows + [r], cast + [c], animeId)
  {
  }

  /** The image rows written for the stored `rows` of the characters `cast`:
      each row's `ImageRows`, in order. */
  function CastImages(rows: seq<CharacterRow>, cast: seq<Character>): seq<ImageRow>
    requires |rows| == |cast|
    decreases |rows|
  {
    if rows == [] then []
    else
      var n := |rows| - 1;
      CastImages(rows[..n], cast[..n]) + ImageRows(rows[n].id, cast[n].image)
  }

  lemma CastImagesSnoc(rows: seq<CharacterRow>, cast: seq<Character>, r: CharacterRow, c: Character)
    requires |rows| == |cast|
    ensures CastImages(rows + [r], cast + [c]) == CastImages(rows, cast) + ImageRows(r.id, c.image)
  {
    assert (rows + [r])[..|rows|] == rows && (cast + [c])[..|cast|] == cast;
  }

  /** Every image row written belongs to one of the stored rows. */
  lemma {:induction false} CastImagesBelong(rows: seq<CharacterRow>, cast: seq<Character>)
    requires |rows| == |cast|
    ensures forall m :: m in CastImages(rows, cast) ==> exists k :: 0 <= k < |rows| && m.characterId == rows[k].id
    decreases |rows|
  {
    if rows != [] {
      var n := |rows| - 1;
      CastImagesBelong(rows[..n], cast[..n]);
      forall m | m in CastImages(rows, cast) ensures exists k :: 0 <= k < |rows| && m.characterId == rows[k].id {
        if m in CastImages(rows[..n], cast[..n]) {
          var k :| 0 <= k < n && m.characterId == rows[..n][k].id;
          assert rows[..n][k] == rows[k];
        } else {
          assert m.characterId == rows[n].id;
        }
      }
    }
  }

  /** With the rows of `cast` stored after `known`, an external id has a row
      exactly when it is in `known` or is the id of a character of `cast`. */
  lemma HasCharacterAfterCast(known: seq<CharacterRow>, rows: seq<CharacterRow>, cast: seq<Character>, animeId: Id, id: int)
    requires RowsOf(rows, cast, animeId)
    ensures HasCharacter(known + rows, id) <==> HasCharacter(known, id) || id in CastIds(cast)
  {
    var all := known + rows;
    if HasCharacter(all, id) {
      var i :| 0 <= i < |all| && all[i].externalId == id;
      if i < |known| {
        assert known[i] == all[i];
      } else {
        assert rows[i - |known|] == all[i];
        assert cast[i - |known|] in cast;
      }
    }
    if id in CastIds(cast) {
      var c :| c in cast && c.id == id;
      var k :| 0 <= k < |cast| && cast[k] == c;
      assert all[|known| + k] == rows[k];
    }
    if HasCharacter(known, id) {
      HasCharacterGrows(known, all, id);
    }
  }

  /** Every character row added to `chars` since `chars0` is the row
      stored for some character of `list` under anime `animeId`. */
  ghost predicate RowsFromList(chars0: seq<CharacterRow>, chars: seq<CharacterRow>, list: seq<Character>, animeId: Id) {
    forall k :: |chars0| <= k < |chars| ==> exists c :: c in list && IsNewCharacterRow(chars[k], c, animeId)
  }

  /** The new cast read off the tables after the inner loop, `chars + rows`
      and `imgs + CastImages(rows, cast)`: every new row points at the anime
      and comes from a character of the list, every character of the list is
      stored, and a list stored in full writes nothing. */
  lemma NewCastOnTables(chars: seq<CharacterRow>, imgs: seq<ImageRow>, rows: seq<CharacterRow>, cast: seq<Character>,
                        list: seq<Character>, animeId: Id)
    requires RowsOf(rows, cast, animeId) && cast == NewCast(chars, list)
    ensures (chars + rows)[|chars|..] == rows
    ensures chars <= chars + rows && imgs <= imgs + CastImages(rows, cast)
    ensures RowsFromList(chars, chars + rows, list, animeId)
    ensures forall k :: |chars| <= k < |chars + rows| ==> (chars + rows)[k].animeId == animeId
    ensures AllStored(chars + rows, list)
    ensures AllStored(chars, list) ==> chars + rows == chars && imgs + CastImages(rows, cast) == imgs
    ensures ImagesBelong(chars, chars + rows, imgs, imgs + CastImages(rows, cast))
  {
    CastImagesBelong(rows, cast);
    forall k | |imgs| <= k < |imgs + CastImages(rows, cast)|
      ensures AddedId(chars, chars + rows, (imgs + CastImages(rows, cast))[k].characterId)
    {
      var m := (imgs + CastImages(rows, cast))[k];
      assert m == CastImages(rows, cast)[k - |imgs|];
      var i :| 0 <= i < |rows| && m.characterId == rows[i].id;
      assert (chars + rows)[|chars| + i] == rows[i];
    }
    NewCastFromList(chars, list);
    NewCastCovers(chars, list);
    forall k | |chars| <= k < |chars + rows|
      ensures exists c :: c in list && IsNewCharacterRow((chars + rows)[k], c, animeId)
    {
      assert (chars + rows)[k] == rows[k - |chars|];
      assert cast[k - |chars|] in cast;
    }
    forall c | c in list ensures HasCharacter(chars + rows, c.id) {
      HasCharacterAfterCast(chars, rows, cast, animeId, c.id);
    }
    if AllStored(chars, list) {
      NewCastNothingNew(chars, list);
      assert chars + rows == chars;
      assert imgs + CastImages(rows, cast) == imgs;
    }
  }

  // ---------------------------------------------------------------------
  // The seeding loops

  /** One pass of the inner `for (const char of charList)` loop: look the
      character up by its external id and, when it is new, store it and its
      images; the stored row comes back. */
  method SeedCharacter(store: Store, c: Character, animeId: Id) returns (saved: Option<CharacterRow>)
    requires store.Valid() && AnimeById(store.animes, animeId).Some?
    modifies store
    ensures store.Valid()
    ensures saved.Some? <==> !HasCharacter(old(store.characters), c.id)
    ensures HasCharacter(store.characters, c.id)
    ensures store.animes == old(store.animes) && store.votes == old(store.votes)
    ensures saved.None? ==> store.characters == old(store.characters) && store.images == old(store.images)
    ensures saved.Some? ==> && store.characters == old(store.characters) + [saved.value]
                            && IsNewCharacterRow(saved.value, c, animeId)
                            && store.images == old(store.images) + ImageRows(saved.value.id, c.image)
  {
    var existing := FindCharacter(store.characters, c.id);
    if existing.Some? {
      return None;
    }
    var inserted := store.InsertCharacter(c.id, CharacterName(c), Js.OrDefault(c.age, Unknown),
                                          Some(Js.OrDefault(c.gender, Unknown)), animeId);
    var newChar := inserted.value;
    InsertImagesOf(store, newChar, c.image);
    saved := Some(newChar);
    assert store.characters[|store.characters| - 1] == newChar;
  }

  /** `if (imagesToInsert.length > 0) db.insert(characterImages)...` for a
      stored character. */
  method InsertImagesOf(store: Store, row: CharacterRow, image: Image)
    requires store.Valid() && row in store.characters
    modifies store
    ensures store.Valid()
    ensures store.images == old(store.images) + ImageRows(row.id, image)
    ensures store.animes == old(store.animes) && store.characters == old(store.characters)
    ensures store.votes == old(store.votes)
  {
    var imagesToInsert := ImageRows(row.id, image);
    if |imagesToInsert| > 0 {
      assert row.id in CharacterIds(store.characters);
      var ok := store.InsertImages(imagesToInsert);
    }
  }

  /** Steps 1 of the outer loop: find the anime row by external id, or
      create it. */
  method StoreAnime(store: Store, media: Media) returns (anime: AnimeRow)
    requires store.Valid()
    modifies store
    ensures store.Valid()
    ensures anime in store.animes && anime.externalId == media.id
    ensures HasAnime(old(store.animes), media.id) ==> store.animes == old(store.animes)
    ensures !HasAnime(old(store.animes), media.id) ==>
              && store.animes == old(store.animes) + [anime]
              && anime.title == AnimeTitle(media) && anime.releaseDate == AnimeReleaseDate(media)
    ensures store.characters == old(store.characters) && store.images == old(store.images)
    ensures store.votes == old(store.votes)
  {
    var dbAnime := FindAnime(store.animes, media.id);
    if dbAnime.None? {
      var inserted := store.InsertAnime(media.id, AnimeTitle(media), AnimeReleaseDate(media));
      anime := inserted.value;
      assert store.animes[|store.animes| - 1] == anime;
    } else {
      anime := dbAnime.value;
    }
  }

  /** Step 2 of the outer loop over the gathered characters `charList` of
      anime `animeId`: `savedCount` is the number of characters stored, each
      new row points at the anime, and a list that is already stored in full
      writes nothing. */
  method SeedCast(store: Store, charList: seq<Character>, animeId: Id) returns (savedCount: nat)
    requires store.Valid() && AnimeById(store.animes, animeId).Some?
    modifies store
    ensures store.Valid()
    ensures store.animes == old(store.animes) && store.votes == old(store.votes)
    ensures old(store.characters) <= store.characters && old(store.images) <= store.images
    ensures savedCount == |store.characters| - |old(store.characters)|
    ensures forall k :: |old(store.characters)| <= k < |store.characters| ==> store.characters[k].animeId == animeId
    ensures AllStored(store.characters, charList)
    ensures AllStored(old(store.characters), charList)
            ==> store.characters == old(store.characters) && store.images == old(store.images)
    ensures RowsOf(store.characters[|old(store.characters)|..], NewCast(old(store.characters), charList), animeId)
    ensures store.images == old(store.images)
                            + CastImages(store.characters[|old(store.characters)|..], NewCast(old(store.characters), charList))
    ensures RowsFromList(old(store.characters), store.characters, charList, animeId)
    ensures ImagesBelong(old(store.characters), store.characters, old(store.images), store.images)
  {
    savedCount := 0;
    ghost var known, knownImages := store.characters, store.images;
    ghost var rows: seq<CharacterRow>, cast: seq<Character> := [], [];
    for i := 0 to |charList|
      invariant store.Valid() && store.animes == old(store.animes) && store.votes == old(store.votes)
      invariant RowsOf(rows, cast, animeId) && savedCount == |rows|
      invariant store.characters == known + rows && store.images == knownImages + CastImages(rows, cast)
      invariant cast == NewCast(known, charList[..i])
    {
      var saved := SeedCharacter(store, charList[i], animeId);
      HasCharacterAfterCast(known, rows, cast, animeId, charList[i].id);
      NewCastSnoc(known, charList[..i], charList[i]);
      if saved.Some? {
        savedCount := savedCount + 1;
        RowsOfSnoc(rows, cast, animeId, saved.value, charList[i]);
        CastImagesSnoc(rows, cast, saved.value, charList[i]);
        Seqs.AppendAssociative(known, rows, [saved.value]);
        Seqs.AppendAssociative(knownImages, CastImages(rows, cast), ImageRows(saved.value.id, charList[i].image));
        rows, cast := rows + [saved.value], cast + [charList[i]];
      }
      Seqs.TakeOneMore(charList, i);
    }
    assert charList[..|charList|] == charList;
    NewCastOnTables(known, knownImages, rows, cast, charList, animeId);
  }

  /** Every character of `list` has a row. */
  ghost predicate AllStored(characters: seq<CharacterRow>, list: seq<Character>) {
    forall c :: c in list ==> HasCharacter(characters, c.id)
  }

  lemma AllStoredGrows(characters: seq<CharacterRow>, more: seq<CharacterRow>, list: seq<Character>)
    requires AllStored(characters, list) && characters <= more
    ensures AllStored(more, list)
  {
    forall c | c in list ensures HasCharacter(more, c.id) {
      HasCharacterGrows(characters, more, c.id);
    }
  }

  /** The body of the outer loop for an anime the catalog found: store the
      anime unless present, then every gathered character unless present.
      `anime` is the anime's row, created with its title and release date
      when new; the characters stored are the new cast of the gathered list,
      each with its image rows, all pointing at `anime`; `savedCount` is
      their number. */
  method SeedAnime(store: Store, media: Media, pageOf: nat -> PageAnswer) returns (anime: AnimeRow, savedCount: nat)
    requires store.Valid()
    modifies store
    ensures store.Valid()
    ensures HasAnime(store.animes, media.id)
    ensures HasAnime(old(store.animes), media.id) ==> store.animes == old(store.animes)
    ensures old(store.animes) <= store.animes
    ensures old(store.characters) <= store.characters && old(store.images) <= store.images
    ensures savedCount == |store.characters| - |old(store.characters)|
    ensures AllStored(store.characters, Gathered(pageOf, 1))
    ensures HasAnime(old(store.animes), media.id) && AllStored(old(store.characters), Gathered(pageOf, 1))
            ==> store.characters == old(store.characters) && store.images == old(store.images)
    ensures store.votes == old(store.votes)
    ensures anime in store.animes && anime.externalId == media.id
    ensures !HasAnime(old(store.animes), media.id) ==>
              && store.animes == old(store.animes) + [anime]
              && anime.title == AnimeTitle(media) && anime.releaseDate == AnimeReleaseDate(media)
    ensures RowsOf(store.characters[|old(store.characters)|..], NewCast(old(store.characters), Gathered(pageOf, 1)), anime.id)
    ensures store.images == old(store.images)
                            + CastImages(store.characters[|old(store.characters)|..],
                                         NewCast(old(store.characters), Gathered(pageOf, 1)))
    ensures RowsFromList(old(store.characters), store.characters, Gathered(pageOf, 1), anime.id)
    ensures ImagesBelong(old(store.characters), store.characters, old(store.images), store.images)
  {
    anime := StoreAnime(store, media);
    assert HasAnime(store.animes, media.id) by {
      var k :| 0 <= k < |store.animes| && store.animes[k] == anime;
    }
    var charList := FetchCharactersForAnime(pageOf);
    savedCount := SeedCast(store, charList, anime.id);
  }

  /** After a run: every target the catalog found has its anime row, and
      every character gathered for it has its character row. */
  ghost predicate Seeded(animes: seq<AnimeRow>, characters: seq<CharacterRow>, targets: seq<string>,
                         lookup: string -> Response<Option<Media>>, pagesOf: int -> nat -> PageAnswer)
  {
    forall name :: name in targets && FetchedAnime(lookup(name)).Some? ==>
      var m := FetchedAnime(lookup(name)).value;
      && HasAnime(animes, m.id)
      && AllStored(characters, Gathered(pagesOf(m.id), 1))
  }

  lemma SeededGrows(animes: seq<AnimeRow>, characters: seq<CharacterRow>, animes': seq<AnimeRow>, characters': seq<CharacterRow>,
                    targets: seq<string>, lookup: string -> Response<Option<Media>>, pagesOf: int -> nat -> PageAnswer)
    requires Seeded(animes, characters, targets, lookup, pagesOf)
    requires animes <= animes' && characters <= characters'
    ensures Seeded(animes', characters', targets, lookup, pagesOf)
  {
    forall name | name in targets && FetchedAnime(lookup(name)).Some?
      ensures var m := FetchedAnime(lookup(name)).value;
              && HasAnime(animes', m.id)
              && AllStored(characters', Gathered(pagesOf(m.id), 1))
    {
      var m := FetchedAnime(lookup(name)).value;
      HasAnimeGrows(animes, animes', m.id);
      AllStoredGrows(characters, characters', Gathered(pagesOf(m.id), 1));
    }
  }

  /** The anime row `a` was created for a target the catalog found: its
      external id, title and release date are those of the media found. */
  ghost predicate CreatedFor(a: AnimeRow, targets: seq<string>, lookup: string -> Response<Option<Media>>) {
    exists name :: name in targets && CreatedFrom(a, FetchedAnime(lookup(name)))
  }

  ghost predicate CreatedFrom(a: AnimeRow, found: Option<Media>) {
    && found.Some?
    && a.externalId == found.value.id
    && a.title == AnimeTitle(found.value)
    && a.releaseDate == AnimeReleaseDate(found.value)
  }

  /** The character row `row` was written for a target the catalog found:
      it is the new row of one of the characters gathered for that anime,
      pointing at the anime's row in `animes`. */
  ghost predicate WrittenFor(row: CharacterRow, animes: seq<AnimeRow>, targets: seq<string>,
                             lookup: string -> Response<Option<Media>>, pagesOf: int -> nat -> PageAnswer)
  {
    exists name :: name in targets && WrittenFrom(row, animes, FetchedAnime(lookup(name)), pagesOf)
  }

  ghost predicate WrittenFrom(row: CharacterRow, animes: seq<AnimeRow>, found: Option<Media>, pagesOf: int -> nat -> PageAnswer) {
    && found.Some?
    && (exists a :: a in animes && a.externalId == found.value.id && a.id == row.animeId)
    && (exists c :: c in Gathered(pagesOf(found.value.id), 1) && IsNewCharacterRow(row, c, row.animeId))
  }

  /** Every row added to the tables `animes`, `chars`, `imgs` since
      `animes0`, `chars0`, `imgs0` was written for a target the catalog
      found: anime rows are created from the media found, character rows
      from the characters gathered for it, and image rows belong to the new
      character rows. */
  ghost predicate OnlyFoundTargets(animes0: seq<AnimeRow>, chars0: seq<CharacterRow>, imgs0: seq<ImageRow>,
                                   animes: seq<AnimeRow>, chars: seq<CharacterRow>, imgs: seq<ImageRow>,
                                   targets: seq<string>, lookup: string -> Response<Option<Media>>,
                                   pagesOf: int -> nat -> PageAnswer)
  {
    && animes0 <= animes && chars0 <= chars && imgs0 <= imgs
    && (forall k :: |animes0| <= k < |animes| ==> CreatedFor(animes[k], targets, lookup))
    && (forall k :: |chars0| <= k < |chars| ==> WrittenFor(chars[k], animes, targets, lookup, pagesOf))
    && ImagesBelong(chars0, chars, imgs0, imgs)
  }

  /** One pass of the outer loop for target `name`, as `SeedAnime` leaves
      the tables, keeps every added row attributed to a found target. */
  lemma OnlyFoundTargetsStep(animes0: seq<AnimeRow>, chars0: seq<CharacterRow>, imgs0: seq<ImageRow>,
                             animes1: seq<AnimeRow>, chars1: seq<CharacterRow>, imgs1: seq<ImageRow>,
                             animes2: seq<AnimeRow>, chars2: seq<CharacterRow>, imgs2: seq<ImageRow>,
                             targets: seq<string>, lookup: string -> Response<Option<Media>>,
                             pagesOf: int -> nat -> PageAnswer, name: string, anime: AnimeRow)
    requires OnlyFoundTargets(animes0, chars0, imgs0, animes1, chars1, imgs1, targets, lookup, pagesOf)
    requires name in targets && FetchedAnime(lookup(name)).Some?
    requires anime in animes2 && anime.externalId == FetchedAnime(lookup(name)).value.id
    requires animes2 == animes1 || (animes2 == animes1 + [anime] && CreatedFrom(anime, FetchedAnime(lookup(name))))
    requires chars1 <= chars2 && imgs1 <= imgs2
    requires RowsFromList(chars1, chars2, Gathered(pagesOf(anime.externalId), 1), anime.id)
    requires ImagesBelong(chars1, chars2, imgs1, imgs2)
    ensures OnlyFoundTargets(animes0, chars0, imgs0, animes2, chars2, imgs2, targets, lookup, pagesOf)
  {
    CreatedForStep(animes0, animes1, animes2, targets, lookup, name, anime);
    WrittenForStep(chars0, animes1, chars1, animes2, chars2, targets, lookup, pagesOf, name, anime);
    ImagesBelongStep(chars0, imgs0, chars1, imgs1, chars2, imgs2);
  }

  lemma CreatedForStep(animes0: seq<AnimeRow>, animes1: seq<AnimeRow>, animes2: seq<AnimeRow>,
                       targets: seq<string>, lookup: string -> Response<Option<Media>>, name: string, anime: AnimeRow)
    requires animes0 <= animes1 && forall k :: |animes0| <= k < |animes1| ==> CreatedFor(animes1[k], targets, lookup)
    requires name in targets
    requires animes2 == animes1 || (animes2 == animes1 + [anime] && CreatedFrom(anime, FetchedAnime(lookup(name))))
    ensures animes0 <= animes2 && forall k :: |animes0| <= k < |animes2| ==> CreatedFor(animes2[k], targets, lookup)
  {
    forall k | |animes0| <= k < |animes2| ensures CreatedFor(animes2[k], targets, lookup) {
      if k < |animes1| {
        assert animes2[k] == animes1[k];
      } else {
        assert animes2[k] == anime;
      }
    }
  }

  lemma WrittenForStep(chars0: seq<CharacterRow>, animes1: seq<AnimeRow>, chars1: seq<CharacterRow>,
                       animes2: seq<AnimeRow>, chars2: seq<CharacterRow>,
                       targets: seq<string>, lookup: string -> Response<Option<Media>>,
                       pagesOf: int -> nat -> PageAnswer, name: string, anime: AnimeRow)
    requires chars0 <= chars1 && forall k :: |chars0| <= k < |chars1| ==> WrittenFor(chars1[k], animes1, targets, lookup, pagesOf)
    requires name in targets && FetchedAnime(lookup(name)).Some?
    requires anime in animes2 && anime.externalId == FetchedAnime(lookup(name)).value.id
    requires animes1 <= animes2 && chars1 <= chars2
    requires RowsFromList(chars1, chars2, Gathered(pagesOf(anime.externalId), 1), anime.id)
    ensures chars0 <= chars2 && forall k :: |chars0| <= k < |chars2| ==> WrittenFor(chars2[k], animes2, targets, lookup, pagesOf)
  {
    forall k | |chars0| <= k < |chars2| ensures WrittenFor(chars2[k], animes2, targets, lookup, pagesOf) {
      if k < |chars1| {
        assert chars2[k] == chars1[k];
        var other :| other in targets && WrittenFrom(chars1[k], animes1, FetchedAnime(lookup(other)), pagesOf);
        var a :| a in animes1 && a.externalId == FetchedAnime(lookup(other)).value.id && a.id == chars1[k].animeId;
        assert a in animes2;
        assert WrittenFrom(chars2[k], animes2, FetchedAnime(lookup(other)), pagesOf);
      } else {
        assert WrittenFrom(chars2[k], animes2, FetchedAnime(lookup(name)), pagesOf);
      }
    }
  }

  /** `id` is the primary key of a character row added to `chars` since
      `chars0`. */
  ghost predicate AddedId(chars0: seq<CharacterRow>, chars: seq<CharacterRow>, id: Id) {
    exists j :: |chars0| <= j < |chars| && chars[j].id == id
  }

  /** Every image row added to `imgs` since `imgs0` belongs to a character
      row added to `chars` since `chars0`. */
  ghost predicate ImagesBelong(chars0: seq<CharacterRow>, chars: seq<CharacterRow>, imgs0: seq<ImageRow>, imgs: seq<ImageRow>) {
    forall k :: |imgs0| <= k < |imgs| ==> AddedId(chars0, chars, imgs[k].characterId)
  }

  lemma ImagesBelongStep(chars0: seq<CharacterRow>, imgs0: seq<ImageRow>, chars1: seq<CharacterRow>, imgs1: seq<ImageRow>,
                         chars2: seq<CharacterRow>, imgs2: seq<ImageRow>)
    requires chars0 <= chars1 && chars1 <= chars2 && imgs0 <= imgs1 && imgs1 <= imgs2
    requires ImagesBelong(chars0, chars1, imgs0, imgs1) && ImagesBelong(chars1, chars2, imgs1, imgs2)
    ensures imgs0 <= imgs2 && ImagesBelong(chars0, chars2, imgs0, imgs2)
  {
    forall k | |imgs0| <= k < |imgs2| ensures AddedId(chars0, chars2, imgs2[k].characterId) {
      if k < |imgs1| {
        assert imgs2[k] == imgs1[k];
        var j :| |chars0| <= j < |chars1| && chars1[j].id == imgs1[k].characterId;
        assert chars2[j] == chars1[j];
      } else {
        assert AddedId(chars1, chars2, imgs2[k].characterId);
      }
    }
  }

  /** A run in which the catalog finds none of the targets writes nothing. */
  lemma UnfoundTargetsWriteNothing(animes0: seq<AnimeRow>, chars0: seq<CharacterRow>, imgs0: seq<ImageRow>,
                                   animes: seq<AnimeRow>, chars: seq<CharacterRow>, imgs: seq<ImageRow>,
                                   targets: seq<string>, lookup: string -> Response<Option<Media>>,
                                   pagesOf: int -> nat -> PageAnswer)
    requires OnlyFoundTargets(animes0, chars0, imgs0, animes, chars, imgs, targets, lookup, pagesOf)
    requires forall name :: name in targets ==> FetchedAnime(lookup(name)).None?
    ensures animes == animes0 && chars == chars0 && imgs == imgs0
  {
    if |animes0| < |animes| && CreatedFor(animes[|animes0|], targets, lookup) {
      assert false;
    }
    if |chars0| < |chars| && WrittenFor(chars[|chars0|], animes, targets, lookup, pagesOf) {
      assert false;
    }
    if |imgs0| < |imgs| && AddedId(chars0, chars, imgs[|imgs0|].characterId) {
      assert false;
    }
  }

  /** `seedDatabase()` over the target list, with `lookup` answering the
      anime searches and `pagesOf(id)` the character pages of anime `id`.
      Rows are only added, and only for targets the catalog found: a target
      it cannot resolve writes nothing. Afterwards every found target is
      stored with its characters, and a run over a store that already holds
      all of them writes nothing, so running the seeder twice is running it
      once. */
  method SeedDatabase(store: Store, targets: seq<string>, lookup: string -> Response<Option<Media>>,
                      pagesOf: int -> nat -> PageAnswer)
    requires store.Valid()
    modifies store
    ensures store.Valid()
    ensures old(store.animes) <= store.animes && old(store.characters) <= store.characters
    ensures old(store.images) <= store.images && store.votes == old(store.votes)
    ensures Seeded(store.animes, store.characters, targets, lookup, pagesOf)
    ensures Seeded(old(store.animes), old(store.characters), targets, lookup, pagesOf)
            ==> store.animes == old(store.animes) && store.characters == old(store.characters)
                && store.images == old(store.images)
    ensures OnlyFoundTargets(old(store.animes), old(store.characters), old(store.images),
                             store.animes, store.characters, store.images, targets, lookup, pagesOf)
  {
    for i := 0 to |targets|
      invariant store.Valid()
      invariant store.votes == old(store.votes)
      invariant Seeded(store.animes, store.characters, targets[..i], lookup, pagesOf)
      invariant Seeded(old(store.animes), old(store.characters), targets, lookup, pagesOf)
                ==> store.animes == old(store.animes) && store.characters == old(store.characters)
                    && store.images == old(store.images)
      invariant OnlyFoundTargets(old(store.animes), old(store.characters), old(store.images),
                                 store.animes, store.characters, store.images, targets, lookup, pagesOf)
    {
      var animeData := FetchedAnime(lookup(targets[i]));
      if animeData.None? {
        Seqs.TakeOneMore(targets, i);
        continue;
      }
      ghost var animes, characters, images := store.animes, store.characters, store.images;
      var anime, savedCount := SeedAnime(store, animeData.value, pagesOf(animeData.value.id));
      OnlyFoundTargetsStep(old(store.animes), old(store.characters), old(store.images), animes, characters, images,
                           store.animes, store.characters, store.images, targets, lookup, pagesOf, targets[i], anime);
      SeededGrows(animes, characters, store.animes, store.characters, targets[..i], lookup, pagesOf);
      Seqs.TakeOneMore(targets, i);
      if Seeded(old(store.animes), old(store.characters), targets, lookup, pagesOf) {
        assert targets[i] in targets;
      }
    }
    assert targets[..|targets|] == targets;
  }
}
