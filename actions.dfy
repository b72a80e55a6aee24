/** The server actions of src/app/actions.ts: the game configuration kept in
    a cookie, sourcing characters (filter, shuffle, limit), the vote tally and
    rankings, the vote statistics and the list of available genders. */
module Actions {
  import opened Types
  import opened Seqs
  import Js
  import opened Db

  // ---------------------------------------------------------------------
  // The game configuration cookie

  /** `GameConfig`: the chosen anime titles and genders and the card limit
      (`null` = all). */
  datatype GameConfig = GameConfig(animes: seq<string>, genders: seq<string>, limit: Option<int>)

  /** A value `JSON.parse` can return (numbers are integers here). */
  datatype Json =
    | JNull
    | JBool(b: bool)
    | JNumber(n: int)
    | JString(s: string)
    | JArray(items: seq<Json>)
    | JObject(fields: seq<(string, Json)>)

  /** `obj[key]`: the value of the last field named `key` (the one that
      `JSON.parse` keeps), or `undefined`. */
  function Property(fields: seq<(string, Json)>, key: string): (r: Option<Json>)
    ensures r.Some? ==> (key, r.value) in fields
    ensures r.None? ==> forall k :: 0 <= k < |fields| ==> fields[k].0 != key
    decreases |fields|
  {
    if |fields| == 0 then None
    else if fields[|fields| - 1].0 == key then Some(fields[|fields| - 1].1)
    else Property(fields[..|fields| - 1], key)
  }

  /** The object `saveGameConfig` hands to `JSON.stringify`. */
  function ConfigJson(c: GameConfig): (j: Json)
    ensures j.JObject? && |j.fields| == 3
    ensures Property(j.fields, "animes") == Some(StringsJson(c.animes))
    ensures Property(j.fields, "genders") == Some(StringsJson(c.genders))
    ensures Property(j.fields, "limit") == Some(if c.limit.Some? then JNumber(c.limit.value) else JNull)
  {
    var fields := [("animes", StringsJson(c.animes)),
                   ("genders", StringsJson(c.genders)),
                   ("limit", if c.limit.Some? then JNumber(c.limit.value) else JNull)];
    assert fields[..|fields| - 1] == fields[..2] && fields[..2][..1] == fields[..1];
    assert fields[2].0 != "animes" && fields[1].0 != "animes" && fields[2].0 != "genders";
    assert Property(fields[..1], "animes") == Some(fields[0].1);
    assert Property(fields[..2], "animes") == Some(fields[0].1);
    JObject(fields)
  }

  function StringsJson(ss: seq<string>): (j: Json)
    ensures j.JArray? && |j.items| == |ss|
    ensures forall k :: 0 <= k < |ss| ==> j.items[k] == JString(ss[k])
  {
    JArray(seq(|ss|, k requires 0 <= k < |ss| => JString(ss[k])))
  }

  /** The strings of a JSON array of strings; `None` when an item is not a string. */
  function JsonStrings(items: seq<Json>): (r: Option<seq<string>>)
    ensures r.Some? <==> forall k :: 0 <= k < |items| ==> items[k].JString?
    ensures r.Some? ==> |r.value| == |items| && forall k :: 0 <= k < |items| ==> items[k] == JString(r.value[k])
    decreases |items|
  {
    if |items| == 0 then Some([])
    else if !items[0].JString? then None
    else
      match JsonStrings(items[1..])
      case None => None
      case Some(rest) => Some([items[0].s] + rest)
  }

  lemma JsonStringsInverse(items: seq<Json>)
    requires JsonStrings(items).Some?
    ensures StringsJson(JsonStrings(items).value).items == items
  {
  }

  /** A parsed cookie read as a `GameConfig`, checking the shape the code
      relies on: `animes` and `genders` arrays of strings, and `limit` a
      number, `null` or missing. */
  function DecodeConfig(j: Json): (r: Option<GameConfig>)
    ensures r.Some? ==> j.JObject?
    ensures r.Some? ==> Property(j.fields, "animes") == Some(StringsJson(r.value.animes))
    ensures r.Some? ==> Property(j.fields, "genders") == Some(StringsJson(r.value.genders))
    ensures r.Some? && r.value.limit.Some? ==> Property(j.fields, "limit") == Some(JNumber(r.value.limit.value))
    ensures r.Some? && r.value.limit.None? ==> Property(j.fields, "limit") in {None, Some(JNull)}
  {
    if !j.JObject? then None
    else
      var animes := Property(j.fields, "animes");
      var genders := Property(j.fields, "genders");
      var limit := Property(j.fields, "limit");
      if animes.None? || !animes.value.JArray? || genders.None? || !genders.value.JArray? then None
      else
        var a := JsonStrings(animes.value.items);
        var g := JsonStrings(genders.value.items);
        if a.None? || g.None? then None
        else
          assert animes.value == StringsJson(a.value) by { JsonStringsInverse(animes.value.items); }
          assert genders.value == StringsJson(g.value) by { JsonStringsInverse(genders.value.items); }
          if limit.Some? && limit.value.JNumber? then Some(GameConfig(a.value, g.value, Some(limit.value.n)))
          else if limit.None? || limit.value.JNull? then Some(GameConfig(a.value, g.value, None))
          else None
  }

  /** What `saveGameConfig` writes, `getGameConfig` reads back. */
  lemma ConfigRoundTrip(c: GameConfig)
    ensures DecodeConfig(ConfigJson(c)) == Some(c)
  {
    var fields := ConfigJson(c).fields;
    assert fields[..2] == [("animes", StringsJson(c.animes)), ("genders", StringsJson(c.genders))];
    assert fields[..2][..1] == [("animes", StringsJson(c.animes))];
    assert Property(fields[..2][..1], "animes") == Some(StringsJson(c.animes));
    assert Property(fields[..2], "animes") == Some(StringsJson(c.animes));
    assert Property(fields, "animes") == Some(StringsJson(c.animes));
    assert Property(fields, "genders") == Some(StringsJson(c.genders));
    assert Property(fields, "limit") == Some(fields[2].1);
    StringsRoundTrip(c.animes);
    StringsRoundTrip(c.genders);
  }

  lemma StringsRoundTrip(ss: seq<string>)
    ensures JsonStrings(StringsJson(ss).items) == Some(ss)
  {
    var r := JsonStrings(StringsJson(ss).items);
    assert r.Some?;
    assert r.value == ss;
  }

  /** `getGameConfig()` as written: no cookie or an empty value gives `null`,
      a value `JSON.parse` rejects (`parse` answers `None`) gives `null`, and
      anything else is returned as parsed (`as GameConfig` checks nothing). */
  function GetGameConfigAsWritten(cookie: Option<string>, parse: string -> Option<Json>): (r: Option<Json>)
    ensures !Js.Truthy(cookie) ==> r.None?
    ensures Js.Truthy(cookie) ==> r == parse(cookie.value)
  {
    if !Js.Truthy(cookie) then None else parse(cookie.value)
  }

  /** `getGameConfig()` with the cast replaced by a check of the shape: the
      same `null` cases, and also `null` for any value that is not a
      configuration. */
  function GetGameConfig(cookie: Option<string>, parse: string -> Option<Json>): (r: Option<GameConfig>)
    ensures !Js.Truthy(cookie) ==> r.None?
    ensures Js.Truthy(cookie) && parse(cookie.value).None? ==> r.None?
    ensures Js.Truthy(cookie) && parse(cookie.value).Some? && !parse(cookie.value).value.JObject? ==> r.None?
  {
    match GetGameConfigAsWritten(cookie, parse)
    case None => None
    case Some(j) => DecodeConfig(j)
  }

  /** A cookie holding a saved configuration is read back unchanged. */
  lemma SavedConfigIsRead(cookie: string, parse: string -> Option<Json>, c: GameConfig)
    requires cookie != "" && parse(cookie) == Some(ConfigJson(c))
    ensures GetGameConfig(Some(cookie), parse) == Some(c)
  {
    ConfigRoundTrip(c);
  }

  // ---------------------------------------------------------------------
  // Filters

  /** `list && list.length > 0`: an absent or empty list filters nothing. */
  predicate Active(list: Option<seq<string>>) {
    list.Some? && |list.value| > 0
  }

  /** `inArray(characters.gender, genders)`; a null gender is in no list. */
  predicate GenderMatches(genders: Option<seq<string>>, c: CharacterRow) {
    !Active(genders) || (c.gender.Some? && c.gender.value in genders.value)
  }

  /** `animes.title` of the row with id `id` is one of `names`. */
  predicate TitledAnime(animes: seq<AnimeRow>, id: Id, names: seq<string>) {
    exists k | 0 <= k < |animes| :: animes[k].id == id && animes[k].title in names
  }

  /** `inArray(characters.animeId, select id from animes where title in names)`. */
  predicate AnimeMatches(animes: seq<AnimeRow>, names: Option<seq<string>>, c: CharacterRow) {
    !Active(names) || TitledAnime(animes, c.animeId, names.value)
  }

  /** `list.length > 0 ? list : undefined`, as the callers pass a selection. */
  function AsFilter(list: seq<string>): (r: Option<seq<string>>)
    ensures Active(r) <==> |list| > 0
    ensures r.Some? ==> r.value == list
  {
    if |list| > 0 then Some(list) else None
  }

  /** `and(...filters)`, with no filter at all when both lists are inactive. */
  predicate Selected(animes: seq<AnimeRow>, genders: Option<seq<string>>, names: Option<seq<string>>, c: CharacterRow) {
    GenderMatches(genders, c) && AnimeMatches(animes, names, c)
  }

  /** The rows `findMany({ where })` returns, in table order. */
  function SelectCharacters(animes: seq<AnimeRow>, cs: seq<CharacterRow>, genders: Option<seq<string>>, names: Option<seq<string>>)
    : (r: seq<CharacterRow>)
    ensures forall c :: c in r <==> c in cs && Selected(animes, genders, names, c)
    ensures IsSubsequence(r, cs)
    decreases |cs|
  {
    if |cs| == 0 then []
    else
      var rest := SelectCharacters(animes, cs[1..], genders, names);
      if Selected(animes, genders, names, cs[0]) then
        [cs[0]] + rest
      else
        SubsequenceOfTail(rest, cs);
        rest
  }

  /** `queryCharacters(genders, animeNames)`: the selected rows with their
      images and anime loaded. */
  function QueryCharacters(db: Snapshot, genders: Option<seq<string>>, names: Option<seq<string>>)
    : (r: seq<CharacterWithRelations>)
    ensures |r| == |SelectCharacters(db.animes, db.characters, genders, names)|
    ensures forall i :: 0 <= i < |r| ==> r[i] == WithRelations(db, SelectCharacters(db.animes, db.characters, genders, names)[i])
  {
    var rows := SelectCharacters(db.animes, db.characters, genders, names);
    seq(|rows|, i requires 0 <= i < |rows| => WithRelations(db, rows[i]))
  }

  /** `getCharacterCount`: `count(*)` under the same filters, counted row by row. */
  function CharacterCount(animes: seq<AnimeRow>, cs: seq<CharacterRow>, genders: Option<seq<string>>, names: Option<seq<string>>)
    : (n: nat)
    ensures n <= |cs|
    decreases |cs|
  {
    if |cs| == 0 then 0
    else CharacterCount(animes, cs[1..], genders, names) + (if Selected(animes, genders, names, cs[0]) then 1 else 0)
  }

  /** The count shown in the setup form is the number of characters a game
      with the same filters is dealt before any limit. */
  lemma {:induction false} CountMatchesQuery(animes: seq<AnimeRow>, cs: seq<CharacterRow>, genders: Option<seq<string>>, names: Option<seq<string>>)
    ensures CharacterCount(animes, cs, genders, names) == |SelectCharacters(animes, cs, genders, names)|
    decreases |cs|
  {
    if |cs| > 0 {
      CountMatchesQuery(animes, cs[1..], genders, names);
    }
  }

  /** With both lists absent or empty every character is dealt, in table order. */
  lemma {:induction false} NoFiltersSelectAll(animes: seq<AnimeRow>, cs: seq<CharacterRow>, genders: Option<seq<string>>, names: Option<seq<string>>)
    requires !Active(genders) && !Active(names)
    ensures SelectCharacters(animes, cs, genders, names) == cs
    decreases |cs|
  {
    if |cs| > 0 {
      NoFiltersSelectAll(animes, cs[1..], genders, names);
      assert cs == [cs[0]] + cs[1..];
    }
  }

  // ---------------------------------------------------------------------
  // Shuffle

  /** `[s[i], s[j]] = [s[j], s[i]]` */
  function Swap<T>(s: seq<T>, i: nat, j: nat): (r: seq<T>)
    requires i < |s| && j < |s|
    ensures |r| == |s| && r[i] == s[j] && r[j] == s[i]
    ensures multiset(r) == multiset(s)
  {
    s[i := s[j]][j := s[i]]
  }

  /** The rest of the Fisher-Yates loop from loop variable `i` down to 1 on
      the array `s`; the call of `Math.random()` in the iteration whose loop
      variable is `i` returns `rand[i - 1]`. */
  function ShuffleFrom<T>(s: seq<T>, rand: seq<real>, i: nat): (r: seq<T>)
    requires i < |s| && |s| <= |rand| + 1 && Js.Draws(rand)
    ensures |r| == |s|
    ensures multiset(r) == multiset(s)
    decreases i
  {
    if i == 0 then s
    else
      var j := Js.RandomIndex(rand[i - 1], i + 1);
      ShuffleFrom(Swap(s, i, j), rand, i - 1)
  }

  /** `shuffle(s)` with its draws fixed in advance. */
  function Shuffled<T>(s: seq<T>, rand: seq<real>): (r: seq<T>)
    requires |s| <= |rand| + 1 && Js.Draws(rand)
    ensures |r| == |s|
    ensures multiset(r) == multiset(s)
  {
    if |s| == 0 then s else ShuffleFrom(s, rand, |s| - 1)
  }

  /** `shuffle`: copies `a`, then swaps `result[i]` with `result[j]`,
      `0 <= j <= i`, for `i` from the last index down to 1. `a` itself is not
      modified (the method may modify nothing that existed before). */
  method Shuffle<T>(a: array<T>, rand: seq<real>) returns (result: array<T>)
    requires a.Length <= |rand| + 1 && Js.Draws(rand)
    ensures fresh(result)
    ensures result[..] == Shuffled(a[..], rand)
  {
    var n := a.Length;
    result := CopyOf(a);
    ghost var goal := Shuffled(a[..], rand);
    if n == 0 {
      return;
    }
    var i := n - 1;
    assert goal == ShuffleFrom(a[..], rand, i);
    while i > 0
      invariant 0 <= i < n == result.Length
      invariant ShuffleFrom(result[..], rand, i) == goal
      decreases i
    {
      ShuffleIteration(result, rand, i, goal);
      i := i - 1;
    }
  }

  /** `[...array]`: a new array with the same elements. */
  method CopyOf<T>(a: array<T>) returns (b: array<T>)
    ensures fresh(b) && b[..] == a[..]
  {
    b := new T[a.Length](k requires 0 <= k < a.Length reads a => a[k]);
  }

  /** One pass of the loop body: `result[i]` is swapped with `result[j]`
      for the drawn `j`, which leaves the rest of the loop one step shorter. */
  method ShuffleIteration<T>(result: array<T>, rand: seq<real>, i: nat, ghost goal: seq<T>)
    requires 0 < i < result.Length <= |rand| + 1 && Js.Draws(rand)
    requires ShuffleFrom(result[..], rand, i) == goal
    modifies result
    ensures ShuffleFrom(result[..], rand, i - 1) == goal
  {
    var j := Js.RandomIndex(rand[i - 1], i + 1);
    ShuffleStep(result[..], rand, i);
    SwapElements(result, i, j);
  }

  lemma ShuffleStep<T>(s: seq<T>, rand: seq<real>, i: nat)
    requires 0 < i < |s| && |s| <= |rand| + 1 && Js.Draws(rand)
    ensures ShuffleFrom(s, rand, i) == ShuffleFrom(Swap(s, i, Js.RandomIndex(rand[i - 1], i + 1)), rand, i - 1)
  {
  }

  /** `[result[i], result[j]] = [result[j], result[i]]` on the array. */
  method SwapElements<T>(result: array<T>, i: nat, j: nat)
    requires i < result.Length && j < result.Length
    modifies result
    ensures result[..] == Swap(old(result[..]), i, j)
  {
    var t := result[i];
    result[i] := result[j];
    result[j] := t;
  }

  // ---------------------------------------------------------------------
  // getCharacters

  /** `if (limit && limit > 0) return s.slice(0, limit); return s;` */
  function ApplyLimit<T>(s: seq<T>, limit: Option<int>): (r: seq<T>)
    ensures r <= s
    ensures limit.Some? && limit.value > 0 && limit.value < |s| ==> |r| == limit.value
    ensures !(limit.Some? && 0 < limit.value < |s|) ==> r == s
  {
    if limit.Some? && limit.value > 0 && limit.value < |s| then s[..limit.value] else s
  }

  /** `getCharacters({ genders, animeNames, limit })`: the selected characters
      shuffled, then cut to the limit. */
  method GetCharacters(db: Snapshot, genders: Option<seq<string>>, names: Option<seq<string>>, limit: Option<int>, rand: seq<real>)
    returns (r: seq<CharacterWithRelations>)
    requires |QueryCharacters(db, genders, names)| <= |rand| + 1 && Js.Draws(rand)
    ensures r == ApplyLimit(Shuffled(QueryCharacters(db, genders, names), rand), limit)
    ensures multiset(r) <= multiset(QueryCharacters(db, genders, names))
  {
    var data := QueryCharacters(db, genders, names);
    var a := new CharacterWithRelations[|data|](k requires 0 <= k < |data| => data[k]);
    assert a[..] == data;
    var shuffled := Shuffle(a, rand);
    r := ApplyLimit(shuffled[..], limit);
    PrefixMultiset(r, shuffled[..]);
  }

  lemma PrefixMultiset<T>(p: seq<T>, s: seq<T>)
    requires p <= s
    ensures multiset(p) <= multiset(s)
  {
    assert s == p + s[|p|..];
  }

  // ---------------------------------------------------------------------
  // Vote tally (queryCharacterRankings)

  /** One value of the `votesByCharacter` map: the character of the first
      vote seen for it, its counters per vote type and its total. The map key
      is kept alongside as `characterId`. */
  datatype Tally = Tally(characterId: Id, character: Option<CharacterWithRelations>, counts: VoteCounts, total: nat)

  predicate VotedFor(votes: seq<VoteRow>, id: Id) {
    exists k | 0 <= k < |votes| :: votes[k].characterId == id
  }

  lemma VotedForSnoc(votes: seq<VoteRow>, v: VoteRow, id: Id)
    ensures VotedFor(votes + [v], id) <==> VotedFor(votes, id) || v.characterId == id
  {
    var all := votes + [v];
    if VotedFor(all, id) && v.characterId != id {
      var k :| 0 <= k < |all| && all[k].characterId == id;
      assert votes[k] == all[k];
    }
    if VotedFor(votes, id) {
      var k :| 0 <= k < |votes| && votes[k].characterId == id;
      assert all[k] == votes[k];
    }
    assert all[|votes|] == v;
  }

  /** The keys of `votesByCharacter` in insertion order: each voted character
      once, in the order of its first vote. */
  function VotedIds(votes: seq<VoteRow>): (r: seq<Id>)
    ensures NoDup(r)
    ensures forall id :: id in r <==> VotedFor(votes, id)
    decreases |votes|
  {
    if |votes| == 0 then []
    else
      var before := votes[..|votes| - 1];
      var v := votes[|votes| - 1];
      var prev := VotedIds(before);
      assert votes == before + [v];
      assert forall id :: VotedFor(votes, id) <==> VotedFor(before, id) || v.characterId == id by {
        forall id ensures VotedFor(votes, id) <==> VotedFor(before, id) || v.characterId == id {
          VotedForSnoc(before, v, id);
        }
      }
      if v.characterId in prev then prev
      else
        NoDupSnoc(prev, v.characterId);
        prev + [v.characterId]
  }

  /** The number of votes for character `id`. */
  function CountFor(votes: seq<VoteRow>, id: Id): nat
    decreases |votes|
  {
    if |votes| == 0 then 0
    else CountFor(votes[..|votes| - 1], id) + (if votes[|votes| - 1].characterId == id then 1 else 0)
  }

  /** The number of votes of type `t` for character `id`. */
  function CountTypeFor(votes: seq<VoteRow>, id: Id, t: VoteType): nat
    decreases |votes|
  {
    if |votes| == 0 then 0
    else
      var v := votes[|votes| - 1];
      CountTypeFor(votes[..|votes| - 1], id, t) + (if v.characterId == id && v.voteType == t then 1 else 0)
  }

  /** The three counters of character `id` over `votes`. */
  function CountsOf(votes: seq<VoteRow>, id: Id): VoteCounts {
    VoteCounts(CountTypeFor(votes, id, Smash), CountTypeFor(votes, id, Pass), CountTypeFor(votes, id, Kill))
  }

  /** The entry the tally holds for `id` once it has seen `votes`. */
  function TallyOf(db: Snapshot, votes: seq<VoteRow>, id: Id): Tally {
    Tally(id, LoadCharacter(db, id), CountsOf(votes, id), CountFor(votes, id))
  }

  /** `Array.from(votesByCharacter.values())` after the loop over `votes`. */
  function Tallies(db: Snapshot, votes: seq<VoteRow>): seq<Tally> {
    var ids := VotedIds(votes);
    seq(|ids|, k requires 0 <= k < |ids| => TallyOf(db, votes, ids[k]))
  }

  lemma CountsSnoc(votes: seq<VoteRow>, v: VoteRow, id: Id, t: VoteType)
    ensures CountFor(votes + [v], id) == CountFor(votes, id) + (if v.characterId == id then 1 else 0)
    ensures CountTypeFor(votes + [v], id, t)
            == CountTypeFor(votes, id, t) + (if v.characterId == id && v.voteType == t then 1 else 0)
  {
    assert (votes + [v])[..|votes|] == votes;
  }

  lemma {:induction false} NotVotedCountsZero(votes: seq<VoteRow>, id: Id)
    requires !VotedFor(votes, id)
    ensures CountFor(votes, id) == 0
    ensures forall t :: CountTypeFor(votes, id, t) == 0
    decreases |votes|
  {
    if |votes| > 0 {
      var before := votes[..|votes| - 1];
      assert votes == before + [votes[|votes| - 1]];
      VotedForSnoc(before, votes[|votes| - 1], id);
      NotVotedCountsZero(before, id);
    }
  }

  lemma CountsOfSnoc(votes: seq<VoteRow>, v: VoteRow, id: Id)
    ensures CountsOf(votes + [v], id) == if id == v.characterId then CountsOf(votes, id).Inc(v.voteType)
                                         else CountsOf(votes, id)
    ensures CountFor(votes + [v], id) == CountFor(votes, id) + (if v.characterId == id then 1 else 0)
  {
    CountsSnoc(votes, v, id, Smash);
    CountsSnoc(votes, v, id, Pass);
    CountsSnoc(votes, v, id, Kill);
    var before := CountsOf(votes, id);
    var after := CountsOf(votes + [v], id);
    if id == v.characterId {
      match v.voteType
      case Smash => assert after == before.(smash := before.smash + 1);
      case Pass => assert after == before.(pass := before.pass + 1);
      case Kill => assert after == before.(kill := before.kill + 1);
    }
  }

  /** A vote changes only its own character's entry: one more of its type,
      one more in total. */
  lemma TallyOfSnoc(db: Snapshot, votes: seq<VoteRow>, v: VoteRow, id: Id)
    ensures id != v.characterId ==> TallyOf(db, votes + [v], id) == TallyOf(db, votes, id)
    ensures id == v.characterId ==> TallyOf(db, votes + [v], id) == Bump(TallyOf(db, votes, id), v.voteType)
  {
    CountsOfSnoc(votes, v, id);
  }

  lemma VotedIdsSnoc(votes: seq<VoteRow>, v: VoteRow)
    ensures VotedIds(votes + [v]) == if v.characterId in VotedIds(votes) then VotedIds(votes)
                                     else VotedIds(votes) + [v.characterId]
  {
    assert (votes + [v])[..|votes|] == votes;
  }

  lemma FreshTally(db: Snapshot, votes: seq<VoteRow>, id: Id)
    requires id !in VotedIds(votes)
    ensures TallyOf(db, votes, id) == FirstEntry(db, id)
  {
    NotVotedCountsZero(votes, id);
  }

  /** `existing[vote.type]++; existing.total++;` */
  function Bump(e: Tally, t: VoteType): Tally {
    e.(counts := e.counts.Inc(t), total := e.total + 1)
  }

  /** The entry created at a character's first vote, before it is bumped. */
  function FirstEntry(db: Snapshot, id: Id): Tally {
    Tally(id, LoadCharacter(db, id), NoVotes, 0)
  }

  /** `votesByCharacter` once the loop has seen `votes`. */
  function TallyMap(db: Snapshot, votes: seq<VoteRow>): map<Id, Tally> {
    map id | id in VotedIds(votes) :: TallyOf(db, votes, id)
  }

  lemma MapsEqual<K, V>(a: map<K, V>, b: map<K, V>)
    requires a.Keys == b.Keys
    requires forall k :: k in a ==> a[k] == b[k]
    ensures a == b
  {
  }

  /** A vote for a character already in the map bumps its entry. */
  lemma TallyMapSnocSeen(db: Snapshot, votes: seq<VoteRow>, v: VoteRow)
    requires v.characterId in VotedIds(votes)
    ensures TallyMap(db, votes + [v])
            == TallyMap(db, votes)[v.characterId := Bump(TallyOf(db, votes, v.characterId), v.voteType)]
  {
    var c := v.characterId;
    var after := TallyMap(db, votes + [v]);
    var expected := TallyMap(db, votes)[c := Bump(TallyOf(db, votes, c), v.voteType)];
    VotedIdsSnoc(votes, v);
    assert after.Keys == expected.Keys;
    forall id | id in after
      ensures after[id] == expected[id]
    {
      TallyOfSnoc(db, votes, v, id);
    }
    MapsEqual(after, expected);
  }

  /** A character's first vote adds its entry, bumped once. */
  lemma TallyMapSnocNew(db: Snapshot, votes: seq<VoteRow>, v: VoteRow)
    requires v.characterId !in VotedIds(votes)
    ensures TallyMap(db, votes + [v])
            == TallyMap(db, votes)[v.characterId := Bump(FirstEntry(db, v.characterId), v.voteType)]
  {
    var after := TallyMap(db, votes + [v]);
    var expected := TallyMap(db, votes)[v.characterId := Bump(FirstEntry(db, v.characterId), v.voteType)];
    TallyMapSnocNewKeys(db, votes, v);
    TallyMapSnocNewEntries(db, votes, v);
    MapsEqual(after, expected);
  }

  lemma TallyMapSnocNewKeys(db: Snapshot, votes: seq<VoteRow>, v: VoteRow)
    requires v.characterId !in VotedIds(votes)
    ensures TallyMap(db, votes + [v]).Keys
            == TallyMap(db, votes)[v.characterId := Bump(FirstEntry(db, v.characterId), v.voteType)].Keys
  {
    var after := TallyMap(db, votes + [v]);
    var before := TallyMap(db, votes);
    VotedIdsSnoc(votes, v);
    assert VotedIds(votes + [v]) == VotedIds(votes) + [v.characterId];
    forall id ensures id in after <==> id in before || id == v.characterId {
      assert id in after <==> id in VotedIds(votes + [v]);
      assert id in before <==> id in VotedIds(votes);
    }
  }

  lemma TallyMapSnocNewEntries(db: Snapshot, votes: seq<VoteRow>, v: VoteRow)
    requires v.characterId !in VotedIds(votes)
    ensures var after := TallyMap(db, votes + [v]);
            var expected := TallyMap(db, votes)[v.characterId := Bump(FirstEntry(db, v.characterId), v.voteType)];
            forall id :: id in after ==> id in expected && after[id] == expected[id]
  {
    var c := v.characterId;
    var after := TallyMap(db, votes + [v]);
    var expected := TallyMap(db, votes)[c := Bump(FirstEntry(db, c), v.voteType)];
    VotedIdsSnoc(votes, v);
    FreshTally(db, votes, c);
    forall id | id in after
      ensures id in expected && after[id] == expected[id]
    {
      TallyOfSnoc(db, votes, v, id);
    }
  }

  /** The body of the `for (const vote of allVotes)` loop: the vote bumps the
      counter of its type and the total of its character's entry, which is
      created (and placed last) at the character's first vote. */
  method RecordVote(db: Snapshot, ghost seen: seq<VoteRow>, byCharacter: map<Id, Tally>, order: seq<Id>, vote: VoteRow)
    returns (byCharacter': map<Id, Tally>, order': seq<Id>)
    requires byCharacter == TallyMap(db, seen) && order == VotedIds(seen)
    ensures byCharacter' == TallyMap(db, seen + [vote]) && order' == VotedIds(seen + [vote])
  {
    var charId := vote.characterId;
    VotedIdsSnoc(seen, vote);
    if charId in byCharacter {
      TallyMapSnocSeen(db, seen, vote);
      byCharacter' := byCharacter[charId := Bump(byCharacter[charId], vote.voteType)];
      order' := order;
    } else {
      TallyMapSnocNew(db, seen, vote);
      var existing := FirstEntry(db, charId);
      byCharacter' := byCharacter[charId := Bump(existing, vote.voteType)];
      order' := order + [charId];
    }
  }

  /** `queryCharacterRankings`: the votes grouped by character. */
  method QueryCharacterRankings(db: Snapshot) returns (r: seq<Tally>)
    ensures r == Tallies(db, db.votes)
  {
    var votesByCharacter: map<Id, Tally> := map[];
    var order: seq<Id> := [];
    for i := 0 to |db.votes|
      invariant votesByCharacter == TallyMap(db, db.votes[..i])
      invariant order == VotedIds(db.votes[..i])
    {
      assert db.votes[..i + 1] == db.votes[..i] + [db.votes[i]];
      votesByCharacter, order := RecordVote(db, db.votes[..i], votesByCharacter, order, db.votes[i]);
    }
    assert db.votes[..|db.votes|] == db.votes;
    r := seq(|order|, k requires 0 <= k < |order| => votesByCharacter[order[k]]);
  }

  // ---------------------------------------------------------------------
  // What the tally promises

  lemma {:induction false} CountSplitsByType(votes: seq<VoteRow>, id: Id)
    ensures CountFor(votes, id) == CountTypeFor(votes, id, Smash) + CountTypeFor(votes, id, Pass) + CountTypeFor(votes, id, Kill)
    decreases |votes|
  {
    if |votes| > 0 {
      CountSplitsByType(votes[..|votes| - 1], id);
    }
  }

  lemma {:induction false} VotedCountsPositive(votes: seq<VoteRow>, id: Id)
    requires VotedFor(votes, id)
    ensures CountFor(votes, id) >= 1
    decreases |votes|
  {
    var before := votes[..|votes| - 1];
    var v := votes[|votes| - 1];
    assert votes == before + [v];
    VotedForSnoc(before, v, id);
    if v.characterId != id {
      VotedCountsPositive(before, id);
    }
  }

  /** Every entry of the tally: its three counters add up to its total, the
      total is the number of votes for its character, and it is at least 1. */
  lemma TallyConsistent(db: Snapshot, votes: seq<VoteRow>)
    ensures forall e :: e in Tallies(db, votes) ==>
              && e.counts.Sum() == e.total
              && e.total == CountFor(votes, e.characterId)
              && e.total >= 1
  {
    var ts := Tallies(db, votes);
    forall e | e in ts
      ensures e.counts.Sum() == e.total && e.total == CountFor(votes, e.characterId) && e.total >= 1
    {
      var id := e.characterId;
      CountSplitsByType(votes, id);
      VotedCountsPositive(votes, id);
    }
  }

  /** Exactly one entry per voted character, none for any other. */
  lemma TallyOnePerCharacter(db: Snapshot, votes: seq<VoteRow>)
    ensures forall i, j :: 0 <= i < j < |Tallies(db, votes)| ==> Tallies(db, votes)[i].characterId != Tallies(db, votes)[j].characterId
    ensures forall id :: VotedFor(votes, id) <==> exists e :: e in Tallies(db, votes) && e.characterId == id
  {
    var ids := VotedIds(votes);
    var ts := Tallies(db, votes);
    forall id | VotedFor(votes, id)
      ensures exists e :: e in ts && e.characterId == id
    {
      var k :| 0 <= k < |ids| && ids[k] == id;
      assert ts[k] in ts;
    }
  }

  /** The sum of the totals of a sequence of entries. */
  function SumTotals(ts: seq<Tally>): nat {
    if |ts| == 0 then 0 else SumTotals(ts[..|ts| - 1]) + ts[|ts| - 1].total
  }

  /** The sum over `ids` of their vote counts. */
  function SumCounts(ids: seq<Id>, votes: seq<VoteRow>): nat {
    if |ids| == 0 then 0 else SumCounts(ids[..|ids| - 1], votes) + CountFor(votes, ids[|ids| - 1])
  }

  lemma {:induction false} SumCountsSnocVote(ids: seq<Id>, votes: seq<VoteRow>, v: VoteRow)
    requires NoDup(ids)
    ensures SumCounts(ids, votes + [v]) == SumCounts(ids, votes) + (if v.characterId in ids then 1 else 0)
    decreases |ids|
  {
    if |ids| > 0 {
      var init := ids[..|ids| - 1];
      var last := ids[|ids| - 1];
      assert ids == init + [last];
      assert NoDup(init);
      SumCountsSnocVote(init, votes, v);
      CountsSnoc(votes, v, last, Smash);
      assert v.characterId in ids <==> v.characterId in init || v.characterId == last;
    }
  }

  lemma {:induction false} SumCountsOfVotedIds(votes: seq<VoteRow>)
    ensures SumCounts(VotedIds(votes), votes) == |votes|
    decreases |votes|
  {
    if |votes| > 0 {
      var before := votes[..|votes| - 1];
      var v := votes[|votes| - 1];
      assert votes == before + [v];
      var ids := VotedIds(before);
      SumCountsOfVotedIds(before);
      VotedIdsSnoc(before, v);
      SumCountsSnocVote(ids, before, v);
      if v.characterId !in ids {
        var next := ids + [v.characterId];
        assert next[..|next| - 1] == ids;
        NotVotedCountsZero(before, v.characterId);
        CountsSnoc(before, v, v.characterId, Smash);
      }
    }
  }

  lemma {:induction false} SumTotalsOfTallies(db: Snapshot, votes: seq<VoteRow>, ids: seq<Id>)
    ensures SumTotals(seq(|ids|, k requires 0 <= k < |ids| => TallyOf(db, votes, ids[k]))) == SumCounts(ids, votes)
    decreases |ids|
  {
    if |ids| > 0 {
      var ts := seq(|ids|, k requires 0 <= k < |ids| => TallyOf(db, votes, ids[k]));
      var init := ids[..|ids| - 1];
      assert ts[..|ts| - 1] == seq(|init|, k requires 0 <= k < |init| => TallyOf(db, votes, init[k]));
      SumTotalsOfTallies(db, votes, init);
    }
  }

  /** The totals over all entries add up to the number of votes. */
  lemma TalliesSumToVoteCount(db: Snapshot, votes: seq<VoteRow>)
    ensures SumTotals(Tallies(db, votes)) == |votes|
  {
    SumTotalsOfTallies(db, votes, VotedIds(votes));
    SumCountsOfVotedIds(votes);
  }

  // ---------------------------------------------------------------------
  // Rankings (getCharacterRankings)

  /** A tally with its `smashRate`. */
  datatype Ranking = Ranking(tally: Tally, smashRate: real)

  /** `r.total > 0 ? r.smash / r.total : 0` */
  function SmashRate(t: Tally): (rate: real)
    ensures t.total == 0 ==> rate == 0.0
    ensures t.counts.smash <= t.total ==> 0.0 <= rate <= 1.0
    ensures t.total > 0 ==> rate * (t.total as real) == t.counts.smash as real
  {
    if t.total > 0 then (t.counts.smash as real) / (t.total as real) else 0.0
  }

  predicate NonIncreasing(rs: seq<Ranking>) {
    forall i, j :: 0 <= i < j < |rs| ==> rs[i].smashRate >= rs[j].smashRate
  }

  lemma RankingsCons(a: Ranking, rest: seq<Ranking>)
    requires NonIncreasing(rest)
    requires forall y :: y in rest ==> a.smashRate >= y.smashRate
    ensures NonIncreasing([a] + rest)
  {
    var r := [a] + rest;
    forall i, j | 0 <= i < j < |r| ensures r[i].smashRate >= r[j].smashRate {
      assert r[j] == rest[j - 1];
      if i > 0 { assert r[i] == rest[i - 1]; }
    }
  }

  /** Puts `x` after every ranking whose rate is at least its own. */
  function InsertByRate(x: Ranking, rs: seq<Ranking>): (r: seq<Ranking>)
    requires NonIncreasing(rs)
    ensures NonIncreasing(r)
    ensures multiset(r) == multiset(rs) + multiset{x}
    decreases |rs|
  {
    if |rs| == 0 then [x]
    else if x.smashRate > rs[0].smashRate then
      RankingsCons(x, rs);
      [x] + rs
    else
      var rest := InsertByRate(x, rs[1..]);
      assert rs == [rs[0]] + rs[1..];
      HeadRateBounds(rs, x, rest);
      RankingsCons(rs[0], rest);
      [rs[0]] + rest
  }

  /** The head of a non-increasing list outranks its tail with `x` added,
      when it outranks `x`. */
  lemma HeadRateBounds(rs: seq<Ranking>, x: Ranking, rest: seq<Ranking>)
    requires |rs| > 0 && NonIncreasing(rs) && x.smashRate <= rs[0].smashRate
    requires multiset(rest) == multiset(rs[1..]) + multiset{x}
    ensures forall y :: y in rest ==> rs[0].smashRate >= y.smashRate
  {
    forall y | y in rest ensures rs[0].smashRate >= y.smashRate {
      assert y in multiset(rest);
      assert y in rs[1..] || y == x;
    }
  }

  /** `.sort((a, b) => b.smashRate - a.smashRate)`. */
  function SortByRate(rs: seq<Ranking>): (r: seq<Ranking>)
    ensures NonIncreasing(r)
    ensures multiset(r) == multiset(rs)
    decreases |rs|
  {
    if |rs| == 0 then []
    else
      assert rs == rs[..|rs| - 1] + [rs[|rs| - 1]];
      InsertByRate(rs[|rs| - 1], SortByRate(rs[..|rs| - 1]))
  }

  /** The rankings of one rate, in list order. */
  function WithRate(rs: seq<Ranking>, q: real): seq<Ranking>
    decreases |rs|
  {
    if |rs| == 0 then []
    else (if rs[0].smashRate == q then [rs[0]] else []) + WithRate(rs[1..], q)
  }

  lemma {:induction false} WithRateAppend(a: seq<Ranking>, b: seq<Ranking>, q: real)
    ensures WithRate(a + b, q) == WithRate(a, q) + WithRate(b, q)
    decreases |a|
  {
    if |a| == 0 {
      assert a + b == b;
    } else {
      var head := if a[0].smashRate == q then [a[0]] else [];
      assert (a + b)[0] == a[0] && (a + b)[1..] == a[1..] + b;
      WithRateAppend(a[1..], b, q);
      calc {
        WithRate(a + b, q);
        head + WithRate(a[1..] + b, q);
        head + (WithRate(a[1..], q) + WithRate(b, q));
        (head + WithRate(a[1..], q)) + WithRate(b, q);
      }
    }
  }

  /** No ranking above `q` leaves nothing of rate `q`. */
  lemma {:induction false} WithRateAbove(rs: seq<Ranking>, q: real)
    requires forall k :: 0 <= k < |rs| ==> rs[k].smashRate < q
    ensures WithRate(rs, q) == []
    decreases |rs|
  {
    if |rs| > 0 {
      WithRateAbove(rs[1..], q);
    }
  }

  /** Insertion puts `x` behind every ranking of its own rate. */
  lemma {:induction false} InsertByRateKeepsTies(x: Ranking, rs: seq<Ranking>, q: real)
    requires NonIncreasing(rs)
    ensures WithRate(InsertByRate(x, rs), q) == WithRate(rs, q) + (if x.smashRate == q then [x] else [])
    decreases |rs|
  {
    var tail := if x.smashRate == q then [x] else [];
    if |rs| == 0 {
      assert WithRate([x], q) == tail + WithRate([x][1..], q);
    } else if x.smashRate > rs[0].smashRate {
      var r := [x] + rs;
      assert InsertByRate(x, rs) == r;
      assert r[0] == x && r[1..] == rs;
      if x.smashRate == q {
        WithRateAbove(rs, q);
      } else {
        assert WithRate(r, q) == WithRate(rs, q);
      }
    } else {
      var rest := InsertByRate(x, rs[1..]);
      var r := [rs[0]] + rest;
      assert InsertByRate(x, rs) == r;
      assert r[0] == rs[0] && r[1..] == rest;
      InsertByRateKeepsTies(x, rs[1..], q);
      var head := if rs[0].smashRate == q then [rs[0]] else [];
      calc {
        WithRate(r, q);
        head + WithRate(rest, q);
        head + (WithRate(rs[1..], q) + tail);
        (head + WithRate(rs[1..], q)) + tail;
        WithRate(rs, q) + tail;
      }
    }
  }

  /** The sort is stable: rankings with equal rates keep the order they had
      in the tally. */
  lemma {:induction false} SortByRateStable(rs: seq<Ranking>, q: real)
    ensures WithRate(SortByRate(rs), q) == WithRate(rs, q)
    decreases |rs|
  {
    if |rs| > 0 {
      var init, last := rs[..|rs| - 1], rs[|rs| - 1];
      assert rs == init + [last];
      SortByRateStable(init, q);
      InsertByRateKeepsTies(last, SortByRate(init), q);
      WithRateAppend(init, [last], q);
      assert [last][1..] == [];
    }
  }

  /** `rankings.map((r) => ({ ...r, smashRate }))` */
  function WithRates(ts: seq<Tally>): (r: seq<Ranking>)
    ensures |r| == |ts|
    ensures forall k :: 0 <= k < |ts| ==> r[k] == Ranking(ts[k], SmashRate(ts[k]))
  {
    seq(|ts|, k requires 0 <= k < |ts| => Ranking(ts[k], SmashRate(ts[k])))
  }

  /** `getCharacterRankings`: the tallies with their rates, best rate first. */
  method GetCharacterRankings(db: Snapshot) returns (r: seq<Ranking>)
    ensures r == SortByRate(WithRates(Tallies(db, db.votes)))
  {
    var tallies := QueryCharacterRankings(db);
    r := SortByRate(WithRates(tallies));
  }

  /** The rankings are the tallies, each once, in non-increasing order of
      smash rate, and every rate is the entry's smash / total, in [0, 1]. */
  lemma RankingsSortedPermutation(db: Snapshot, votes: seq<VoteRow>)
    ensures var r := SortByRate(WithRates(Tallies(db, votes)));
            && NonIncreasing(r)
            && multiset(r) == multiset(WithRates(Tallies(db, votes)))
            && forall x :: x in r ==> x.tally in Tallies(db, votes)
                                      && x.smashRate == SmashRate(x.tally)
                                      && 0.0 <= x.smashRate <= 1.0
  {
    var ts := Tallies(db, votes);
    var ws := WithRates(ts);
    var r := SortByRate(ws);
    forall x | x in r
      ensures x.tally in ts && x.smashRate == SmashRate(x.tally) && 0.0 <= x.smashRate <= 1.0
    {
      assert x in multiset(ws);
      var k :| 0 <= k < |ws| && ws[k] == x;
      assert ts[k] in ts;
      RateInRange(db, votes, ts[k]);
    }
  }

  lemma RateInRange(db: Snapshot, votes: seq<VoteRow>, t: Tally)
    requires t in Tallies(db, votes)
    ensures 0.0 <= SmashRate(t) <= 1.0
  {
    TallyConsistent(db, votes);
    assert t.counts.smash <= t.total;
  }

  // ---------------------------------------------------------------------
  // getVoteStats

  datatype VoteStats = VoteStats(total: nat, smash: nat, pass: nat, kill: nat)

  /** `allVotes.filter((v) => v.type === t).length` */
  function CountOfType(votes: seq<VoteRow>, t: VoteType): (n: nat)
    ensures n <= |votes|
    decreases |votes|
  {
    if |votes| == 0 then 0
    else CountOfType(votes[..|votes| - 1], t) + (if votes[|votes| - 1].voteType == t then 1 else 0)
  }

  function GetVoteStats(votes: seq<VoteRow>): (r: VoteStats)
    ensures r.total == |votes|
    ensures r.smash == CountOfType(votes, Smash) && r.pass == CountOfType(votes, Pass) && r.kill == CountOfType(votes, Kill)
  {
    VoteStats(|votes|, CountOfType(votes, Smash), CountOfType(votes, Pass), CountOfType(votes, Kill))
  }

  /** A new vote (as `submitVote` appends it) raises the total and the count
      of its own type by one and leaves the other counts alone. */
  lemma NewVoteCounted(votes: seq<VoteRow>, v: VoteRow)
    ensures GetVoteStats(votes + [v]).total == GetVoteStats(votes).total + 1
    ensures forall t :: CountOfType(votes + [v], t) == CountOfType(votes, t) + (if v.voteType == t then 1 else 0)
  {
    assert (votes + [v])[..|votes|] == votes;
  }

  /** Every vote is of one of the three types, so the three counts add up to
      the total. */
  lemma {:induction false} VoteStatsAddUp(votes: seq<VoteRow>)
    ensures var r := GetVoteStats(votes); r.smash + r.pass + r.kill == r.total
    decreases |votes|
  {
    if |votes| > 0 {
      VoteStatsAddUp(votes[..|votes| - 1]);
    }
  }

  // ---------------------------------------------------------------------
  // getAvailableGenders

  /** The `gender` column of the characters of the named anime (an inner join
      with `animes` on `animeId`), or of all characters. */
  function GenderColumn(animes: seq<AnimeRow>, cs: seq<CharacterRow>, names: Option<seq<string>>)
    : (r: seq<Option<string>>)
    ensures forall g :: g in r <==> exists c :: c in cs && AnimeMatches(animes, names, c) && c.gender == g
    decreases |cs|
  {
    if |cs| == 0 then []
    else
      var rest := GenderColumn(animes, cs[1..], names);
      assert forall c :: c in cs <==> c == cs[0] || c in cs[1..];
      if AnimeMatches(animes, names, cs[0]) then [cs[0].gender] + rest else rest
  }

  /** `.filter((g): g is string => g !== null)` */
  function Present(gs: seq<Option<string>>): (r: seq<string>)
    ensures forall g :: g in r <==> Some(g) in gs
    ensures NoDup(gs) ==> NoDup(r)
    decreases |gs|
  {
    if |gs| == 0 then []
    else
      var rest := Present(gs[1..]);
      if gs[0].Some? then
        assert NoDup(gs) ==> NoDup([gs[0].value] + rest) by {
          if NoDup(gs) { NoDupTail(gs); NoDupCons(gs[0].value, rest); }
        }
        [gs[0].value] + rest
      else
        rest
  }

  predicate SortedStrings(s: seq<string>) {
    forall i, j :: 0 <= i < j < |s| ==> Js.Le(s[i], s[j])
  }

  lemma StringsCons(a: string, rest: seq<string>)
    requires SortedStrings(rest)
    requires forall y :: y in rest ==> Js.Le(a, y)
    ensures SortedStrings([a] + rest)
  {
    var r := [a] + rest;
    forall i, j | 0 <= i < j < |r| ensures Js.Le(r[i], r[j]) {
      assert r[j] == rest[j - 1];
      if i > 0 { assert r[i] == rest[i - 1]; }
    }
  }

  function InsertString(x: string, s: seq<string>): (r: seq<string>)
    requires SortedStrings(s)
    ensures SortedStrings(r)
    ensures multiset(r) == multiset(s) + multiset{x}
    decreases |s|
  {
    if |s| == 0 then [x]
    else if Js.Le(x, s[0]) then
      assert forall y :: y in s ==> Js.Le(x, y) by {
        forall y | y in s ensures Js.Le(x, y) {
          var k :| 0 <= k < |s| && s[k] == y;
          if k > 0 { Js.LeTransitive(x, s[0], s[k]); }
        }
      }
      StringsCons(x, s);
      [x] + s
    else
      Js.LeTotal(x, s[0]);
      var rest := InsertString(x, s[1..]);
      assert s == [s[0]] + s[1..];
      assert forall y :: y in rest ==> Js.Le(s[0], y) by {
        forall y | y in rest ensures Js.Le(s[0], y) {
          assert y in multiset(rest);
          assert y in s[1..] || y == x;
        }
      }
      StringsCons(s[0], rest);
      [s[0]] + rest
  }

  /** `.sort()` with no comparator: ascending in UTF-16 code-unit order. */
  function SortStrings(s: seq<string>): (r: seq<string>)
    ensures SortedStrings(r)
    ensures multiset(r) == multiset(s)
    decreases |s|
  {
    if |s| == 0 then []
    else
      assert s == s[..|s| - 1] + [s[|s| - 1]];
      InsertString(s[|s| - 1], SortStrings(s[..|s| - 1]))
  }

  /** A permutation of a list without repeats has none either. */
  lemma SamePermutationNoDup(r: seq<string>, s: seq<string>)
    requires multiset(r) == multiset(s) && NoDup(s)
    ensures NoDup(r)
  {
    forall i, j | 0 <= i < j < |r| ensures r[i] != r[j] {
      MultisetNoDup(s, r[i]);
      if r[i] == r[j] {
        RepeatCountsTwice(r, i, j);
      }
    }
  }

  lemma RepeatCountsTwice(r: seq<string>, i: nat, j: nat)
    requires i < j < |r| && r[i] == r[j]
    ensures multiset(r)[r[i]] >= 2
  {
    assert r == r[..j] + r[j..];
    assert multiset(r) == multiset(r[..j]) + multiset(r[j..]);
    assert r[i] in r[..j] && r[j] in r[j..];
  }

  lemma {:induction false} MultisetNoDup(s: seq<string>, x: string)
    requires NoDup(s)
    ensures multiset(s)[x] <= 1
    decreases |s|
  {
    if |s| > 0 {
      NoDupTail(s);
      MultisetNoDup(s[1..], x);
      assert s == [s[0]] + s[1..];
    }
  }

  predicate HasGender(db: Snapshot, names: Option<seq<string>>, g: string) {
    exists c :: c in db.characters && AnimeMatches(db.animes, names, c) && c.gender == Some(g)
  }

  /** `getAvailableGenders(animeNames)`: the distinct non-null genders of the
      characters of the named anime (of all characters when the list is
      absent or empty), sorted ascending. */
  function GetAvailableGenders(db: Snapshot, names: Option<seq<string>>): (r: seq<string>)
    ensures SortedStrings(r)
    ensures NoDup(r)
    ensures forall g :: g in r <==> HasGender(db, names, g)
  {
    var distinct := Dedup(GenderColumn(db.animes, db.characters, names));
    var present := Present(distinct);
    var r := SortStrings(present);
    SamePermutationNoDup(r, present);
    assert forall g :: g in r <==> g in present by {
      forall g ensures g in r <==> g in present {
        assert g in r <==> g in multiset(r);
      }
    }
    r
  }
}
