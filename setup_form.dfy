/** The setup form of src/components/setup/setup-form.tsx: the anime and
    gender selections, the presets, the card limit and the count preview. */
module Setup {
  import opened Types
  import opened Seqs
  import Js
  import opened Db
  import opened Actions

  // ---------------------------------------------------------------------
  // Presets

  /** An entry of `ANIME_PRESETS` (its key, display name and anime titles). */
  datatype Preset = Preset(key: string, name: string, animes: seq<string>)

  /** An entry of `getAvailableAnimes()`. */
  datatype AnimeOption = AnimeOption(id: Id, title: string)

  /** A preset with the titles of it that exist in the database. */
  datatype AvailablePreset = AvailablePreset(key: string, name: string, animes: seq<string>, matchingAnimes: seq<string>)

  function Titles(available: seq<AnimeOption>): (r: seq<string>)
    ensures |r| == |available|
    ensures forall k :: 0 <= k < |available| ==> r[k] == available[k].title
  {
    seq(|available|, k requires 0 <= k < |available| => available[k].title)
  }

  /** One preset with `matchingAnimes = preset.animes.filter(a => titles.has(a))`. */
  function Annotate(p: Preset, titles: seq<string>): AvailablePreset {
    AvailablePreset(p.key, p.name, p.animes, Retain(p.animes, titles))
  }

  /** Every preset of the table annotated, in table order. */
  function AnnotateAll(presets: seq<Preset>, titles: seq<string>): seq<AvailablePreset> {
    seq(|presets|, k requires 0 <= k < |presets| => Annotate(presets[k], titles))
  }

  /** `getAvailablePresets(availableAnimes)`: the presets (in table order)
      with at least one title in the database. */
  function GetAvailablePresets(presets: seq<Preset>, available: seq<AnimeOption>): (r: seq<AvailablePreset>)
    ensures forall q :: q in r <==> exists p :: p in presets && q == Annotate(p, Titles(available)) && |q.matchingAnimes| > 0
    ensures IsSubsequence(r, AnnotateAll(presets, Titles(available)))
    ensures forall q :: q in r ==> |q.matchingAnimes| > 0
    ensures forall q :: q in r ==> IsSubsequence(q.matchingAnimes, q.animes)
    ensures forall q, a :: q in r ==> (a in q.matchingAnimes <==> a in q.animes && a in Titles(available))
    decreases |presets|
  {
    if |presets| == 0 then []
    else
      var titles := Titles(available);
      var q := Annotate(presets[0], titles);
      var rest := GetAvailablePresets(presets[1..], available);
      assert forall p :: p in presets <==> p == presets[0] || p in presets[1..];
      var all := AnnotateAll(presets, titles);
      assert all[0] == q && all[1..] == AnnotateAll(presets[1..], titles);
      if |q.matchingAnimes| > 0 then
        assert ([q] + rest)[1..] == rest;
        [q] + rest
      else
        SubsequenceOfTail(rest, all);
        rest
  }

  /** `presets.find(p => p.key === key)` */
  function FindPreset(presets: seq<AvailablePreset>, key: string): (r: Option<AvailablePreset>)
    ensures r.Some? ==> r.value in presets && r.value.key == key
    ensures r.None? ==> forall q :: q in presets ==> q.key != key
    decreases |presets|
  {
    if |presets| == 0 then None
    else if presets[0].key == key then Some(presets[0])
    else FindPreset(presets[1..], key)
  }

  // ---------------------------------------------------------------------
  // Toggling

  /** `prev.includes(x) ? prev.filter((a) => a !== x) : [...prev, x]` */
  function Toggle(s: seq<string>, x: string): (r: seq<string>)
    ensures x in r <==> x !in s
    ensures forall y :: y != x ==> (y in r <==> y in s)
    ensures NoDup(s) ==> NoDup(r)
  {
    if x in s then Without(s, x)
    else
      assert NoDup(s) ==> NoDup(s + [x]) by {
        if NoDup(s) { NoDupSnoc(s, x); }
      }
      s + [x]
  }

  /** A toggle leaves the other elements in their order, and a new element
      goes last. */
  lemma ToggleKeepsOthers(s: seq<string>, x: string)
    ensures Without(Toggle(s, x), x) == Without(s, x)
    ensures x !in s ==> Toggle(s, x) == s + [x]
    ensures x in s ==> IsSubsequence(Toggle(s, x), s)
  {
    if x in s {
      WithoutIdempotent(s, x);
    } else {
      WithoutAppendSelf(s, x);
    }
  }

  /** Toggling a value in and out again restores the selection. */
  lemma ToggleTwice(s: seq<string>, x: string)
    requires x !in s
    ensures Toggle(Toggle(s, x), x) == s
  {
    WithoutAppendSelf(s, x);
  }

  // ---------------------------------------------------------------------
  // Derived values

  /** `limit ? Math.min(limit, characterCount) : characterCount` */
  function EffectiveCount(limit: Option<int>, count: nat): (n: int)
    ensures Js.NumTruthy(limit) ==> n <= count && n <= limit.value
    ensures !Js.NumTruthy(limit) ==> n == count
    ensures Js.NumTruthy(limit) ==> n == limit.value || n == count
  {
    if Js.NumTruthy(limit) then (if limit.value < count then limit.value else count) else count
  }

  /** The count on the Start button is the number of cards the game is dealt:
      the characters the same filters select, cut to the limit. */
  lemma EffectiveCountIsDealt(db: Snapshot, animes: seq<string>, genders: seq<string>, limit: Option<int>, rand: seq<real>)
    requires limit.None? || limit.value >= 0
    requires |QueryCharacters(db, AsFilter(genders), AsFilter(animes))| <= |rand| + 1 && Js.Draws(rand)
    ensures EffectiveCount(limit, CharacterCount(db.animes, db.characters, AsFilter(genders), AsFilter(animes)))
            == |ApplyLimit(Shuffled(QueryCharacters(db, AsFilter(genders), AsFilter(animes)), rand), limit)|
  {
    CountMatchesQuery(db.animes, db.characters, AsFilter(genders), AsFilter(animes));
  }

  /** `LIMIT_OPTIONS.slice(0, 4)`: the options the form shows. */
  const LimitOptions: seq<int> := [10, 25, 50, 100]

  /** `disabled={option.value !== null && option.value > characterCount}` */
  predicate LimitOptionDisabled(value: Option<int>, count: nat) {
    value.Some? && value.value > count
  }

  /** `disabled={isPending || characterCount === 0}` */
  predicate StartDisabled(isPending: bool, count: nat) {
    isPending || count == 0
  }

  /** A limit option is disabled exactly when a game with it would be dealt
      fewer cards than it names. */
  lemma LimitOptionDisabledIffShort(db: Snapshot, animes: seq<string>, genders: seq<string>, v: int, rand: seq<real>)
    requires v in LimitOptions
    requires |QueryCharacters(db, AsFilter(genders), AsFilter(animes))| <= |rand| + 1 && Js.Draws(rand)
    ensures LimitOptionDisabled(Some(v), CharacterCount(db.animes, db.characters, AsFilter(genders), AsFilter(animes)))
            <==> |ApplyLimit(Shuffled(QueryCharacters(db, AsFilter(genders), AsFilter(animes)), rand), Some(v))| < v
  {
    EffectiveCountIsDealt(db, animes, genders, Some(v), rand);
  }

  /** Once the count has arrived, Start is enabled exactly when the game it
      starts has at least one card. */
  lemma StartEnabledIffCardsDealt(db: Snapshot, animes: seq<string>, genders: seq<string>, limit: Option<int>, rand: seq<real>)
    requires limit.None? || limit.value in LimitOptions
    requires |QueryCharacters(db, AsFilter(genders), AsFilter(animes))| <= |rand| + 1 && Js.Draws(rand)
    ensures !StartDisabled(false, CharacterCount(db.animes, db.characters, AsFilter(genders), AsFilter(animes)))
            <==> |ApplyLimit(Shuffled(QueryCharacters(db, AsFilter(genders), AsFilter(animes)), rand), limit)| > 0
  {
    EffectiveCountIsDealt(db, animes, genders, limit, rand);
  }

  /** `availableAnimes.filter((a) => a.title.toLowerCase().includes(search.toLowerCase()))` */
  function FilteredAnimes(available: seq<AnimeOption>, search: string): (r: seq<AnimeOption>)
    ensures forall a :: a in r <==> a in available && Js.Includes(Js.ToLower(a.title), Js.ToLower(search))
    ensures IsSubsequence(r, available)
    decreases |available|
  {
    if |available| == 0 then []
    else
      var rest := FilteredAnimes(available[1..], search);
      assert forall a :: a in available <==> a == available[0] || a in available[1..];
      if Js.Includes(Js.ToLower(available[0].title), Js.ToLower(search)) then [available[0]] + rest
      else (SubsequenceOfTail(rest, available); rest)
  }

  /** An empty search shows every anime. */
  lemma {:induction false} EmptySearchShowsAll(available: seq<AnimeOption>)
    ensures FilteredAnimes(available, "") == available
    decreases |available|
  {
    if |available| > 0 {
      EmptySearchShowsAll(available[1..]);
      assert Js.ToLower("") == "";
      assert Js.StartsWith(Js.ToLower(available[0].title), "");
      assert available == [available[0]] + available[1..];
    }
  }

  /** `gendersForSelection.filter(g => g === 'Female' || g === 'Male')`:
      the gender buttons. */
  function GenderButtons(gs: seq<string>): (r: seq<string>)
    ensures forall g :: g in r <==> g in gs && (g == "Female" || g == "Male")
    ensures IsSubsequence(r, gs)
  {
    Retain(gs, ["Female", "Male"])
  }

  // ---------------------------------------------------------------------
  // The form's state

  class SetupForm {
    const availableAnimes: seq<AnimeOption>
    const availableGenders: seq<string>
    /** `getAvailablePresets(availableAnimes)` */
    const presets: seq<AvailablePreset>
    var selectedAnimes: seq<string>
    var selectedGenders: seq<string>
    var limit: Option<int>
    var search: string
    var gendersForSelection: seq<string>
    var characterCount: nat
    var isPending: bool
    var activePreset: Option<string>

    /** An active preset is one of the presets and the selection is its
        matching titles; the gender selection holds no value twice. */
    ghost predicate Valid()
      reads this
    {
      && (activePreset.Some? ==> var p := FindPreset(presets, activePreset.value);
                                 p.Some? && selectedAnimes == p.value.matchingAnimes)
      && NoDup(selectedGenders)
    }

    constructor (presetTable: seq<Preset>, availableAnimes: seq<AnimeOption>, availableGenders: seq<string>, totalCharacterCount: nat)
      ensures Valid()
      ensures this.availableAnimes == availableAnimes && this.availableGenders == availableGenders
      ensures presets == GetAvailablePresets(presetTable, availableAnimes)
      ensures selectedAnimes == [] && selectedGenders == [] && limit == Some(25) && search == ""
      ensures gendersForSelection == availableGenders && characterCount == totalCharacterCount
      ensures !isPending && activePreset.None?
    {
      this.availableAnimes := availableAnimes;
      this.availableGenders := availableGenders;
      presets := GetAvailablePresets(presetTable, availableAnimes);
      selectedAnimes, selectedGenders := [], [];
      limit := Some(25);
      search := "";
      gendersForSelection := availableGenders;
      characterCount := totalCharacterCount;
      isPending := false;
      activePreset := None;
    }

    /** `selectedAnimes.length === 0` */
    predicate AllSelected()
      reads this
    {
      |selectedAnimes| == 0
    }

    /** `selectPreset(key)`: an unknown key changes nothing; the active preset
        is deselected (back to all anime); any other preset is activated
        with its matching titles as the selection. */
    method SelectPreset(key: string)
      requires Valid()
      modifies this
      ensures Valid()
      ensures FindPreset(presets, key).None? ==> activePreset == old(activePreset) && selectedAnimes == old(selectedAnimes)
      ensures FindPreset(presets, key).Some? && old(activePreset) == Some(key) ==>
                activePreset.None? && selectedAnimes == []
      ensures FindPreset(presets, key).Some? && old(activePreset) != Some(key) ==>
                activePreset == Some(key) && selectedAnimes == FindPreset(presets, key).value.matchingAnimes
      ensures selectedGenders == old(selectedGenders) && limit == old(limit) && search == old(search)
      ensures gendersForSelection == old(gendersForSelection) && characterCount == old(characterCount)
      ensures isPending == old(isPending)
    {
      var preset := FindPreset(presets, key);
      if preset.None? {
        return;
      }
      if activePreset == Some(key) {
        activePreset := None;
        selectedAnimes := [];
      } else {
        activePreset := Some(key);
        selectedAnimes := preset.value.matchingAnimes;
      }
    }

    /** `toggleAnime(title)`: clears the active preset and flips `title` in
        the selection. */
    method ToggleAnime(title: string)
      requires Valid()
      modifies this
      ensures Valid()
      ensures activePreset.None? && selectedAnimes == Toggle(old(selectedAnimes), title)
      ensures selectedGenders == old(selectedGenders) && limit == old(limit) && search == old(search)
      ensures gendersForSelection == old(gendersForSelection) && characterCount == old(characterCount)
      ensures isPending == old(isPending)
    {
      activePreset := None;
      selectedAnimes := Toggle(selectedAnimes, title);
    }

    /** `selectAll()`: no preset, no anime filter. */
    method SelectAll()
      requires Valid()
      modifies this
      ensures Valid()
      ensures activePreset.None? && selectedAnimes == []
      ensures selectedGenders == old(selectedGenders) && limit == old(limit) && search == old(search)
      ensures gendersForSelection == old(gendersForSelection) && characterCount == old(characterCount)
      ensures isPending == old(isPending)
    {
      activePreset := None;
      selectedAnimes := [];
    }

    /** `toggleGender(gender)` */
    method ToggleGender(gender: string)
      requires Valid()
      modifies this
      ensures Valid()
      ensures selectedGenders == Toggle(old(selectedGenders), gender)
      ensures selectedAnimes == old(selectedAnimes) && activePreset == old(activePreset)
      ensures limit == old(limit) && search == old(search)
      ensures gendersForSelection == old(gendersForSelection) && characterCount == old(characterCount)
      ensures isPending == old(isPending)
    {
      selectedGenders := Toggle(selectedGenders, gender);
    }

    /** The "All" gender button: `setSelectedGenders([])`. */
    method ClearGenders()
      requires Valid()
      modifies this
      ensures Valid()
      ensures selectedGenders == []
      ensures selectedAnimes == old(selectedAnimes) && activePreset == old(activePreset)
      ensures limit == old(limit) && search == old(search)
      ensures gendersForSelection == old(gendersForSelection) && characterCount == old(characterCount)
      ensures isPending == old(isPending)
    {
      selectedGenders := [];
    }

    /** A click on the limit button `k` of the four shown; a disabled button
        does nothing. */
    method ChooseLimit(k: nat)
      requires Valid() && k < |LimitOptions|
      modifies this
      ensures Valid()
      ensures limit == if LimitOptionDisabled(Some(LimitOptions[k]), old(characterCount)) then old(limit)
                       else Some(LimitOptions[k])
      ensures selectedAnimes == old(selectedAnimes) && selectedGenders == old(selectedGenders)
      ensures activePreset == old(activePreset) && search == old(search)
      ensures gendersForSelection == old(gendersForSelection) && characterCount == old(characterCount)
      ensures isPending == old(isPending)
    {
      if !LimitOptionDisabled(Some(LimitOptions[k]), characterCount) {
        limit := Some(LimitOptions[k]);
      }
    }

    method SetSearch(text: string)
      requires Valid()
      modifies this
      ensures Valid()
      ensures search == text
      ensures selectedAnimes == old(selectedAnimes) && selectedGenders == old(selectedGenders)
      ensures activePreset == old(activePreset) && limit == old(limit)
      ensures gendersForSelection == old(gendersForSelection) && characterCount == old(characterCount)
      ensures isPending == old(isPending)
    {
      search := text;
    }

    /** The effect on `selectedAnimes`: the genders offered are those of the
        selected anime, or the initial list when none is selected. */
    method RefreshGendersForSelection(db: Snapshot)
      requires Valid()
      modifies this
      ensures Valid()
      ensures gendersForSelection == if |selectedAnimes| == 0 then availableGenders
                                     else GetAvailableGenders(db, Some(selectedAnimes))
      ensures selectedAnimes == old(selectedAnimes) && selectedGenders == old(selectedGenders)
      ensures activePreset == old(activePreset) && limit == old(limit) && search == old(search)
      ensures characterCount == old(characterCount) && isPending == old(isPending)
    {
      if |selectedAnimes| == 0 {
        gendersForSelection := availableGenders;
      } else {
        gendersForSelection := GetAvailableGenders(db, Some(selectedAnimes));
      }
    }

    /** The effect on `gendersForSelection`: selected genders no longer
        offered are dropped, the others keep their order. */
    method ResetGenders()
      requires Valid()
      modifies this
      ensures Valid()
      ensures selectedGenders == Retain(old(selectedGenders), gendersForSelection)
      ensures selectedAnimes == old(selectedAnimes) && activePreset == old(activePreset)
      ensures limit == old(limit) && search == old(search)
      ensures gendersForSelection == old(gendersForSelection) && characterCount == old(characterCount)
      ensures isPending == old(isPending)
    {
      selectedGenders := Retain(selectedGenders, gendersForSelection);
    }

    /** The effect on both selections: the count preview is
        `getCharacterCount` with each empty selection passed as `undefined`. */
    method RefreshCount(db: Snapshot)
      requires Valid()
      modifies this
      ensures Valid()
      ensures characterCount == CharacterCount(db.animes, db.characters, AsFilter(selectedGenders), AsFilter(selectedAnimes))
      ensures selectedAnimes == old(selectedAnimes) && selectedGenders == old(selectedGenders)
      ensures activePreset == old(activePreset) && limit == old(limit) && search == old(search)
      ensures gendersForSelection == old(gendersForSelection) && isPending == old(isPending)
    {
      characterCount := CharacterCount(db.animes, db.characters, AsFilter(selectedGenders), AsFilter(selectedAnimes));
    }

    /** `handleStart()` behind the Start button: nothing when the button is
        disabled; otherwise the configuration `saveGameConfig` stores, with
        the transition pending until the save settles. */
    method HandleStart() returns (saved: Option<GameConfig>)
      requires Valid()
      modifies this
      ensures Valid()
      ensures saved.None? <==> StartDisabled(old(isPending), old(characterCount))
      ensures saved.Some? ==> saved.value == GameConfig(selectedAnimes, selectedGenders, limit) && isPending
      ensures saved.None? ==> isPending == old(isPending)
      ensures selectedAnimes == old(selectedAnimes) && selectedGenders == old(selectedGenders)
      ensures limit == old(limit) && search == old(search) && activePreset == old(activePreset)
      ensures characterCount == old(characterCount) && gendersForSelection == old(gendersForSelection)
    {
      if StartDisabled(isPending, characterCount) {
        return None;
      }
      isPending := true;
      saved := Some(GameConfig(selectedAnimes, selectedGenders, limit));
    }

    /** The transition of `handleStart` ends: `saveGameConfig` has settled. */
    method FinishSave()
      requires Valid()
      modifies this
      ensures Valid() && !isPending
      ensures selectedAnimes == old(selectedAnimes) && selectedGenders == old(selectedGenders)
      ensures limit == old(limit) && search == old(search) && activePreset == old(activePreset)
      ensures characterCount == old(characterCount) && gendersForSelection == old(gendersForSelection)
    {
      isPending := false;
    }
  }

  /** A second click on Start while the first save is pending saves
      nothing, whatever the form held. */
  method StartTwice(form: SetupForm) returns (first: Option<GameConfig>, second: Option<GameConfig>)
    requires form.Valid()
    modifies form
    ensures second.None?
    ensures first.Some? ==> form.isPending
  {
    first := form.HandleStart();
    second := form.HandleStart();
  }

  /** The gender reset keeps exactly the selected genders still offered, in
      their order, and only offered ones. */
  lemma ResetGendersKeepsOffered(selected: seq<string>, offered: seq<string>)
    ensures forall g :: g in Retain(selected, offered) <==> g in selected && g in offered
    ensures IsSubsequence(Retain(selected, offered), selected)
    ensures Retain(Retain(selected, offered), offered) == Retain(selected, offered)
  {
    RetainIdempotent(selected, offered);
  }
}
