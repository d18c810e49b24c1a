/** The collection of compost profiles: the stored list, the selected tab and
    the profile awaiting confirmation of its deletion. `crypto.randomUUID()`,
    `Math.random()` and the clock are parameters; the storage behind the
    list is outside the model. */
module ProfileManager {
  import opened Wrappers
  import opened Records

  // ---- `getRandomColor` ----

  const Letters: string := "0123456789ABCDEF"

  /** `Math.floor(r * 16)` for a draw `r` of `Math.random()`. */
  function Digit(r: real): (d: nat)
    requires 0.0 <= r < 1.0
    ensures d < 16
  {
    (r * 16.0).Floor
  }

  /** Draws of `Math.random()`: each in [0, 1). */
  predicate Draws(draws: seq<real>) {
    forall i :: 0 <= i < |draws| ==> 0.0 <= draws[i] < 1.0
  }

  /** The colour six draws give: `#`, then one letter per draw. */
  function ColorOf(draws: seq<real>): seq<char>
    requires |draws| == 6 && Draws(draws)
  {
    "#" + seq(6, i requires 0 <= i < 6 => Letters[Digit(draws[i])])
  }

  /** A colour in the form `getRandomColor` promises: `#` and six hex digits. */
  predicate IsColor(c: string) {
    |c| == 7 && c[0] == '#' && forall i :: 1 <= i < 7 ==> c[i] in Letters
  }

  /** `getRandomColor`: the loop appending one letter per draw. */
  method GetRandomColor(draws: seq<real>) returns (color: string)
    requires |draws| == 6 && Draws(draws)
    ensures color == ColorOf(draws)
    ensures IsColor(color)
  {
    color := "#";
    var i := 0;
    while i < 6
      invariant 0 <= i <= 6
      invariant |color| == i + 1 && color[0] == '#'
      invariant forall k :: 0 <= k < i ==> color[k + 1] == Letters[Digit(draws[k])]
    {
      color := color + [Letters[Digit(draws[i])]];
      i := i + 1;
    }
    ColorOfShape(draws);
  }

  /** Every colour six draws give has the promised form, with letter `i`
      picked by draw `i`. */
  lemma ColorOfShape(draws: seq<real>)
    requires |draws| == 6 && Draws(draws)
    ensures IsColor(ColorOf(draws))
    ensures forall i :: 0 <= i < 6 ==> ColorOf(draws)[i + 1] == Letters[Digit(draws[i])]
  {
    var c := ColorOf(draws);
    forall i | 1 <= i < 7 ensures c[i] in Letters {
      assert c[i] == Letters[Digit(draws[i - 1])];
    }
  }

  /** The position of a hex digit among `Letters`. */
  function LetterIndex(ch: char): (k: nat)
    requires ch in Letters
    ensures k < 16 && Letters[k] == ch
  {
    var k :| 0 <= k < |Letters| && Letters[k] == ch; k
  }

  /** Every colour of that form is given by some draws. */
  lemma EveryColorReachable(c: string)
    requires IsColor(c)
    ensures exists draws :: |draws| == 6 && Draws(draws) && ColorOf(draws) == c
  {
    var draws := seq(6, i requires 0 <= i < 6 => LetterIndex(c[i + 1]) as real / 16.0);
    forall i | 0 <= i < 6 ensures Digit(draws[i]) == LetterIndex(c[i + 1]) {
      var k := LetterIndex(c[i + 1]);
      assert draws[i] * 16.0 == k as real;
    }
    ColorOfShape(draws);
    assert ColorOf(draws) == c;
  }

  // ---- The list and the selected tab ----

  /** `!activeTab`: no tab, or the empty id. */
  predicate Unset(tab: Option<string>) {
    tab.None? || tab.value == ""
  }

  /** The selected tab, if any, is the id of a listed profile. */
  predicate Names(ps: seq<CompostProfile>, tab: Option<string>) {
    tab.None? || exists i :: 0 <= i < |ps| && ps[i].id == tab.value
  }

  /** Profile ids are unique and the selected tab is one of them. */
  predicate Consistent(ps: seq<CompostProfile>, tab: Option<string>) {
    UniqueIds(ps, ProfileId) && Names(ps, tab)
  }

  /** The effect on `[profiles, activeTab]`: with profiles and no tab, the
      first profile's; with no profiles, none; otherwise as it is. */
  function SyncedTab(ps: seq<CompostProfile>, tab: Option<string>): Option<string> {
    if |ps| > 0 && Unset(tab) then Some(ps[0].id)
    else if |ps| == 0 then None
    else tab
  }

  /** The profile `handleCreateProfile` appends: no measurements, no photos. */
  function NewProfile(id: string, name: string, initialComposition: string, color: string, createdAt: string): CompostProfile {
    CompostProfile(id, name, color, initialComposition, None, None, None, [], [], createdAt)
  }

  /** The selected tab after deleting `gone`, with `rest` the profiles left. */
  function TabAfterDelete(rest: seq<CompostProfile>, tab: Option<string>, gone: string): Option<string> {
    if tab == Some(gone) then (if |rest| > 0 then Some(rest[0].id) else None) else tab
  }

  /** `profiles.find(p => p.id === id)`: the first profile with that id. */
  function FindById(ps: seq<CompostProfile>, id: string): (r: Option<CompostProfile>)
    ensures r.None? <==> forall i :: 0 <= i < |ps| ==> ps[i].id != id
    ensures r.Some? ==> exists i :: 0 <= i < |ps| && ps[i] == r.value && r.value.id == id &&
                                 forall j :: 0 <= j < i ==> ps[j].id != id
  {
    if ps == [] then None
    else if ps[0].id == id then Some(ps[0])
    else
      var r := FindById(ps[1..], id);
      assert forall i :: 0 <= i < |ps| - 1 ==> ps[1..][i] == ps[i + 1];
      if r.Some? then
        var i :| 0 <= i < |ps| - 1 && ps[1..][i] == r.value && r.value.id == id &&
                 forall j :: 0 <= j < i ==> ps[1..][j].id != id;
        assert ps[i + 1] == r.value;
        r
      else r
  }

  /** After the effect: no profiles, no tab; with profiles, a tab, the
      first profile's if none was set; running it again changes nothing. */
  lemma SyncedTabSpec(ps: seq<CompostProfile>, tab: Option<string>)
    ensures ps == [] ==> SyncedTab(ps, tab) == None
    ensures ps != [] ==> SyncedTab(ps, tab).Some?
    ensures ps != [] && Unset(tab) ==> SyncedTab(ps, tab) == Some(ps[0].id)
    ensures ps != [] && !Unset(tab) ==> SyncedTab(ps, tab) == tab
    ensures SyncedTab(ps, SyncedTab(ps, tab)) == SyncedTab(ps, tab)
  {
  }

  /** The effect keeps the tab among the profiles. */
  lemma SyncKeepsConsistent(ps: seq<CompostProfile>, tab: Option<string>)
    requires Consistent(ps, tab)
    ensures Consistent(ps, SyncedTab(ps, tab))
  {
    if |ps| > 0 && Unset(tab) {
      assert ps[0].id == SyncedTab(ps, tab).value;
    }
  }

  /** Creating under a fresh id keeps ids unique and selects the new profile. */
  lemma CreateKeepsConsistent(ps: seq<CompostProfile>, tab: Option<string>, p: CompostProfile)
    requires Consistent(ps, tab)
    requires forall i :: 0 <= i < |ps| ==> ps[i].id != p.id
    ensures Consistent(ps + [p], Some(p.id))
    ensures p.id != "" ==> SyncedTab(ps + [p], Some(p.id)) == Some(p.id)
  {
    var r := ps + [p];
    assert r[|ps|].id == p.id;
    forall a, b | 0 <= a < b < |r| ensures ProfileId(r[a]) != ProfileId(r[b]) {
      if b == |ps| {
        assert r[a] == ps[a];
      } else {
        assert r[a] == ps[a] && r[b] == ps[b];
      }
    }
  }

  /** Deleting keeps ids unique and the tab among the profiles left. */
  lemma DeleteKeepsConsistent(ps: seq<CompostProfile>, tab: Option<string>, gone: string)
    requires Consistent(ps, tab)
    ensures var rest := RemoveKey(ps, ProfileId, gone);
            Consistent(rest, TabAfterDelete(rest, tab, gone))
  {
    var rest := RemoveKey(ps, ProfileId, gone);
    RemoveKeyKeepsUnique(ps, ProfileId, gone);
    if tab.Some? && tab != Some(gone) {
      var i :| 0 <= i < |ps| && ps[i].id == tab.value;
      assert ProfileId(ps[i]) != gone;
      var j :| 0 <= j < |rest| && rest[j] == ps[i];
    }
  }

  /** Deleting removes exactly the profiles with that id, one when ids are
      unique and it is listed. */
  lemma DeleteSpec(ps: seq<CompostProfile>, gone: string)
    requires UniqueIds(ps, ProfileId)
    ensures var rest := RemoveKey(ps, ProfileId, gone);
            (forall i :: 0 <= i < |rest| ==> rest[i].id != gone) &&
            (forall i :: 0 <= i < |ps| && ps[i].id != gone ==> ps[i] in rest) &&
            ((exists i :: 0 <= i < |ps| && ps[i].id == gone) ==> |rest| == |ps| - 1) &&
            ((forall i :: 0 <= i < |ps| ==> ps[i].id != gone) ==> rest == ps)
  {
    var rest := RemoveKey(ps, ProfileId, gone);
    assert forall i :: 0 <= i < |rest| ==> ProfileId(rest[i]) != gone;
    if exists i :: 0 <= i < |ps| && ps[i].id == gone {
      var i :| 0 <= i < |ps| && ps[i].id == gone;
      assert ProfileId(ps[i]) == gone;
      RemoveUniqueKey(ps, ProfileId, gone);
    }
    if forall i :: 0 <= i < |ps| ==> ps[i].id != gone {
      assert forall i :: 0 <= i < |ps| ==> ProfileId(ps[i]) != gone;
      RemoveAbsentKey(ps, ProfileId, gone);
    }
  }

  /** Updating keeps every id in its place, so ids stay unique and the tab valid. */
  lemma UpdateKeepsConsistent(ps: seq<CompostProfile>, tab: Option<string>, updated: CompostProfile)
    requires Consistent(ps, tab)
    ensures var r := ReplaceKey(ps, ProfileId, updated);
            Consistent(r, tab) && forall i :: 0 <= i < |ps| ==> r[i].id == ps[i].id
  {
    var r := ReplaceKey(ps, ProfileId, updated);
    assert forall i :: 0 <= i < |ps| ==> ProfileId(r[i]) == ProfileId(ps[i]);
    if tab.Some? {
      var i :| 0 <= i < |ps| && ps[i].id == tab.value;
      assert r[i].id == tab.value;
    }
  }

  /** `CompostProfileManager`'s state. */
  class Manager {
    var profiles: seq<CompostProfile>
    var activeTab: Option<string>
    var profileToDelete: Option<CompostProfile>

    predicate Valid()
      reads this
    {
      Consistent(profiles, activeTab)
    }

    /** The stored list, no tab selected yet, no deletion pending. */
    constructor(stored: seq<CompostProfile>)
      ensures profiles == stored && activeTab == None && profileToDelete == None
      ensures UniqueIds(stored, ProfileId) ==> Valid()
    {
      profiles := stored;
      activeTab := None;
      profileToDelete := None;
    }

    /** The effect run after `profiles` or `activeTab` changes. */
    method SyncActiveTab()
      modifies this
      ensures profiles == old(profiles) && profileToDelete == old(profileToDelete)
      ensures activeTab == SyncedTab(old(profiles), old(activeTab))
      ensures old(Valid()) ==> Valid()
    {
      if old(Valid()) {
        SyncKeepsConsistent(profiles, activeTab);
      }
      activeTab := SyncedTab(profiles, activeTab);
    }

    /** `handleCreateProfile`, with `id` the fresh id, `draws` the colour's
        draws and `createdAt` the clock's ISO time. */
    method CreateProfile(name: string, initialComposition: string, id: string, draws: seq<real>, createdAt: string)
      requires |draws| == 6 && Draws(draws)
      modifies this
      ensures profiles == old(profiles) + [NewProfile(id, name, initialComposition, ColorOf(draws), createdAt)]
      ensures var p := profiles[|profiles| - 1];
              p.id == id && p.name == name && p.initialComposition == initialComposition &&
              p.dataLogs == [] && p.images == [] && IsColor(p.color)
      ensures activeTab == Some(id) && profileToDelete == old(profileToDelete)
      ensures old(Valid()) && (forall i :: 0 <= i < |old(profiles)| ==> old(profiles)[i].id != id) ==> Valid()
    {
      var color := GetRandomColor(draws);
      var p := NewProfile(id, name, initialComposition, color, createdAt);
      if Valid() && forall i :: 0 <= i < |profiles| ==> profiles[i].id != id {
        CreateKeepsConsistent(profiles, activeTab, p);
      }
      profiles := profiles + [p];
      activeTab := Some(id);
    }

    /** `handleDeleteProfile`: remember the profile with that id, if listed. */
    method RequestDelete(profileId: string)
      modifies this
      ensures profiles == old(profiles) && activeTab == old(activeTab)
      ensures profileToDelete == (var f := FindById(profiles, profileId); if f.Some? then f else old(profileToDelete))
    {
      var f := FindById(profiles, profileId);
      if f.Some? {
        profileToDelete := f;
      }
    }

    /** `confirmDeleteProfile`: drop the remembered profile's id from the
        list and, if its tab was selected, select the first one left. */
    method ConfirmDelete()
      modifies this
      ensures old(profileToDelete).None? ==> profiles == old(profiles) && activeTab == old(activeTab)
      ensures old(profileToDelete).Some? ==>
                var gone := old(profileToDelete).value.id;
                profiles == RemoveKey(old(profiles), ProfileId, gone) &&
                activeTab == TabAfterDelete(profiles, old(activeTab), gone)
      ensures profileToDelete == None
      ensures old(Valid()) ==> Valid()
    {
      if profileToDelete.None? {
        return;
      }
      var gone := profileToDelete.value.id;
      if Valid() {
        DeleteKeepsConsistent(profiles, activeTab, gone);
      }
      var rest := RemoveKey(profiles, ProfileId, gone);
      profiles := rest;
      profileToDelete := None;
      if activeTab == Some(gone) {
        activeTab := if |rest| > 0 then Some(rest[0].id) else None;
      }
    }

    /** `updateProfile`: the profile with the same id replaced. */
    method UpdateProfile(updated: CompostProfile)
      modifies this
      ensures profiles == ReplaceKey(old(profiles), ProfileId, updated)
      ensures activeTab == old(activeTab) && profileToDelete == old(profileToDelete)
      ensures old(Valid()) ==> Valid()
    {
      if Valid() {
        UpdateKeepsConsistent(profiles, activeTab, updated);
      }
      profiles := ReplaceKey(profiles, ProfileId, updated);
    }
  }
}
