/**
 * The vault-card logic that the My Vaults page and the Favorites page each
 * hold a copy of: the `Vault` record, the title search, the favourites
 * filter, toggle-favourite and delete by id, the three-dots menu toggle and
 * the collaborator avatar rule.
 */
module VaultList {
  import opened Wrappers
  import Text

  /** A vault card; its favourite flag is optional in the source, hence an Option. */
  datatype Vault = Vault(
    id: int,
    title: string,
    description: string,
    collaborators: seq<string>,
    lastUpdated: string,
    color: string,
    isFavorite: Option<bool>)

  /** The mock list both pages start from. */
  const InitialVaults: seq<Vault> := [
    Vault(1, "Biology Research", "Cellular biology and molecular structures",
          ["AS", "BK", "CM"], "2 hours ago", "bg-marker-blue/10", Some(false)),
    Vault(2, "Quantum Physics Lab", "Wave-particle duality experiments",
          ["DR", "EF"], "5 hours ago", "bg-marker-green/10", Some(false)),
    Vault(3, "AI Ethics Paper", "Fairness and bias in machine learning",
          ["AS", "GH", "IJ", "KL"], "1 day ago", "bg-marker-red/10", Some(false)),
    Vault(4, "Climate Data Analysis", "Historical temperature patterns",
          ["BK"], "3 days ago", "bg-marker-yellow/10", Some(false))
  ]

  /** JavaScript truthiness of the optional flag: an absent flag is falsy. */
  predicate IsFavorite(v: Vault)
  {
    v.isFavorite == Some(true)
  }

  // ------------------------------------------------------------- filter

  /** `s.filter(p)`: the elements satisfying p, in their original order. */
  function Filter<T>(s: seq<T>, p: T -> bool): (r: seq<T>)
    ensures |r| <= |s|
    ensures forall k :: 0 <= k < |r| ==> p(r[k])
  {
    if |s| == 0 then [] else (if p(s[0]) then [s[0]] else []) + Filter(s[1..], p)
  }

  /** Filtering distributes over concatenation, so it keeps the relative order. */
  lemma {:induction false} FilterAppend<T>(a: seq<T>, b: seq<T>, p: T -> bool)
    ensures Filter(a + b, p) == Filter(a, p) + Filter(b, p)
  {
    if |a| == 0 {
      assert a + b == b;
    } else {
      assert (a + b)[0] == a[0];
      assert (a + b)[1..] == a[1..] + b;
      FilterAppend(a[1..], b, p);
    }
  }

  /** An element is kept exactly when it is in s and satisfies p. */
  lemma {:induction false} FilterMembership<T>(s: seq<T>, p: T -> bool, x: T)
    ensures x in Filter(s, p) <==> x in s && p(x)
  {
    if |s| > 0 {
      FilterMembership(s[1..], p, x);
      assert s == [s[0]] + s[1..];
    }
  }

  /** `FilterMembership` for every element at once. */
  lemma FilterMembershipAll<T>(s: seq<T>, p: T -> bool)
    ensures forall x :: x in Filter(s, p) <==> x in s && p(x)
  {
    forall x ensures x in Filter(s, p) <==> x in s && p(x) {
      FilterMembership(s, p, x);
    }
  }

  /** When every element satisfies p nothing is dropped; when none does nothing is kept. */
  lemma {:induction false} FilterAllOrNone<T>(s: seq<T>, p: T -> bool)
    ensures (forall k :: 0 <= k < |s| ==> p(s[k])) ==> Filter(s, p) == s
    ensures (forall k :: 0 <= k < |s| ==> !p(s[k])) ==> Filter(s, p) == []
  {
    if |s| > 0 {
      FilterAllOrNone(s[1..], p);
      assert forall k :: 0 <= k < |s| - 1 ==> s[1..][k] == s[k + 1];
      assert s == [s[0]] + s[1..];
    }
  }

  // ----------------------------------------------------- title search

  /** The search test: the lower-cased title contains the lower-cased search text. */
  predicate TitleMatches(v: Vault, search: string)
  {
    Text.Contains(Text.Lower(v.title), Text.Lower(search))
  }

  /** The My Vaults grid: the vaults whose title matches the search, never more than the whole list. */
  function SearchResults(vs: seq<Vault>, search: string): (r: seq<Vault>)
    ensures |r| <= |vs|
    ensures forall k :: 0 <= k < |r| ==> TitleMatches(r[k], search)
  {
    Filter(vs, v => TitleMatches(v, search))
  }

  /**
   * A vault is listed exactly when it is in the list and its lower-cased title
   * has the lower-cased search at some offset; the listing keeps the order.
   */
  lemma SearchResultsSpec(vs: seq<Vault>, search: string, v: Vault)
    ensures v in SearchResults(vs, search) <==>
              v in vs && exists i: nat :: Text.OccursAt(Text.Lower(v.title), Text.Lower(search), i)
    ensures forall a, b :: vs == a + b ==>
              SearchResults(vs, search) == SearchResults(a, search) + SearchResults(b, search)
  {
    FilterMembership(vs, v => TitleMatches(v, search), v);
    Text.ContainsIff(Text.Lower(v.title), Text.Lower(search));
    forall a, b | vs == a + b
      ensures SearchResults(vs, search) == SearchResults(a, search) + SearchResults(b, search)
    {
      FilterAppend(a, b, v => TitleMatches(v, search));
    }
  }

  /** `SearchResultsSpec`'s membership half, as a test on every vault at once. */
  lemma SearchResultsMembership(vs: seq<Vault>, search: string)
    ensures forall v :: v in SearchResults(vs, search) <==> v in vs && TitleMatches(v, search)
  {
    FilterMembershipAll(vs, v => TitleMatches(v, search));
  }

  /** An empty search lists every vault, in order. */
  lemma EmptySearchKeepsAll(vs: seq<Vault>)
    ensures SearchResults(vs, "") == vs
  {
    FilterAllOrNone(vs, v => TitleMatches(v, ""));
  }

  // ------------------------------------------------------- favourites

  /** The Favorites grid: only vaults whose flag is true, never more than the whole list. */
  function FavoriteVaults(vs: seq<Vault>): (r: seq<Vault>)
    ensures |r| <= |vs|
    ensures forall k :: 0 <= k < |r| ==> r[k].isFavorite == Some(true)
  {
    Filter(vs, IsFavorite)
  }

  /** A vault is listed as a favourite exactly when it is in the list with its flag set to true. */
  lemma FavoriteVaultsSpec(vs: seq<Vault>, v: Vault)
    ensures v in FavoriteVaults(vs) <==> v in vs && v.isFavorite == Some(true)
    ensures forall a, b :: vs == a + b ==> FavoriteVaults(vs) == FavoriteVaults(a) + FavoriteVaults(b)
  {
    FilterMembership(vs, IsFavorite, v);
    forall a, b | vs == a + b ensures FavoriteVaults(vs) == FavoriteVaults(a) + FavoriteVaults(b) {
      FilterAppend(a, b, IsFavorite);
    }
  }

  /** No mock vault starts as a favourite, so the Favorites page starts empty. */
  lemma InitialFavoritesEmpty()
    ensures FavoriteVaults(InitialVaults) == []
  {
    FilterAllOrNone(InitialVaults, IsFavorite);
  }

  // --------------------------------------------------- toggle favourite

  /**
   * The copy of a vault with its flag negated: every other field is kept, the
   * flag becomes a boolean, and its truth value is the opposite of the old
   * one's (an absent flag is falsy, so it becomes true).
   */
  function Flipped(v: Vault): (w: Vault)
    ensures w.(isFavorite := v.isFavorite) == v
    ensures w.isFavorite.Some?
    ensures IsFavorite(w) <==> !IsFavorite(v)
  {
    v.(isFavorite := Some(!IsFavorite(v)))
  }

  /**
   * Toggle favourite by id: the length and the order are kept, a vault with
   * another id is untouched, and a vault with this id is `Flipped`.
   */
  function ToggleFavoriteById(vs: seq<Vault>, id: int): (r: seq<Vault>)
    ensures |r| == |vs|
    ensures forall k :: 0 <= k < |vs| && vs[k].id != id ==> r[k] == vs[k]
    ensures forall k :: 0 <= k < |vs| && vs[k].id == id ==>
              && r[k].(isFavorite := vs[k].isFavorite) == vs[k]
              && r[k].isFavorite.Some?
              && (IsFavorite(r[k]) <==> !IsFavorite(vs[k]))
  {
    seq(|vs|, k requires 0 <= k < |vs| => if vs[k].id == id then Flipped(vs[k]) else vs[k])
  }

  /**
   * Toggling twice restores the list when every affected flag started as a
   * boolean; an absent flag comes back as `false`.
   */
  lemma {:induction false} ToggleFavoriteTwice(vs: seq<Vault>, id: int)
    ensures (forall k :: 0 <= k < |vs| && vs[k].id == id ==> vs[k].isFavorite.Some?) ==>
              ToggleFavoriteById(ToggleFavoriteById(vs, id), id) == vs
    ensures forall k :: 0 <= k < |vs| && vs[k].id == id && vs[k].isFavorite.None? ==>
              ToggleFavoriteById(ToggleFavoriteById(vs, id), id)[k] == vs[k].(isFavorite := Some(false))
  {
    var once := ToggleFavoriteById(vs, id);
    var twice := ToggleFavoriteById(once, id);
    assert |twice| == |vs|;
    forall k | 0 <= k < |vs| && vs[k].id == id
      ensures twice[k] == vs[k].(isFavorite := Some(IsFavorite(vs[k])))
    {
      assert once[k] == Flipped(vs[k]);
    }
    if forall k :: 0 <= k < |vs| && vs[k].id == id ==> vs[k].isFavorite.Some? {
      forall k | 0 <= k < |vs| ensures twice[k] == vs[k] {
        if vs[k].id != id {
          assert once[k] == vs[k];
        } else {
          var b := vs[k].isFavorite.value;
          assert IsFavorite(vs[k]) == b;
          assert twice[k] == vs[k].(isFavorite := Some(b));
        }
      }
    }
  }

  /** Splitting a toggled list at its head (an unfolding of the `map`). */
  lemma ToggleFavoriteCons(vs: seq<Vault>, id: int)
    requires |vs| > 0
    ensures ToggleFavoriteById(vs, id) ==
              [if vs[0].id == id then Flipped(vs[0]) else vs[0]] + ToggleFavoriteById(vs[1..], id)
  {
  }

  /**
   * On the Favorites page toggling a listed favourite takes it off the list:
   * when every vault with that id is a favourite, the new favourites are the
   * old ones minus that id, in the same order.
   */
  lemma {:induction false} UnfavoriteRemovesFromFavorites(vs: seq<Vault>, id: int)
    requires forall k :: 0 <= k < |vs| && vs[k].id == id ==> IsFavorite(vs[k])
    ensures FavoriteVaults(ToggleFavoriteById(vs, id)) == RemoveById(FavoriteVaults(vs), id)
  {
    if |vs| > 0 {
      ToggleFavoriteCons(vs, id);
      UnfavoriteRemovesFromFavorites(vs[1..], id);
      var head := if vs[0].id == id then Flipped(vs[0]) else vs[0];
      FilterAppend([head], ToggleFavoriteById(vs[1..], id), IsFavorite);
      assert FavoriteVaults(vs) == (if IsFavorite(vs[0]) then [vs[0]] else []) + FavoriteVaults(vs[1..]);
      FilterAppend(if IsFavorite(vs[0]) then [vs[0]] else [], FavoriteVaults(vs[1..]), OtherId(id));
    }
  }

  // ----------------------------------------------------------- delete

  /** The delete filter's test: the vault has another id. */
  function OtherId(id: int): (test: Vault -> bool)
  {
    (v: Vault) => v.id != id
  }

  /** Delete by id: no vault with that id is left, and the list never grows. */
  function RemoveById(vs: seq<Vault>, id: int): (r: seq<Vault>)
    ensures |r| <= |vs|
    ensures forall k :: 0 <= k < |r| ==> r[k].id != id
  {
    Filter(vs, OtherId(id))
  }

  /**
   * Delete removes exactly the vaults with that id and keeps the others in
   * order; deleting an absent id changes nothing.
   */
  lemma RemoveByIdSpec(vs: seq<Vault>, id: int, v: Vault)
    ensures v in RemoveById(vs, id) <==> v in vs && v.id != id
    ensures forall a, b :: vs == a + b ==> RemoveById(vs, id) == RemoveById(a, id) + RemoveById(b, id)
    ensures (forall k :: 0 <= k < |vs| ==> vs[k].id != id) ==> RemoveById(vs, id) == vs
  {
    FilterMembership(vs, OtherId(id), v);
    FilterAllOrNone(vs, OtherId(id));
    forall a, b | vs == a + b ensures RemoveById(vs, id) == RemoveById(a, id) + RemoveById(b, id) {
      FilterAppend(a, b, OtherId(id));
    }
  }

  // ------------------------------------------------------ menu toggle

  /**
   * The three-dots click: the menu ends closed exactly when it was open on
   * this card, and otherwise it opens on this card.
   */
  function ToggleMenu(open: Option<int>, id: int): (r: Option<int>)
    ensures r == None <==> open == Some(id)
    ensures r != None ==> r == Some(id)
  {
    if open == Some(id) then None else Some(id)
  }

  /** Two clicks on one card end closed, from closed or from a menu open on another card. */
  lemma ToggleMenuSpec(open: Option<int>, id: int)
    ensures ToggleMenu(ToggleMenu(None, id), id) == None
    ensures open != Some(id) ==> ToggleMenu(ToggleMenu(open, id), id) == None
  {
  }

  // ---------------------------------------------------------- avatars

  /** Maximum number of collaborator avatars drawn on a card. */
  const MaxAvatars: nat := 3

  /** The avatars drawn: the first three collaborators, in order, or all of them when there are fewer. */
  function ShownAvatars(collaborators: seq<string>): (r: seq<string>)
    ensures |r| == if |collaborators| <= MaxAvatars then |collaborators| else MaxAvatars
    ensures |r| <= MaxAvatars
    ensures r <= collaborators
    ensures |collaborators| <= MaxAvatars ==> r == collaborators
  {
    collaborators[..if |collaborators| <= MaxAvatars then |collaborators| else MaxAvatars]
  }

  /** The `+n` badge: present exactly when there are more than three collaborators, with n the number not drawn. */
  function OverflowBadge(collaborators: seq<string>): (r: Option<nat>)
    ensures r.Some? <==> |collaborators| > MaxAvatars
    ensures r.Some? ==> r.value == |collaborators| - MaxAvatars
  {
    if |collaborators| > MaxAvatars then Some(|collaborators| - MaxAvatars) else None
  }

  /**
   * The avatars drawn and the badge's number together count every
   * collaborator exactly once.
   */
  lemma AvatarRule(collaborators: seq<string>)
    ensures |ShownAvatars(collaborators)| +
              (match OverflowBadge(collaborators) case Some(n) => n case None => 0) == |collaborators|
  {
  }

  // ------------------------------------------------------------- ids

  /** No two vaults of the list share an id. */
  predicate UniqueIds(vs: seq<Vault>)
  {
    forall i, j :: 0 <= i < j < |vs| ==> vs[i].id != vs[j].id
  }

  /** The mock list has distinct ids. */
  lemma InitialIdsUnique()
    ensures UniqueIds(InitialVaults)
  {
  }

  /** Toggling a flag keeps every id, so distinct ids stay distinct. */
  lemma ToggleKeepsUniqueIds(vs: seq<Vault>, id: int)
    requires UniqueIds(vs)
    ensures UniqueIds(ToggleFavoriteById(vs, id))
  {
    var r := ToggleFavoriteById(vs, id);
    forall k | 0 <= k < |vs| ensures r[k].id == vs[k].id {
      if vs[k].id == id {
        assert r[k].(isFavorite := vs[k].isFavorite) == vs[k];
      }
    }
  }

  /** Filtering keeps a subsequence, so distinct ids stay distinct. */
  lemma {:induction false} FilterKeepsUniqueIds(vs: seq<Vault>, p: Vault -> bool)
    requires UniqueIds(vs)
    ensures UniqueIds(Filter(vs, p))
  {
    if |vs| > 0 {
      var tail := vs[1..];
      assert UniqueIds(tail) by {
        forall i, j | 0 <= i < j < |tail| ensures tail[i].id != tail[j].id {
          assert tail[i] == vs[i + 1] && tail[j] == vs[j + 1];
        }
      }
      FilterKeepsUniqueIds(tail, p);
      if p(vs[0]) {
        var rest := Filter(tail, p);
        forall k | 0 <= k < |rest| ensures rest[k].id != vs[0].id {
          assert rest[k] in rest;
          FilterMembership(tail, p, rest[k]);
          var j :| 0 <= j < |tail| && tail[j] == rest[k];
          assert vs[j + 1] == rest[k];
        }
        assert Filter(vs, p) == [vs[0]] + rest;
      }
    }
  }

  /** Deleting keeps a subsequence, so distinct ids stay distinct. */
  lemma RemoveKeepsUniqueIds(vs: seq<Vault>, id: int)
    requires UniqueIds(vs)
    ensures UniqueIds(RemoveById(vs, id))
  {
    FilterKeepsUniqueIds(vs, OtherId(id));
  }
}
