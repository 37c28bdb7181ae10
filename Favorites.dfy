/**
 * The Favorites page: its own copy of the vault list (not shared with My
 * Vaults), the menu state, the same three handlers and the empty state.
 */
module Favorites {
  import opened Wrappers
  import opened VaultList

  class FavoritesPage {
    var vaults: seq<Vault>
    var openMenuId: Option<int>

    /** Every card on the page has its own id. */
    ghost predicate Valid()
      reads this
    {
      UniqueIds(vaults)
    }

    /** First render: the mock vaults, none a favourite, no menu open. */
    constructor ()
      ensures vaults == InitialVaults && openMenuId == None
      ensures ShowsEmptyState() && Valid()
    {
      vaults := InitialVaults;
      openMenuId := None;
      InitialFavoritesEmpty();
      InitialIdsUnique();
    }

    /** The cards shown in the grid: exactly the vaults whose flag is true. */
    function Listed(): (r: seq<Vault>)
      reads this
      ensures forall v :: v in r <==> v in vaults && IsFavorite(v)
    {
      FilterMembershipAll(vaults, IsFavorite);
      FavoriteVaults(vaults)
    }

    /**
     * No card is listed, so the "No favorites yet" panel replaces the grid:
     * this happens exactly when no vault of the page is a favourite.
     */
    function ShowsEmptyState(): (b: bool)
      reads this
      ensures b <==> forall k :: 0 <= k < |vaults| ==> !IsFavorite(vaults[k])
    {
      assert |Listed()| > 0 ==> Listed()[0] in Listed();
      |Listed()| == 0
    }

    /** The Unfavorite entry of a card's menu. */
    method ToggleFavorite(id: int)
      requires Valid()
      modifies this
      ensures vaults == ToggleFavoriteById(old(vaults), id)
      ensures openMenuId == None && Valid()
    {
      ToggleKeepsUniqueIds(vaults, id);
      vaults := ToggleFavoriteById(vaults, id);
      openMenuId := None;
    }

    /** The Delete entry of a card's menu. */
    method DeleteVault(id: int)
      requires Valid()
      modifies this
      ensures vaults == RemoveById(old(vaults), id)
      ensures openMenuId == None && Valid()
    {
      RemoveKeepsUniqueIds(vaults, id);
      vaults := RemoveById(vaults, id);
      openMenuId := None;
    }

    /** The three-dots button of a card. */
    method ToggleMenu(id: int)
      requires Valid()
      modifies this
      ensures openMenuId == VaultList.ToggleMenu(old(openMenuId), id)
      ensures vaults == old(vaults) && Valid()
    {
      openMenuId := VaultList.ToggleMenu(openMenuId, id);
    }
  }

  /**
   * Unfavoriting a card listed on this page takes exactly that card off the
   * grid and keeps the full list's length (ids are unique on every page the
   * constructor and the handlers produce).
   */
  method UnfavoriteListed(page: FavoritesPage, k: nat)
    requires page.Valid() && k < |page.Listed()|
    modifies page
    ensures page.Listed() == RemoveById(old(page.Listed()), old(page.Listed()[k].id))
    ensures |page.vaults| == |old(page.vaults)| && page.Valid()
  {
    var v := page.Listed()[k];
    FavoriteVaultsSpec(page.vaults, v);
    forall i | 0 <= i < |page.vaults| && page.vaults[i].id == v.id ensures IsFavorite(page.vaults[i]) {
      var j :| 0 <= j < |page.vaults| && page.vaults[j] == v;
      assert i == j;
    }
    UnfavoriteRemovesFromFavorites(page.vaults, v.id);
    page.ToggleFavorite(v.id);
  }
}
