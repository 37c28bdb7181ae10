/**
 * The My Vaults page: its three pieces of state (`search`, `vaults`,
 * `openMenuId`) and the handlers that replace them.
 */
module MyVaults {
  import opened Wrappers
  import opened VaultList

  class MyVaultsPage {
    var search: string
    var vaults: seq<Vault>
    var openMenuId: Option<int>

    /** First render: empty search, the mock vaults, no menu open. */
    constructor ()
      ensures search == "" && vaults == InitialVaults && openMenuId == None
    {
      search := "";
      vaults := InitialVaults;
      openMenuId := None;
    }

    /** The cards shown in the grid: exactly the vaults whose title matches the search. */
    function Filtered(): (r: seq<Vault>)
      reads this
      ensures forall v :: v in r <==> v in vaults && TitleMatches(v, search)
    {
      SearchResultsMembership(vaults, search);
      SearchResults(vaults, search)
    }

    /** Whether the dropdown of the card with this id is open. */
    predicate MenuOpenOn(id: int)
      reads this
    {
      openMenuId == Some(id)
    }

    /** Typing in the search box. */
    method SetSearch(s: string)
      modifies this
      ensures search == s
      ensures vaults == old(vaults) && openMenuId == old(openMenuId)
    {
      search := s;
    }

    /** The Favorite / Unfavorite entry of a card's menu. */
    method ToggleFavorite(id: int)
      modifies this
      ensures vaults == ToggleFavoriteById(old(vaults), id)
      ensures openMenuId == None && search == old(search)
    {
      vaults := ToggleFavoriteById(vaults, id);
      openMenuId := None;
    }

    /** The Delete entry of a card's menu. */
    method DeleteVault(id: int)
      modifies this
      ensures vaults == RemoveById(old(vaults), id)
      ensures openMenuId == None && search == old(search)
    {
      vaults := RemoveById(vaults, id);
      openMenuId := None;
    }

    /** The three-dots button of a card. */
    method ToggleMenu(id: int)
      modifies this
      ensures openMenuId == VaultList.ToggleMenu(old(openMenuId), id)
      ensures vaults == old(vaults) && search == old(search)
    {
      openMenuId := VaultList.ToggleMenu(openMenuId, id);
    }
  }

  /** Two clicks on the same three-dots button from a closed menu leave every field as it was. */
  method TwoMenuClicksClose(page: MyVaultsPage, id: int)
    requires page.openMenuId == None
    modifies page
    ensures page.openMenuId == None
    ensures page.vaults == old(page.vaults) && page.search == old(page.search)
  {
    page.ToggleMenu(id);
    assert page.MenuOpenOn(id);
    page.ToggleMenu(id);
  }
}
