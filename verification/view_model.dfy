/**
 * DiscoveryViewModel: the "current" cells (the query being executed) and
 * the "completed" cells plus items (the query whose results are shown).
 * An unset cell is None and reads as "" for queries and -1 for tokens.
 */
module ViewModel {
  import opened Wrappers
  import opened JavaText

  datatype VM<T> = VM(
    items: Option<seq<T>>,
    currentQuery: Option<String>,
    currentToken: Option<int>,
    completedQuery: Option<String>,
    completedToken: Option<int>)
  {
    function CurrentQuery(): (r: String)
      ensures currentQuery.None? ==> r == ""
      ensures currentQuery.Some? ==> r == currentQuery.value
    {
      currentQuery.GetOr("")
    }

    function CurrentToken(): (r: int)
      ensures currentToken.None? ==> r == -1
      ensures currentToken.Some? ==> r == currentToken.value
    {
      currentToken.GetOr(-1)
    }

    function CompletedQuery(): (r: String)
      ensures completedQuery.None? ==> r == ""
      ensures completedQuery.Some? ==> r == completedQuery.value
    {
      completedQuery.GetOr("")
    }

    function CompletedToken(): (r: int)
      ensures completedToken.None? ==> r == -1
      ensures completedToken.Some? ==> r == completedToken.value
    {
      completedToken.GetOr(-1)
    }
  }

  /** `setItems(q, t, l)`: the completed cells and items; the current cells are untouched. */
  function SetItems<T>(vm: VM<T>, query: String, token: int, list: seq<T>): (r: VM<T>)
    ensures r.CompletedQuery() == query && r.CompletedToken() == token && r.items == Some(list)
    ensures r.currentQuery == vm.currentQuery && r.currentToken == vm.currentToken
  {
    vm.(completedQuery := Some(query), completedToken := Some(token), items := Some(list))
  }

  /** `clear`: empty items, completed query "" and completed token -1. */
  function Clear<T>(vm: VM<T>): (r: VM<T>)
    ensures r.items == Some([]) && r.CompletedQuery() == "" && r.CompletedToken() == -1
    ensures r.currentQuery == vm.currentQuery && r.currentToken == vm.currentToken
  {
    var cleared := SetItems(vm, "", -1, []);
    cleared.(completedQuery := Some(""))
  }

  /** `setCurrentQuery(q, t)`: only the current cells change. */
  function SetCurrentQuery<T>(vm: VM<T>, query: String, token: int): (r: VM<T>)
    ensures r.CurrentQuery() == query && r.CurrentToken() == token
    ensures r.items == vm.items && r.completedQuery == vm.completedQuery && r.completedToken == vm.completedToken
  {
    vm.(currentQuery := Some(query), currentToken := Some(token))
  }

  /** The constructor calls `clear` on all-unset cells. */
  function Create<T>(): VM<T>
  {
    Clear(VM(None, None, None, None, None))
  }

  /** A new view model reads empty items, "" and -1 for both the completed and the current cells. */
  lemma CreateIsCleared<T>(vm: VM<T>)
    requires vm == Create()
    ensures vm.items == Some([]) && vm.CompletedQuery() == "" && vm.CompletedToken() == -1
    ensures vm.CurrentQuery() == "" && vm.CurrentToken() == -1
  {
  }

  /** Clearing twice is clearing once. */
  lemma ClearIdempotent<T>(vm: VM<T>)
    ensures Clear(Clear(vm)) == Clear(vm)
  {
  }

  /** The two kinds of cell are independent: setting one never disturbs the other. */
  lemma SetItemsAndSetCurrentQueryCommute<T>(vm: VM<T>, q1: String, t1: int, list: seq<T>, q2: String, t2: int)
    ensures SetItems(SetCurrentQuery(vm, q2, t2), q1, t1, list) == SetCurrentQuery(SetItems(vm, q1, t1, list), q2, t2)
  {
  }
}
