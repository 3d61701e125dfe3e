/** The user directory of the `UserList` component: search over the
    fetched snapshot, pagination in pages of six, and the Previous/Next
    handlers. */
module Users {
  import opened JsArray
  import opened JsString

  /** A user record as the directory reads it from the fetched list. */
  datatype User = User(id: int, name: string, username: string, email: string, phone: string, website: string)

  /** `usersPerPage`. */
  const UsersPerPage: nat := 6

  // ---------------------------------------------------------------------
  // filteredUsers

  /** The search test: the lower-cased search text occurs in the
      lower-cased name or in the lower-cased email. An empty search matches
      everyone; a search longer than both fields matches nobody. */
  predicate MatchesSearch(u: User, search: string)
    ensures search == "" ==> MatchesSearch(u, search)
    ensures MatchesSearch(u, search) ==> |search| <= |u.name| || |search| <= |u.email|
  {
    || Includes(ToLower(u.name), ToLower(search))
    || Includes(ToLower(u.email), ToLower(search))
  }

  /** `filteredUsers`: the users the search keeps. */
  function FilteredUsers(users: seq<User>, search: string): (r: seq<User>)
    ensures |r| <= |users|
    ensures forall u :: u in r <==> u in users && MatchesSearch(u, search)
  {
    Filter(users, (u: User) => MatchesSearch(u, search))
  }

  /** The search keeps exactly the matching users, each as often as the
      snapshot holds it, in the snapshot's order. */
  lemma SearchKeepsMatches(users: seq<User>, search: string)
    ensures IsSubsequence(FilteredUsers(users, search), users)
    ensures forall u :: u in FilteredUsers(users, search) <==> u in users && MatchesSearch(u, search)
    ensures forall u ::
      multiset(FilteredUsers(users, search))[u] == (if MatchesSearch(u, search) then multiset(users)[u] else 0)
  {
    var keep := (u: User) => MatchesSearch(u, search);
    FilterIsSubsequence(users, keep);
    forall u ensures multiset(FilteredUsers(users, search))[u] == (if MatchesSearch(u, search) then multiset(users)[u] else 0) {
      FilterMultiplicity(users, keep, u);
    }
  }

  /** An empty search box shows every user. */
  lemma EmptySearchKeepsAll(users: seq<User>)
    ensures FilteredUsers(users, "") == users
  {
    FilterKeepsAll(users, (u: User) => MatchesSearch(u, ""));
  }

  /** Two search texts that lower-case alike select the same users. */
  lemma SearchIgnoresCase(users: seq<User>, search: string, other: string)
    requires ToLower(search) == ToLower(other)
    ensures FilteredUsers(users, search) == FilteredUsers(users, other)
  {
    FilterCongruent(users, (u: User) => MatchesSearch(u, search), (u: User) => MatchesSearch(u, other));
  }

  /** Any piece of a user's name, typed in any mix of upper and lower
      case, finds that user, under the ASCII case map `ToLower` models. */
  lemma NameFragmentFindsUser(u: User, i: nat, j: nat, typed: string)
    requires i <= j <= |u.name|
    requires ToLower(typed) == ToLower(u.name[i..j])
    ensures MatchesSearch(u, typed)
  {
    var name := ToLower(u.name);
    var needle := ToLower(typed);
    assert needle == name[i..j];
    assert needle <= name[i..];
    IncludesIffOccurs(name, needle);
  }

  /** Searching "ANN" finds a user named "Anna". */
  lemma UpperCaseSearchFindsAnna(u: User)
    requires u.name == "Anna"
    ensures MatchesSearch(u, "ANN")
  {
  }

  // ---------------------------------------------------------------------
  // currentUsers and totalPages

  /** `Math.ceil(n / usersPerPage)`: the fewest pages of six that hold `n`
      users. */
  function TotalPages(n: nat): (r: nat)
    ensures n <= r * UsersPerPage
    ensures r == 0 || (r - 1) * UsersPerPage < n
  {
    (n + UsersPerPage - 1) / UsersPerPage
  }

  /** `currentUsers`: `filtered.slice(indexOfFirstUser, indexOfLastUser)`
      with the last index `page * usersPerPage` and the first six before it.
      It holds at most six users, and from page one on they are the users
      that follow position `(page - 1) * 6`, in order. */
  function CurrentUsers(filtered: seq<User>, page: int): (r: seq<User>)
    ensures |r| <= UsersPerPage
    ensures 1 <= page ==> forall i :: 0 <= i < |r| ==>
      (page - 1) * UsersPerPage + i < |filtered| && r[i] == filtered[(page - 1) * UsersPerPage + i]
  {
    var last := page * UsersPerPage;
    var first := last - UsersPerPage;
    Slice(filtered, first, last)
  }

  /** The smaller of two integers. */
  function Min(a: int, b: int): int
  {
    if a <= b then a else b
  }

  /** From page one on, the page shows the users at positions
      `(page - 1) * 6` up to `page * 6`, cut at the end of the list: at most
      six, and none on a page past the end. */
  lemma PageIsSlice(filtered: seq<User>, page: int)
    requires 1 <= page
    ensures (page - 1) * UsersPerPage <= |filtered| ==>
      CurrentUsers(filtered, page) == filtered[(page - 1) * UsersPerPage..Min(page * UsersPerPage, |filtered|)]
    ensures |CurrentUsers(filtered, page)| <= UsersPerPage
    ensures |filtered| <= (page - 1) * UsersPerPage ==> CurrentUsers(filtered, page) == []
  {
  }

  /** Pages one to `k`, read one after the other. */
  function PagesUpTo(filtered: seq<User>, k: nat): seq<User>
  {
    if k == 0 then [] else PagesUpTo(filtered, k - 1) + CurrentUsers(filtered, k)
  }

  /** Pages one to `k` together are the first `6 * k` users. */
  lemma {:induction false} PagesUpToIsPrefix(filtered: seq<User>, k: nat)
    ensures PagesUpTo(filtered, k) == filtered[..Min(k * UsersPerPage, |filtered|)]
  {
    if k > 0 {
      PagesUpToIsPrefix(filtered, k - 1);
      PageIsSlice(filtered, k);
      var a := Min((k - 1) * UsersPerPage, |filtered|);
      var b := Min(k * UsersPerPage, |filtered|);
      if (k - 1) * UsersPerPage <= |filtered| {
        assert filtered[..b] == filtered[..a] + filtered[a..b];
      }
    }
  }

  /** The pages from one to `totalPages` split the search result: read in
      order they give it back whole, each of them holds at least one user,
      and all but the last hold six. */
  lemma PagesPartition(filtered: seq<User>, page: int)
    ensures PagesUpTo(filtered, TotalPages(|filtered|)) == filtered
    ensures 1 <= page <= TotalPages(|filtered|) ==> CurrentUsers(filtered, page) != []
    ensures 1 <= page < TotalPages(|filtered|) ==> |CurrentUsers(filtered, page)| == UsersPerPage
  {
    var n := |filtered|;
    PagesUpToIsPrefix(filtered, TotalPages(n));
    assert filtered[..n] == filtered;
    if 1 <= page <= TotalPages(n) {
      PageIsSlice(filtered, page);
    }
  }

  /** Thirteen users make three pages, the third holding one user. */
  lemma ThirteenUsersMakeThreePages(filtered: seq<User>)
    requires |filtered| == 13
    ensures TotalPages(|filtered|) == 3
    ensures |CurrentUsers(filtered, 3)| == 1
  {
  }

  /** The pagination bar is rendered when `totalPages > 1`, that is exactly
      when the search keeps more than one page's worth of users. */
  predicate ControlsShown(n: nat)
    ensures ControlsShown(n) <==> n > UsersPerPage
  {
    TotalPages(n) > 1
  }

  /** The page is not reset when the search narrows: a page past the new
      end shows nobody, and once six or fewer users remain the bar that
      could lead back is not rendered either. */
  lemma NarrowedSearchStrandsPage(filtered: seq<User>, page: int)
    requires 1 <= page && TotalPages(|filtered|) < page
    ensures CurrentUsers(filtered, page) == []
    ensures |filtered| <= UsersPerPage ==> !ControlsShown(|filtered|)
  {
  }

  // ---------------------------------------------------------------------
  // The Previous and Next handlers

  /** Previous: `Math.max(prev - 1, 1)`. */
  function PreviousPage(page: int): (r: int)
    ensures 1 <= r
    ensures 1 < page ==> r == page - 1
    ensures page <= 1 ==> r == 1
  {
    if page - 1 >= 1 then page - 1 else 1
  }

  /** Next: `Math.min(prev + 1, totalPages)`. */
  function NextPage(page: int, totalPages: nat): (r: int)
    ensures r <= totalPages
    ensures page < totalPages ==> r == page + 1
    ensures totalPages <= page ==> r == totalPages
  {
    if page + 1 <= totalPages then page + 1 else totalPages
  }

  /** From a page in `[1, totalPages]` both buttons land in that range.
      Previous on page one and Next on the last page leave the page where it
      is: the bar means to disable those two, but `Button` does not pass its
      `disabled` prop on, so they stay clickable and these clamps are what
      keeps the page in range. */
  lemma ClampsStayInRange(page: int, totalPages: nat)
    requires 1 <= page <= totalPages
    ensures 1 <= PreviousPage(page) <= totalPages
    ensures 1 <= NextPage(page, totalPages) <= totalPages
    ensures page == 1 ==> PreviousPage(page) == page
    ensures page == totalPages ==> NextPage(page, totalPages) == page
  {
  }

  /** Previous and Next undo each other away from the ends. */
  lemma PreviousUndoesNext(page: int, totalPages: nat)
    requires 1 <= page < totalPages
    ensures PreviousPage(NextPage(page, totalPages)) == page
    ensures 1 < page ==> NextPage(PreviousPage(page), totalPages) == page
  {
  }

  // ---------------------------------------------------------------------
  // The component's state

  /** The state of one mounted `UserList` once the fetch has succeeded: the
      fetched snapshot, the search text and the current page. */
  class UserList {
    var users: seq<User>
    var search: string
    var currentPage: int

    /** The page never drops below one. */
    ghost predicate Valid()
      reads this
    {
      1 <= currentPage
    }

    /** The state after a successful fetch of `fetched`: empty search, page one. */
    constructor (fetched: seq<User>)
      ensures Valid()
      ensures users == fetched && search == "" && currentPage == 1
    {
      users := fetched;
      search := "";
      currentPage := 1;
    }

    /** `filteredUsers`, always computed from the whole snapshot. */
    function Filtered(): seq<User>
      reads this
    {
      FilteredUsers(users, search)
    }

    /** `totalPages` of the current search. */
    function Pages(): nat
      reads this
    {
      TotalPages(|Filtered()|)
    }

    /** `currentUsers`: the cards on screen. */
    function Current(): seq<User>
      reads this
    {
      CurrentUsers(Filtered(), currentPage)
    }

    /** The search box's `onChange`: the search text changes, the page does
        not. */
    method SetSearch(text: string)
      requires Valid()
      modifies this
      ensures Valid()
      ensures search == text
      ensures users == old(users) && currentPage == old(currentPage)
    {
      search := text;
    }

    /** The Previous button, present only while the bar is shown. */
    method Previous()
      requires Valid() && ControlsShown(|Filtered()|)
      modifies this
      ensures Valid()
      ensures currentPage == PreviousPage(old(currentPage))
      ensures users == old(users) && search == old(search)
    {
      currentPage := PreviousPage(currentPage);
    }

    /** The Next button, present only while the bar is shown. */
    method Next()
      requires Valid() && ControlsShown(|Filtered()|)
      modifies this
      ensures Valid()
      ensures currentPage == NextPage(old(currentPage), old(Pages()))
      ensures currentPage <= Pages()
      ensures users == old(users) && search == old(search)
    {
      currentPage := NextPage(currentPage, Pages());
    }
  }
}
