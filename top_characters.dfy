/**
 * The paginated Top Characters list: its six state fields, the page load
 * (begin and finish), load-more, pull-to-refresh, the rank badges and the
 * split of the list into a three-card header and the list body. A page
 * load runs whenever `page` changes; here it is an explicit call, and the
 * page's data (or the failure) is an input.
 */
module TopCharacters {

  import opened Wrappers

  datatype Character = Character(malId: int, name: string, favorites: int)

  /** The list's state fields, as one value. */
  datatype ListState = ListState(
    characters: seq<Character>, page: int, hasMore: bool,
    loading: bool, isLoadingMore: bool, refreshing: bool)

  /** What the page fetch gives: an error, or a body whose `data` may be missing. */
  datatype PageResult = Threw | Page(data: Option<seq<Character>>)

  const Initial := ListState([], 1, true, true, false, false)

  /** The first half of loadCharacters: page 1 shows the full-screen spinner, later pages the footer. */
  function Begin(s: ListState): (r: ListState)
    ensures r.characters == s.characters && r.page == s.page && r.hasMore == s.hasMore
    ensures r.refreshing == s.refreshing
    ensures s.page == 1 ==> r.loading && r.isLoadingMore == s.isLoadingMore
    ensures s.page != 1 ==> r.isLoadingMore && r.loading == s.loading
  {
    if s.page == 1 then s.(loading := true) else s.(isLoadingMore := true)
  }

  /**
   * The second half: a non-empty page is appended, an empty or missing one
   * ends the list, an error changes neither; every spinner stops.
   */
  function Finish(s: ListState, result: PageResult): (r: ListState)
    ensures r.page == s.page
    ensures !r.loading && !r.isLoadingMore && !r.refreshing
    ensures result.Page? && result.data.Some? && result.data.value != [] ==>
              r.characters == s.characters + result.data.value && r.hasMore == s.hasMore
    ensures result.Page? && (result.data.None? || result.data.value == []) ==>
              r.characters == s.characters && !r.hasMore
    ensures result.Threw? ==> r.characters == s.characters && r.hasMore == s.hasMore
  {
    var t :=
      match result
      case Threw => s
      case Page(data) =>
        if data.Some? && data.value != [] then s.(characters := s.characters + data.value)
        else s.(hasMore := false);
    t.(loading := false, isLoadingMore := false, refreshing := false)
  }

  /** handleLoadMore: the next page only when no later page is loading and more may exist. */
  function LoadMore(s: ListState): (r: ListState)
    ensures !s.isLoadingMore && s.hasMore ==> r == s.(page := s.page + 1)
    ensures s.isLoadingMore || !s.hasMore ==> r == s
  {
    if !s.isLoadingMore && s.hasMore then s.(page := s.page + 1) else s
  }

  /** handleRefresh's four updates. */
  function Refresh(s: ListState): (r: ListState)
    ensures r.refreshing && r.characters == [] && r.page == 1 && r.hasMore
    ensures r.loading == s.loading && r.isLoadingMore == s.isLoadingMore
  {
    s.(refreshing := true, characters := [], page := 1, hasMore := true)
  }

  /** A load runs when a handler changed `page`: the `[page]` effect. */
  function AfterEffect(before: ListState, after: ListState, result: PageResult): ListState {
    if after.page != before.page then Finish(Begin(after), result) else after
  }

  /** Refresh as written: the reload comes only from the `[page]` effect. */
  function RefreshAsWritten(s: ListState, result: PageResult): (r: ListState)
    ensures s.page != 1 ==> r == Finish(Begin(Refresh(s)), result)
    ensures s.page == 1 ==> r == Refresh(s)
  {
    AfterEffect(s, Refresh(s), result)
  }

  /**
   * On page 1, refresh as written does not reload page 1: right after it the
   * list is empty and `refreshing` stays on until some other load runs.
   */
  lemma RefreshOnFirstPageStalls(s: ListState, result: PageResult)
    requires s.page == 1
    ensures RefreshAsWritten(s, result).characters == []
    ensures RefreshAsWritten(s, result).refreshing
  {
  }

  /**
   * What the user then sees: `onEndReached` on the emptied list calls
   * handleLoadMore, whose guard passes because the refresh re-enabled
   * `hasMore`. Page 2 is fetched into the empty list, the spinner stops, and
   * page 1 is still never shown again.
   */
  lemma RefreshThenLoadMoreSkipsPageOne(s: ListState, r: PageResult, p2: seq<Character>)
    requires s.page == 1 && !s.isLoadingMore
    requires p2 != []
    ensures
      var t := RefreshAsWritten(s, r);
      var m := LoadMore(t);
      var u := AfterEffect(t, m, Page(Some(p2)));
      && m.page == 2 && !u.refreshing && u.characters == p2 && u.page == 2
  {
  }

  /** The concrete case: the first page has loaded one character, then the user pulls to refresh. */
  lemma RefreshAfterFirstPageExample(c: Character)
    ensures
      var loaded := Finish(Begin(Initial), Page(Some([c])));
      && loaded.characters == [c] && loaded.page == 1
      && RefreshAsWritten(loaded, Page(Some([c]))) == ListState([], 1, true, false, false, true)
  {
  }

  /** Refresh as intended: clear the list, then load page 1 whatever the page was. */
  function RefreshFixed(s: ListState, result: PageResult): ListState {
    Finish(Begin(Refresh(s)), result)
  }

  /**
   * The intended refresh ends its spinner and leaves exactly the list a
   * first load would: the page-1 characters, at page 1.
   */
  lemma RefreshFixedReloads(s: ListState, result: PageResult)
    ensures !RefreshFixed(s, result).refreshing
    ensures RefreshFixed(s, result).page == 1
    ensures RefreshFixed(s, result).characters == Finish(Begin(Initial), result).characters
    ensures RefreshFixed(s, result).hasMore == Finish(Begin(Initial), result).hasMore
  {
  }

  /** Load-more never skips or repeats a page and never touches the list. */
  lemma LoadMoreAdvancesByOne(s: ListState)
    ensures LoadMore(s).page == s.page || LoadMore(s).page == s.page + 1
    ensures LoadMore(s).characters == s.characters
    ensures LoadMore(s).page == s.page + 1 <==> !s.isLoadingMore && s.hasMore
  {
  }

  /** Once a load ends the list, load-more does nothing until a refresh. */
  lemma EndOfListIsSticky(s: ListState)
    requires !s.hasMore
    ensures LoadMore(s) == s
    ensures Refresh(s).hasMore
  {
  }

  /** Loads only ever append: the earlier characters stay a prefix, in order. */
  lemma {:induction false} LoadsAppend(s: ListState, results: seq<PageResult>)
    ensures s.characters <= LoadAll(s, results).characters
    decreases |results|
  {
    if results != [] {
      LoadsAppend(Finish(Begin(s), results[0]), results[1..]);
    }
  }

  /** A run of page loads, each with its own result. */
  function LoadAll(s: ListState, results: seq<PageResult>): ListState
    decreases |results|
  {
    if results == [] then s else LoadAll(Finish(Begin(s), results[0]), results[1..])
  }

  // ---------------------------------------------------------------------
  // The screen
  // ---------------------------------------------------------------------

  class List {
    var characters: seq<Character>
    var page: int
    var hasMore: bool
    var loading: bool
    var isLoadingMore: bool
    var refreshing: bool

    function State(): ListState
      reads this
    {
      ListState(characters, page, hasMore, loading, isLoadingMore, refreshing)
    }

    constructor ()
      ensures State() == Initial
    {
      characters := [];
      page := 1;
      hasMore := true;
      loading := true;
      isLoadingMore := false;
      refreshing := false;
    }

    /** The start of loadCharacters; returns the page to fetch. */
    method BeginLoad() returns (requested: int)
      modifies this`loading, this`isLoadingMore
      ensures requested == page
      ensures State() == Begin(old(State()))
    {
      requested := page;
      if page == 1 {
        loading := true;
      } else {
        isLoadingMore := true;
      }
    }

    /** The rest of loadCharacters, once the fetch has answered or thrown. */
    method FinishLoad(result: PageResult)
      modifies this`characters, this`hasMore, this`loading, this`isLoadingMore, this`refreshing
      ensures State() == Finish(old(State()), result)
    {
      if result.Page? && result.data.Some? && result.data.value != [] {
        characters := characters + result.data.value;
      } else if result.Page? {
        hasMore := false;
      }
      loading := false;
      isLoadingMore := false;
      refreshing := false;
    }

    /** loadCharacters for the current page. */
    method LoadCharacters(result: PageResult) returns (requested: int)
      modifies this`characters, this`hasMore, this`loading, this`isLoadingMore, this`refreshing
      ensures requested == old(page)
      ensures State() == Finish(Begin(old(State())), result)
    {
      requested := BeginLoad();
      FinishLoad(result);
    }

    /** handleLoadMore; `advanced` says whether the page moved (and so a load follows). */
    method HandleLoadMore() returns (advanced: bool)
      modifies this`page
      ensures State() == LoadMore(old(State()))
      ensures advanced <==> page != old(page)
    {
      advanced := !isLoadingMore && hasMore;
      if advanced {
        page := page + 1;
      }
    }

    /**
     * handleRefresh, with the page-1 reload made explicit so a refresh on
     * the first page reloads it too.
     */
    method HandleRefresh(result: PageResult) returns (requested: int)
      modifies this`characters, this`page, this`hasMore, this`loading, this`isLoadingMore, this`refreshing
      ensures requested == 1
      ensures State() == RefreshFixed(old(State()), result)
    {
      refreshing := true;
      characters := [];
      page := 1;
      hasMore := true;
      requested := LoadCharacters(result);
    }
  }

  // ---------------------------------------------------------------------
  // Badges and the header / body split
  // ---------------------------------------------------------------------

  datatype Badge = Badge(color: string, icon: string)

  /** getBadge: gold, silver and bronze for ranks 1 to 3, nothing for the rest. */
  function GetBadge(rank: int): (r: Option<Badge>)
    ensures r.Some? <==> 1 <= rank <= 3
    ensures rank == 1 ==> r == Some(Badge("#FFD700", "star"))
    ensures rank == 2 ==> r == Some(Badge("#C0C0C0", "star-outline"))
    ensures rank == 3 ==> r == Some(Badge("#CD7F32", "star-half"))
  {
    if rank == 1 then Some(Badge("#FFD700", "star"))
    else if rank == 2 then Some(Badge("#C0C0C0", "star-outline"))
    else if rank == 3 then Some(Badge("#CD7F32", "star-half"))
    else None
  }

  /** The header cards: `characters.slice(0, 3)`. */
  function TopThree(cs: seq<Character>): (r: seq<Character>)
    ensures |r| == (if |cs| < 3 then |cs| else 3) && r <= cs
  {
    if |cs| <= 3 then cs else cs[..3]
  }

  /** renderItem: the list body draws nothing for the first three indices. */
  function RenderItem(item: Character, index: int): (r: Option<Character>)
    ensures r.Some? <==> index >= 3
    ensures r.Some? ==> r.value == item
  {
    if index < 3 then None else Some(item)
  }

  /** What the list body draws for indices i and on, in order. */
  function BodyFrom(cs: seq<Character>, i: nat): seq<Character>
    requires i <= |cs|
    decreases |cs| - i
  {
    if i == |cs| then []
    else
      var shown := RenderItem(cs[i], i);
      (if shown.Some? then [shown.value] else []) + BodyFrom(cs, i + 1)
  }

  lemma {:induction false} BodyFromIsTail(cs: seq<Character>, i: nat)
    requires i <= |cs|
    ensures BodyFrom(cs, i) == cs[(if i < 3 then (if |cs| < 3 then |cs| else 3) else i)..]
    decreases |cs| - i
  {
    if i < |cs| {
      BodyFromIsTail(cs, i + 1);
      if i >= 3 {
        assert cs[i..] == [cs[i]] + cs[i + 1..];
      }
    }
  }

  /**
   * Every character appears exactly once, in order: the header followed by
   * the body is the whole list, and every header card has a badge.
   */
  lemma ShownOnce(cs: seq<Character>)
    ensures TopThree(cs) + BodyFrom(cs, 0) == cs
    ensures forall rank :: 1 <= rank <= |TopThree(cs)| ==> GetBadge(rank).Some?
  {
    BodyFromIsTail(cs, 0);
    if |cs| > 3 {
      assert cs[..3] + cs[3..] == cs;
    }
  }
}
