/** The portfolio grid: a category filter over a constant list of video
    items, and a per-item map saying which videos play. */
module Portfolio {

  /** An item of the grid, reduced to the two fields its behaviour depends on:
      the id (render key and key of the play map) and the category. */
  datatype PortfolioItem = PortfolioItem(id: int, category: string)

  /** The seven items of the grid, in display order. */
  const PortfolioItems: seq<PortfolioItem> := [
    PortfolioItem(1, "mybest"),
    PortfolioItem(2, "mybest"),
    PortfolioItem(3, "mybest"),
    PortfolioItem(4, "mybest"),
    PortfolioItem(5, "recreations"),
    PortfolioItem(6, "recreations"),
    PortfolioItem(7, "others")
  ]

  datatype FilterButton = FilterButton(id: string, caption: string)

  /** The filter that shows every item. */
  const AllFilter: string := "all"

  const Filters: seq<FilterButton> := [
    FilterButton("all", "All Works"),
    FilterButton("mybest", "My Best"),
    FilterButton("recreations", "Recreations"),
    FilterButton("others", "Others")
  ]

  /** The id of the section element that holds the grid. */
  const SectionId: string := "portfolio"

  predicate IsFilterId(f: string)
  {
    exists k :: 0 <= k < |Filters| && Filters[k].id == f
  }

  /** Whether the button with id `buttonId` is drawn as the active one while
      the filter `activeFilter` is selected. */
  predicate DrawnActive(activeFilter: string, buttonId: string)
  {
    activeFilter == buttonId
  }

  /** The position of the button whose id is `f`. */
  function FilterIndex(f: string): (k: nat)
    requires IsFilterId(f)
    ensures k < |Filters| && Filters[k].id == f
  {
    if f == "all" then 0
    else if f == "mybest" then 1
    else if f == "recreations" then 2
    else 3
  }

  /** The filter buttons have distinct ids, so while the filter of button `k`
      is selected, button `k` and no other is drawn as active. */
  lemma OneFilterButtonActive(f: string, k: nat)
    requires k < |Filters| && Filters[k].id == f
    ensures forall j :: 0 <= j < |Filters| ==> (DrawnActive(f, Filters[j].id) <==> j == k)
  {
  }

  /** `items.filter(item => item.category === category)`. */
  function SelectCategory(items: seq<PortfolioItem>, category: string): (r: seq<PortfolioItem>)
    ensures |r| <= |items|
    ensures forall k :: 0 <= k < |r| ==> r[k].category == category
  {
    if items == [] then []
    else
      (if items[0].category == category then [items[0]] else []) + SelectCategory(items[1..], category)
  }

  /** `a` is `b` with some elements removed and the rest in their order. */
  predicate IsSubsequence<T(==)>(a: seq<T>, b: seq<T>)
    decreases |b|
  {
    if a == [] then true
    else if b == [] then false
    else if a[0] == b[0] then IsSubsequence(a[1..], b[1..])
    else IsSubsequence(a, b[1..])
  }

  /** Filtering keeps the order of the kept items. */
  lemma {:induction false} SelectIsSubsequence(items: seq<PortfolioItem>, category: string)
    ensures IsSubsequence(SelectCategory(items, category), items)
  {
    if items != [] {
      SelectIsSubsequence(items[1..], category);
      var rest := SelectCategory(items[1..], category);
      if items[0].category == category {
        assert SelectCategory(items, category)[1..] == rest;
      } else {
        assert SelectCategory(items, category) == rest;
        assert rest != [] ==> rest[0] != items[0];
      }
    }
  }

  /** Filtering keeps every item of the category, as often as it occurs, and
      nothing else. */
  lemma {:induction false} SelectKeepsEveryMatch(items: seq<PortfolioItem>, category: string)
    ensures forall x :: multiset(SelectCategory(items, category))[x] ==
                        if x.category == category then multiset(items)[x] else 0
  {
    if items != [] {
      SelectKeepsEveryMatch(items[1..], category);
      assert items == [items[0]] + items[1..];
    }
  }

  /** Items with pairwise distinct ids (the grid uses ids as render keys). */
  predicate DistinctIds(items: seq<PortfolioItem>)
  {
    forall a, b :: 0 <= a < b < |items| ==> items[a].id != items[b].id
  }

  /** Every item the filter keeps comes from the list. */
  lemma {:induction false} SelectedItemsComeFromList(items: seq<PortfolioItem>, category: string, x: PortfolioItem)
    requires x in SelectCategory(items, category)
    ensures x in items
  {
    if items[0] != x {
      assert x in SelectCategory(items[1..], category);
      SelectedItemsComeFromList(items[1..], category, x);
    }
  }

  lemma DistinctIdsTail(items: seq<PortfolioItem>)
    requires items != [] && DistinctIds(items)
    ensures DistinctIds(items[1..])
    ensures forall x :: x in items[1..] ==> x.id != items[0].id
  {
    var tail := items[1..];
    forall x | x in tail ensures x.id != items[0].id {
      var j :| 0 <= j < |tail| && tail[j] == x;
      assert items[j + 1] == x;
    }
  }

  lemma {:induction false} SelectKeepsIdsDistinct(items: seq<PortfolioItem>, category: string)
    requires DistinctIds(items)
    ensures DistinctIds(SelectCategory(items, category))
  {
    if items != [] {
      var tail := items[1..];
      DistinctIdsTail(items);
      SelectKeepsIdsDistinct(tail, category);
      var rest := SelectCategory(tail, category);
      if items[0].category == category {
        var r := SelectCategory(items, category);
        assert r == [items[0]] + rest;
        forall a, b | 0 <= a < b < |r| ensures r[a].id != r[b].id {
          assert r[b] == rest[b - 1];
          if a == 0 {
            SelectedItemsComeFromList(tail, category, rest[b - 1]);
          } else {
            assert r[a] == rest[a - 1];
          }
        }
      }
    }
  }

  /** `filteredItems`: everything under the "all" filter, otherwise the items
      of the chosen category. */
  function FilterItems(items: seq<PortfolioItem>, filter: string): (r: seq<PortfolioItem>)
    ensures filter == AllFilter ==> r == items
    ensures filter != AllFilter ==> forall k :: 0 <= k < |r| ==> r[k].category == filter
    ensures IsSubsequence(r, items)
  {
    if filter == AllFilter then
      assert IsSubsequence(items, items) by { SubsequenceReflexive(items); }
      items
    else
      SelectIsSubsequence(items, filter);
      SelectCategory(items, filter)
  }

  lemma {:induction false} SubsequenceReflexive<T>(s: seq<T>)
    ensures IsSubsequence(s, s)
  {
    if s != [] {
      SubsequenceReflexive(s[1..]);
    }
  }

  lemma {:induction false} SelectAppend(a: seq<PortfolioItem>, b: seq<PortfolioItem>, category: string)
    ensures SelectCategory(a + b, category) == SelectCategory(a, category) + SelectCategory(b, category)
  {
    if a != [] {
      SelectAppend(a[1..], b, category);
      var head := if a[0].category == category then [a[0]] else [];
      assert (a + b)[0] == a[0];
      assert (a + b)[1..] == a[1..] + b;
      assert SelectCategory(a + b, category) == head + SelectCategory(a[1..] + b, category);
      assert SelectCategory(a, category) == head + SelectCategory(a[1..], category);
    } else {
      assert a + b == b;
    }
  }

  lemma {:induction false} SelectWhenAllMatch(items: seq<PortfolioItem>, category: string)
    requires forall k :: 0 <= k < |items| ==> items[k].category == category
    ensures SelectCategory(items, category) == items
  {
    if items != [] {
      SelectWhenAllMatch(items[1..], category);
    }
  }

  lemma {:induction false} SelectWhenNoneMatch(items: seq<PortfolioItem>, category: string)
    requires forall k :: 0 <= k < |items| ==> items[k].category != category
    ensures SelectCategory(items, category) == []
  {
    if items != [] {
      SelectWhenNoneMatch(items[1..], category);
    }
  }

  /** No item has the category "all": without its own branch, the "All
      Works" filter would show nothing. */
  lemma SelectingAllFindsNothing()
    ensures SelectCategory(PortfolioItems, AllFilter) == []
  {
    var s := PortfolioItems;
    assert forall k :: 0 <= k < |s| ==> s[k].category != "all";
    SelectWhenNoneMatch(s, "all");
  }

  /** What the grid area shows. */
  datatype Grid = Cards(items: seq<PortfolioItem>) | NoItemsMessage

  function GridFor(filtered: seq<PortfolioItem>): (g: Grid)
    ensures g.NoItemsMessage? <==> |filtered| == 0
    ensures g.Cards? ==> g.items == filtered
  {
    if |filtered| > 0 then Cards(filtered) else NoItemsMessage
  }

  /** The grid holds 4 "mybest" items, ... */
  lemma MyBestCount()
    ensures SelectCategory(PortfolioItems, "mybest") == PortfolioItems[..4]
  {
    var s := PortfolioItems;
    var front, back := s[..4], s[4..];
    assert s == front + back;
    assert forall k :: 0 <= k < |front| ==> front[k].category == "mybest";
    SelectWhenAllMatch(front, "mybest");
    assert forall k :: 0 <= k < |back| ==> back[k].category != "mybest";
    SelectWhenNoneMatch(back, "mybest");
    SelectAppend(front, back, "mybest");
  }

  /** ... 2 "recreations" items, ... */
  lemma RecreationsCount()
    ensures SelectCategory(PortfolioItems, "recreations") == PortfolioItems[4..6]
  {
    var s := PortfolioItems;
    var front, middle, back := s[..4], s[4..6], s[6..];
    assert s == front + (middle + back);
    assert forall k :: 0 <= k < |front| ==> front[k].category != "recreations";
    SelectWhenNoneMatch(front, "recreations");
    assert forall k :: 0 <= k < |middle| ==> middle[k].category == "recreations";
    SelectWhenAllMatch(middle, "recreations");
    assert forall k :: 0 <= k < |back| ==> back[k].category != "recreations";
    SelectWhenNoneMatch(back, "recreations");
    SelectAppend(middle, back, "recreations");
    SelectAppend(front, middle + back, "recreations");
  }

  /** ... and 1 "others" item, ... */
  lemma OthersCount()
    ensures SelectCategory(PortfolioItems, "others") == PortfolioItems[6..]
  {
    var s := PortfolioItems;
    var front, back := s[..6], s[6..];
    assert s == front + back;
    assert forall k :: 0 <= k < |front| ==> front[k].category != "others";
    SelectWhenNoneMatch(front, "others");
    assert forall k :: 0 <= k < |back| ==> back[k].category == "others";
    SelectWhenAllMatch(back, "others");
    SelectAppend(front, back, "others");
  }

  /** ... with ids 1 to 7 in order, hence distinct render keys. */
  lemma CatalogueIds()
    ensures forall k :: 0 <= k < |PortfolioItems| ==> PortfolioItems[k].id == k + 1
    ensures DistinctIds(PortfolioItems)
  {
  }

  /** The filter button at position `k` shows at least one item. */
  lemma FilterButtonShowsItems(k: nat)
    requires k < |Filters|
    ensures |FilterItems(PortfolioItems, Filters[k].id)| > 0
  {
    if k == 0 {
      assert Filters[k].id == AllFilter;
    } else if k == 1 {
      assert Filters[k].id == "mybest" && "mybest" != AllFilter;
      MyBestCount();
    } else if k == 2 {
      assert Filters[k].id == "recreations" && "recreations" != AllFilter;
      RecreationsCount();
    } else {
      assert Filters[k].id == "others" && "others" != AllFilter;
      OthersCount();
    }
  }

  /** Every filter button shows at least one item, so the "No portfolio items
      found" message is never reached from the buttons. */
  lemma EveryFilterShowsItems(f: string)
    requires IsFilterId(f)
    ensures |FilterItems(PortfolioItems, f)| > 0
    ensures GridFor(FilterItems(PortfolioItems, f)).Cards?
  {
    var k :| 0 <= k < |Filters| && Filters[k].id == f;
    FilterButtonShowsItems(k);
  }

  /** Whether the video of `id` plays: an absent entry reads as not playing. */
  function IsPlaying(playing: map<int, bool>, id: int): (r: bool)
    ensures id !in playing ==> !r
    ensures id in playing ==> r == playing[id]
  {
    id in playing && playing[id]
  }

  /** `toggleVideo`: `{...prev, [id]: !prev[id]}`. */
  function ToggleEntry(playing: map<int, bool>, id: int): (r: map<int, bool>)
    ensures IsPlaying(r, id) == !IsPlaying(playing, id)
    ensures r.Keys == playing.Keys + {id}
    ensures forall other :: other in playing && other != id ==> r[other] == playing[other]
  {
    playing[id := !IsPlaying(playing, id)]
  }

  /** Toggling never changes whether any other video plays. */
  lemma ToggleLeavesOthers(playing: map<int, bool>, id: int, other: int)
    requires other != id
    ensures IsPlaying(ToggleEntry(playing, id), other) == IsPlaying(playing, other)
  {
  }

  /** Toggling twice restores whether every video plays. */
  lemma ToggleTwiceRestores(playing: map<int, bool>, id: int, v: int)
    ensures IsPlaying(ToggleEntry(ToggleEntry(playing, id), id), v) == IsPlaying(playing, v)
  {
  }

  /** The map itself is not restored when the entry was absent: it now holds
      an explicit `false`. */
  lemma ToggleTwiceFromAbsent(playing: map<int, bool>, id: int)
    requires id !in playing
    ensures ToggleEntry(ToggleEntry(playing, id), id) == playing[id := false]
    ensures ToggleEntry(ToggleEntry(playing, id), id) != playing
  {
    assert id in ToggleEntry(ToggleEntry(playing, id), id);
  }

  /** The state of the portfolio section. */
  class PortfolioSection {
    var activeFilter: string
    var playingVideos: map<int, bool>

    ghost predicate Valid()
      reads this
    {
      IsFilterId(activeFilter)
    }

    constructor ()
      ensures Valid()
      ensures activeFilter == AllFilter && playingVideos == map[]
    {
      activeFilter := AllFilter;
      playingVideos := map[];
      assert Filters[0].id == AllFilter;
    }

    /** A click on the filter button `f`. */
    method SelectFilter(f: string)
      requires IsFilterId(f)
      modifies this
      ensures Valid()
      ensures activeFilter == f && playingVideos == old(playingVideos)
    {
      activeFilter := f;
    }

    /** A click on the video or the play overlay of item `id`. */
    method ToggleVideo(id: int)
      modifies this
      ensures playingVideos == ToggleEntry(old(playingVideos), id)
      ensures activeFilter == old(activeFilter)
    {
      playingVideos := ToggleEntry(playingVideos, id);
    }

    /** The items on screen. */
    function FilteredItems(): (r: seq<PortfolioItem>)
      reads this
      requires Valid()
      ensures |r| > 0
      ensures IsSubsequence(r, PortfolioItems)
    {
      EveryFilterShowsItems(activeFilter);
      FilterItems(PortfolioItems, activeFilter)
    }

    /** The position of the filter button drawn as active: the only one. */
    function ActiveButton(): (k: nat)
      reads this
      requires Valid()
      ensures k < |Filters| && Filters[k].id == activeFilter
      ensures forall j :: 0 <= j < |Filters| ==> (DrawnActive(activeFilter, Filters[j].id) <==> j == k)
    {
      OneFilterButtonActive(activeFilter, FilterIndex(activeFilter));
      FilterIndex(activeFilter)
    }
  }
}
