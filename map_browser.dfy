/**
 * The map list of `arcgame/map/map_browser.py`: the search and game-type
 * filters, the sort by source directory and name, and the selection moved
 * by keys and clicks. Scanning the map directories is not modelled: the
 * list of maps is given.
 */
module MapBrowser {
  import opened Wrappers
  import opened Text
  import opened Sorting
  import opened ListView

  /** The fields of a map entry the browser reads. */
  datatype MapInfo = MapInfo(name: string, author: string, gametype: string, path: string)

  /** A key press: the named keys, or a typed text with whether `str.isprintable` holds for it. */
  datatype Key = Up | Down | PageUp | PageDown | Return | Backspace | Escape | Typed(text: string, printable: bool)

  /** The search filter: an empty search keeps every map, otherwise the lower-cased search occurs in the lower-cased name or author. */
  predicate MatchesSearch(m: MapInfo, search: string)
  {
    search == "" || Contains(Lower(m.name), Lower(search)) || Contains(Lower(m.author), Lower(search))
  }

  /** The game-type filter: skipped when empty or "all" (in any case), otherwise equal game types ignoring case. */
  predicate MatchesType(m: MapInfo, gametype: string)
  {
    gametype == "" || Lower(gametype) == "all" || Lower(m.gametype) == Lower(gametype)
  }

  /** The two list comprehensions of `_apply_filters`, in the order of the list. */
  function Select(maps: seq<MapInfo>, search: string, gametype: string): (r: seq<MapInfo>)
    ensures forall m :: m in r ==> MatchesSearch(m, search) && MatchesType(m, gametype)
    ensures forall m :: multiset(r)[m] == if MatchesSearch(m, search) && MatchesType(m, gametype) then multiset(maps)[m] else 0
  {
    Keep(maps, m => MatchesSearch(m, search) && MatchesType(m, gametype))
  }

  const OfficialDir := "arcgame/data/maps/official/"
  const CommunityDir := "arcgame/data/maps/community/"
  const DownloadedDir := "arcgame/data/maps/downloaded/"

  /** The first part of the sort key: official maps 0, community 1, downloaded 2, anything else 3. */
  function SourceRank(path: string): (r: nat)
    ensures r <= 3
    ensures r == 0 <==> StartsWith(path, OfficialDir)
    ensures r == 3 <==> !StartsWith(path, OfficialDir) && !StartsWith(path, CommunityDir) && !StartsWith(path, DownloadedDir)
  {
    if StartsWith(path, OfficialDir) then 0
    else if StartsWith(path, CommunityDir) then 1
    else if StartsWith(path, DownloadedDir) then 2
    else 3
  }

  /** The order of the sort key `(source rank, lower-cased name)`. */
  predicate KeyLe(a: MapInfo, b: MapInfo)
  {
    SourceRank(a.path) < SourceRank(b.path)
    || (SourceRank(a.path) == SourceRank(b.path) && LexLe(Lower(a.name), Lower(b.name)))
  }

  /** The key order is total and transitive, so the sort is well defined. */
  lemma KeyLeTotalPreorder()
    ensures TotalPreorder(KeyLe)
  {
    forall a, b ensures KeyLe(a, b) || KeyLe(b, a) {
      LexTotal(Lower(a.name), Lower(b.name));
    }
    forall a, b, c | KeyLe(a, b) && KeyLe(b, c) ensures KeyLe(a, c) {
      if SourceRank(a.path) == SourceRank(b.path) == SourceRank(c.path) {
        LexTrans(Lower(a.name), Lower(b.name), Lower(c.name));
      }
    }
  }

  /**
   * The selection after DOWN as the source writes it, `min(len - 1, index + 1)`:
   * on an empty list it is -1.
   */
  function DownAsWritten(index: int, len: nat): int
  {
    Min(len - 1, index + 1)
  }

  /**
   * As written, DOWN on an empty list leaves the selection at -1; the filter
   * keeps it there when maps appear again (it only lowers an index past the
   * end), and RETURN then opens the LAST map while nothing is shown selected.
   */
  lemma DownOnEmptyAsWritten(a: MapInfo, b: MapInfo)
    ensures DownAsWritten(0, 0) == -1
    ensures var index := DownAsWritten(0, 0);
      !(index >= |[a, b]|) && PyIndex([a, b], index) == Some(b) && !(0 <= index < |[a, b]|)
  {
  }

  /** The selection after moving down by `step` (1 or 10), kept at 0 or above even on an empty list. */
  function MoveDown(index: int, len: nat, step: nat): (r: int)
    ensures 0 <= index <= Max(0, len - 1) ==> 0 <= r <= Max(0, len - 1)
    ensures len > 0 && 0 <= index < len ==> r == Min(len - 1, index + step)
    ensures len == 0 ==> r == 0
  {
    Max(0, Min(len - 1, index + step))
  }

  /** The selection after moving up by `step`: never below 0. */
  function MoveUp(index: int, step: nat): (r: int)
    ensures 0 <= r && (index - step >= 0 ==> r == index - step) && (index - step < 0 ==> r == 0)
  {
    Max(0, index - step)
  }

  /** The game-type filter buttons, left to right. */
  const FilterOptions: seq<string> := ["All", "DM", "CTF", "Race", "DDRace"]

  /** The map browser's state. */
  class Browser {
    const screenWidth: int
    var mapList: seq<MapInfo>
    var filtered: seq<MapInfo>
    var selected: int
    var searchText: string
    var filterGametype: string

    /** The selection is a position of the filtered list, or 0 when the list is empty. */
    ghost predicate Valid()
      reads this
    {
      0 <= selected <= Max(0, |filtered| - 1)
    }

    /** A browser over `maps`, with no search and no game-type filter, filtered once. */
    constructor (screenWidth: int, maps: seq<MapInfo>)
      ensures Valid() && this.screenWidth == screenWidth && mapList == maps
      ensures searchText == "" && filterGametype == ""
      ensures SortedBy(filtered, KeyLe) && multiset(filtered) == multiset(maps)
    {
      this.screenWidth := screenWidth;
      mapList := maps;
      filtered := [];
      selected := 0;
      searchText := "";
      filterGametype := "";
      new;
      ApplyFilters();
      assert forall m :: multiset(filtered)[m] == multiset(maps)[m];
    }

    /**
     * `_apply_filters`: the filtered list holds exactly the maps that pass
     * both filters, sorted by source and name; a selection past its end
     * moves to its last entry (or 0).
     */
    method ApplyFilters()
      modifies this
      ensures mapList == old(mapList) && searchText == old(searchText) && filterGametype == old(filterGametype)
      ensures SortedBy(filtered, KeyLe)
      ensures multiset(filtered) == multiset(Select(mapList, searchText, filterGametype))
      ensures selected == if old(selected) >= |filtered| then Max(0, |filtered| - 1) else old(selected)
      ensures old(selected) >= 0 ==> Valid()
    {
      var list := Select(mapList, searchText, filterGametype);
      KeyLeTotalPreorder();
      filtered := SortBy(list, KeyLe);
      if selected >= |filtered| {
        selected := Max(0, |filtered| - 1);
      }
    }

    /**
     * `handle_input` for a key press: UP/DOWN move the selection by 1,
     * PAGEUP/PAGEDOWN by 10, RETURN on a non-empty list answers the
     * selected map's name, BACKSPACE drops the last search character and
     * ESCAPE cancels; printable text extends the search. Editing the search
     * filters again.
     */
    method HandleKey(key: Key) returns (r: Option<string>)
      requires Valid()
      modifies this
      ensures Valid() && mapList == old(mapList) && filterGametype == old(filterGametype)
      ensures r.Some? <==> key == Return && old(filtered) != []
      ensures r.Some? ==> r.value == old(filtered)[old(selected)].name
      ensures key == Up ==> selected == MoveUp(old(selected), 1) && filtered == old(filtered)
      ensures key == Down ==> selected == MoveDown(old(selected), |filtered|, 1) && filtered == old(filtered)
      ensures key == PageUp ==> selected == MoveUp(old(selected), 10) && filtered == old(filtered)
      ensures key == PageDown ==> selected == MoveDown(old(selected), |filtered|, 10) && filtered == old(filtered)
      ensures key == Backspace ==> searchText == if old(searchText) == "" then "" else old(searchText)[..|old(searchText)| - 1]
      ensures key.Typed? && key.printable ==> searchText == old(searchText) + key.text
      ensures key.Backspace? || (key.Typed? && key.printable) ==>
        SortedBy(filtered, KeyLe) && multiset(filtered) == multiset(Select(mapList, searchText, filterGametype))
      ensures !(key.Backspace? || (key.Typed? && key.printable)) ==>
        searchText == old(searchText) && filtered == old(filtered)
      ensures key == Return || key == Escape || (key.Typed? && !key.printable) ==> selected == old(selected)
    {
      r := None;
      match key
      case Up => selected := MoveUp(selected, 1);
      case Down => selected := MoveDown(selected, |filtered|, 1);
      case PageUp => selected := MoveUp(selected, 10);
      case PageDown => selected := MoveDown(selected, |filtered|, 10);
      case Return =>
        if filtered != [] {
          r := Some(filtered[selected].name);
        }
      case Backspace =>
        searchText := if searchText == "" then "" else searchText[..|searchText| - 1];
        ApplyFilters();
      case Escape =>
      case Typed(text, printable) =>
        if printable {
          searchText := searchText + text;
          ApplyFilters();
        }
    }

    /** `set_filter_gametype`: store the filter and filter again. */
    method SetFilterGametype(gametype: string)
      requires Valid()
      modifies this
      ensures Valid() && filterGametype == gametype && searchText == old(searchText) && mapList == old(mapList)
      ensures SortedBy(filtered, KeyLe) && multiset(filtered) == multiset(Select(mapList, searchText, gametype))
    {
      filterGametype := gametype;
      ApplyFilters();
    }

    /** `set_search_text`: store the search and filter again. */
    method SetSearchText(text: string)
      requires Valid()
      modifies this
      ensures Valid() && searchText == text && filterGametype == old(filterGametype) && mapList == old(mapList)
      ensures SortedBy(filtered, KeyLe) && multiset(filtered) == multiset(Select(mapList, text, filterGametype))
    {
      searchText := text;
      ApplyFilters();
    }

    /** `get_selected_map`: the selected entry, or none when the selection is outside the list. */
    function GetSelectedMap(): (r: Option<MapInfo>)
      reads this
      ensures r.Some? <==> 0 <= selected < |filtered|
      ensures r.Some? ==> r.value == filtered[selected] && r.value in filtered
    {
      if 0 <= selected < |filtered| then Some(filtered[selected]) else None
    }

    /**
     * `handle_mouse_click` at `(x, y)`: a click on a filter button sets that
     * game type ("All" clears it); a click on one of the (at most 15) rows
     * of the page holding the selection selects that map and answers its
     * name.
     */
    method HandleMouseClick(x: int, y: int) returns (r: Option<string>)
      requires Valid()
      modifies this
      ensures Valid() && mapList == old(mapList) && searchText == old(searchText)
      ensures forall i :: (0 <= i < |FilterOptions| && InRect(x, y, 520 + i * 80, 70, 70, 30)
        && (forall j :: 0 <= j < i ==> !InRect(x, y, 520 + j * 80, 70, 70, 30))) ==>
          r == None && filterGametype == (if FilterOptions[i] == "All" then "" else FilterOptions[i])
      ensures r.Some? ==> (0 <= selected < |filtered| && r.value == filtered[selected].name
        && filtered == old(filtered) && filterGametype == old(filterGametype))
      ensures r.Some? ==> var page := PageStart(old(selected), Min(15, |filtered|));
        page <= selected < page + Min(15, |filtered|)
        && InRect(x, y, 20, 120 + (selected - page) * 30, screenWidth - 40, 30)
      ensures (forall i :: 0 <= i < |FilterOptions| ==> !InRect(x, y, 520 + i * 80, 70, 70, 30)) ==>
        filtered == old(filtered) && filterGametype == old(filterGametype) &&
        (filtered != [] ==> var page := PageStart(old(selected), Min(15, |filtered|));
          forall k :: 0 <= k < Min(15, |filtered|) && page + k < |filtered| && InRect(x, y, 20, 120 + k * 30, screenWidth - 40, 30) ==>
            selected == page + k && r == Some(filtered[page + k].name))
      ensures ((forall i :: 0 <= i < |FilterOptions| ==> !InRect(x, y, 520 + i * 80, 70, 70, 30)) &&
          (old(filtered) != [] ==> var page := PageStart(old(selected), Min(15, |old(filtered)|));
            forall k :: 0 <= k < Min(15, |old(filtered)|) && page + k < |old(filtered)| ==> !InRect(x, y, 20, 120 + k * 30, screenWidth - 40, 30)))
        ==> r == None && selected == old(selected) && filtered == old(filtered) && filterGametype == old(filterGametype)
    {
      var button := FilterButtonAt(x, y);
      if button.Some? {
        var option := FilterOptions[button.value];
        SetFilterGametype(if option == "All" then "" else option);
        return None;
      }
      var row := RowAt(x, y);
      if row.Some? {
        selected := row.value;
        return Some(filtered[row.value].name);
      }
      return None;
    }

    /** The first filter button, `Rect(520 + i * 80, 70, 70, 30)`, under the point, if any. */
    method FilterButtonAt(x: int, y: int) returns (b: Option<nat>)
      ensures b.Some? ==> b.value < |FilterOptions| && InRect(x, y, 520 + b.value * 80, 70, 70, 30)
      ensures forall j :: 0 <= j < |FilterOptions| && (b.None? || j < b.value) ==> !InRect(x, y, 520 + j * 80, 70, 70, 30)
    {
      var i := 0;
      while i < |FilterOptions|
        invariant 0 <= i <= |FilterOptions|
        invariant forall j :: 0 <= j < i ==> !InRect(x, y, 520 + j * 80, 70, 70, 30)
      {
        if InRect(x, y, 520 + i * 80, 70, 70, 30) {
          return Some(i);
        }
        i := i + 1;
      }
      return None;
    }

    /**
     * The list position of the row under the point, among the (at most 15)
     * rows `Rect(20, 120 + k * 30, screenWidth - 40, 30)` of the page
     * holding the selection, if any.
     */
    method RowAt(x: int, y: int) returns (row: Option<nat>)
      requires Valid()
      ensures row.Some? ==> filtered != [] && var page := PageStart(selected, Min(15, |filtered|));
        page <= row.value < page + Min(15, |filtered|) && row.value < |filtered|
        && InRect(x, y, 20, 120 + (row.value - page) * 30, screenWidth - 40, 30)
      ensures row.None? && filtered != [] ==> var page := PageStart(selected, Min(15, |filtered|));
        forall k :: 0 <= k < Min(15, |filtered|) && page + k < |filtered| ==> !InRect(x, y, 20, 120 + k * 30, screenWidth - 40, 30)
      ensures filtered != [] ==> var page := PageStart(selected, Min(15, |filtered|));
        forall k :: 0 <= k < Min(15, |filtered|) && page + k < |filtered| && InRect(x, y, 20, 120 + k * 30, screenWidth - 40, 30) ==>
          row == Some(page + k)
    {
      var visible := Min(15, |filtered|);
      var k := 0;
      while k < visible
        invariant 0 <= k <= visible
        invariant forall j :: 0 <= j < k ==> !InRect(x, y, 20, 120 + j * 30, screenWidth - 40, 30)
      {
        var index := PageStart(selected, visible) + k;
        if index >= |filtered| {
          return None;
        }
        if InRect(x, y, 20, 120 + k * 30, screenWidth - 40, 30) {
          return Some(index);
        }
        k := k + 1;
      }
      return None;
    }
  }
}
