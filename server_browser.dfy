/**
 * The server list of `arcgame/ui/server_browser.py`: the search and
 * game-type filters, the sort by ping and fullness, and the selection moved
 * by keys and clicks. Querying the master server and pinging are not
 * modelled: the servers they would produce are given.
 */
module ServerBrowser {
  import opened Wrappers
  import opened Text
  import opened Sorting
  import opened ListView

  /** A server entry (`ServerInfo`), without its update time. */
  datatype ServerInfo = ServerInfo(
    address: string, port: int, name: string, gameType: string, mapName: string,
    players: int, maxPlayers: int, ping: int)

  /** `get_player_ratio`: 0 for a server without slots, otherwise the share of slots in use. */
  function PlayerRatio(s: ServerInfo): (r: real)
    ensures s.maxPlayers == 0 ==> r == 0.0
    ensures s.maxPlayers != 0 ==> r * s.maxPlayers as real == s.players as real
  {
    if s.maxPlayers == 0 then 0.0 else s.players as real / s.maxPlayers as real
  }

  /**
   * Among servers of the same ping and the same number of slots, the one
   * with more players sorts first: the key negates the ratio, so the fuller
   * server comes first (the comment beside the sort says the opposite).
   */
  lemma FullerFirst(a: ServerInfo, b: ServerInfo)
    requires a.ping == b.ping && 0 < a.maxPlayers == b.maxPlayers && a.players <= b.players
    ensures KeyLe(b, a)
  {
    assert PlayerRatio(a) * a.maxPlayers as real <= PlayerRatio(b) * b.maxPlayers as real;
  }

  /** `"address:port"`, the answer of a selection. */
  function Endpoint(s: ServerInfo): string
  {
    s.address + ":" + IntToString(s.port)
  }

  /** A key press: the named keys, F5 with the servers its refresh finds, or a typed text with whether it is printable. */
  datatype Key = Up | Down | PageUp | PageDown | Return | Refresh(found: seq<ServerInfo>) | Backspace | Escape
    | Typed(text: string, printable: bool)

  /** The search filter: an empty search keeps every server, otherwise it occurs, ignoring case, in the name or the map. */
  predicate MatchesSearch(s: ServerInfo, search: string)
  {
    search == "" || Contains(Lower(s.name), Lower(search)) || Contains(Lower(s.mapName), Lower(search))
  }

  /** The game-type filter: skipped only for exactly "all", otherwise equal game types ignoring case. */
  predicate MatchesType(s: ServerInfo, gametype: string)
  {
    gametype == "all" || Lower(s.gameType) == Lower(gametype)
  }

  /** The servers `_apply_filters` keeps, in list order. */
  function Select(servers: seq<ServerInfo>, search: string, gametype: string): (r: seq<ServerInfo>)
    ensures forall s :: s in r ==> MatchesSearch(s, search) && MatchesType(s, gametype)
    ensures forall s :: multiset(r)[s] == if MatchesSearch(s, search) && MatchesType(s, gametype) then multiset(servers)[s] else 0
  {
    Keep(servers, s => MatchesSearch(s, search) && MatchesType(s, gametype))
  }

  /** The order of the sort key `(ping, -player_ratio)`: lower ping first, then fuller servers first. */
  predicate KeyLe(a: ServerInfo, b: ServerInfo)
  {
    a.ping < b.ping || (a.ping == b.ping && -PlayerRatio(a) <= -PlayerRatio(b))
  }

  /** The key order is total and transitive. */
  lemma KeyLeTotalPreorder()
    ensures TotalPreorder(KeyLe)
  {
  }

  /** DOWN and PAGEDOWN as written: `min(len - 1, index + step)`, which is -1 on an empty list. */
  function MoveDown(index: int, len: nat, step: nat): (r: int)
    ensures r <= len - 1 && r <= index + step
    ensures r == len - 1 || r == index + step
  {
    Min(len - 1, index + step)
  }

  /** UP and PAGEUP: `max(0, index - step)`. */
  function MoveUp(index: int, step: nat): (r: int)
    ensures r >= 0 && r >= index - step
    ensures r == 0 || r == index - step
  {
    Max(0, index - step)
  }

  /**
   * RETURN: nothing on an empty list; otherwise the endpoint of
   * `filtered[index]` with Python's indexing, which raises (an error here)
   * for an index past the end.
   */
  function Join(filtered: seq<ServerInfo>, index: int): (r: Result<Option<string>, string>)
    ensures filtered == [] ==> r == Ok(None)
    ensures filtered != [] && 0 <= index < |filtered| ==> r == Ok(Some(Endpoint(filtered[index])))
    ensures filtered != [] && -|filtered| <= index < 0 ==> r == Ok(Some(Endpoint(filtered[|filtered| + index])))
    ensures r.Err? <==> filtered != [] && (index >= |filtered| || index < -|filtered|)
  {
    if filtered == [] then Ok(None)
    else match PyIndex(filtered, index)
      case Some(s) => Ok(Some(Endpoint(s)))
      case None => Err("IndexError: list index out of range")
  }

  /**
   * DOWN on an empty list leaves the index at -1; once a refresh brings
   * servers, RETURN joins the LAST one although none was chosen.
   */
  lemma DownOnEmptyThenJoin(found: seq<ServerInfo>)
    requires found != []
    ensures MoveDown(0, 0, 1) == -1
    ensures Join(found, MoveDown(0, 0, 1)) == Ok(Some(Endpoint(found[|found| - 1])))
  {
  }

  /**
   * The filter never lowers the index: after a search narrows the list to
   * fewer entries than the index, RETURN raises.
   */
  lemma StaleIndexRaises(filtered: seq<ServerInfo>, index: int)
    requires filtered != [] && index >= |filtered|
    ensures Join(filtered, index).Err?
  {
  }

  /** The server browser's state. */
  class Browser {
    const screenWidth: int
    var servers: seq<ServerInfo>
    var filtered: seq<ServerInfo>
    var selected: int
    var searchText: string
    var filterGametype: string

    /** An empty browser: no servers, no search, game type "all". */
    constructor (screenWidth: int)
      ensures this.screenWidth == screenWidth && servers == [] && filtered == []
      ensures selected == 0 && searchText == "" && filterGametype == "all"
    {
      this.screenWidth := screenWidth;
      servers := [];
      filtered := [];
      selected := 0;
      searchText := "";
      filterGametype := "all";
    }

    /**
     * `_apply_filters`: exactly the servers passing both filters, sorted
     * by ping and then fullness; the selection is left as it is.
     */
    method ApplyFilters()
      modifies this
      ensures servers == old(servers) && searchText == old(searchText) && filterGametype == old(filterGametype)
      ensures selected == old(selected)
      ensures SortedBy(filtered, KeyLe)
      ensures multiset(filtered) == multiset(Select(servers, searchText, filterGametype))
    {
      var list := Select(servers, searchText, filterGametype);
      KeyLeTotalPreorder();
      filtered := SortBy(list, KeyLe);
    }

    /** `refresh_servers` with the servers the master server and the pings produced: appended, then filtered again. */
    method RefreshServers(found: seq<ServerInfo>)
      modifies this
      ensures servers == old(servers) + found
      ensures searchText == old(searchText) && filterGametype == old(filterGametype) && selected == old(selected)
      ensures SortedBy(filtered, KeyLe) && multiset(filtered) == multiset(Select(servers, searchText, filterGametype))
    {
      servers := servers + found;
      ApplyFilters();
    }

    /** `set_search_text`: store the search and filter again. */
    method SetSearchText(text: string)
      modifies this
      ensures searchText == text && filterGametype == old(filterGametype) && servers == old(servers) && selected == old(selected)
      ensures SortedBy(filtered, KeyLe) && multiset(filtered) == multiset(Select(servers, text, filterGametype))
    {
      searchText := text;
      ApplyFilters();
    }

    /** `set_gametype_filter`: store the filter and filter again. */
    method SetGametypeFilter(gametype: string)
      modifies this
      ensures filterGametype == gametype && searchText == old(searchText) && servers == old(servers) && selected == old(selected)
      ensures SortedBy(filtered, KeyLe) && multiset(filtered) == multiset(Select(servers, searchText, gametype))
    {
      filterGametype := gametype;
      ApplyFilters();
    }

    /**
     * `handle_input` for a key press: the selection moves by 1 or 10,
     * RETURN answers the selected endpoint (or raises), F5 refreshes,
     * BACKSPACE and printable text edit the search and filter again.
     */
    method HandleKey(key: Key) returns (r: Result<Option<string>, string>)
      modifies this
      ensures filterGametype == old(filterGametype)
      ensures key == Return ==> r == Join(old(filtered), old(selected))
      ensures key != Return ==> r == Ok(None)
      ensures key == Up ==> selected == MoveUp(old(selected), 1)
      ensures key == Down ==> selected == MoveDown(old(selected), |old(filtered)|, 1)
      ensures key == PageUp ==> selected == MoveUp(old(selected), 10)
      ensures key == PageDown ==> selected == MoveDown(old(selected), |old(filtered)|, 10)
      ensures !(key.Up? || key.Down? || key.PageUp? || key.PageDown?) ==> selected == old(selected)
      ensures key.Refresh? ==> servers == old(servers) + key.found
      ensures !key.Refresh? ==> servers == old(servers)
      ensures key == Backspace ==> searchText == if old(searchText) == "" then "" else old(searchText)[..|old(searchText)| - 1]
      ensures key.Typed? && key.printable ==> searchText == old(searchText) + key.text
      ensures key.Refresh? || key.Backspace? || (key.Typed? && key.printable) ==>
        SortedBy(filtered, KeyLe) && multiset(filtered) == multiset(Select(servers, searchText, filterGametype))
      ensures !(key.Refresh? || key.Backspace? || (key.Typed? && key.printable)) ==> filtered == old(filtered)
      ensures !(key.Backspace? || (key.Typed? && key.printable)) ==> searchText == old(searchText)
    {
      r := Ok(None);
      match key
      case Up => selected := MoveUp(selected, 1);
      case Down => selected := MoveDown(selected, |filtered|, 1);
      case PageUp => selected := MoveUp(selected, 10);
      case PageDown => selected := MoveDown(selected, |filtered|, 10);
      case Return => r := Join(filtered, selected);
      case Refresh(found) => RefreshServers(found);
      case Backspace =>
        searchText := if searchText == "" then "" else searchText[..|searchText| - 1];
        ApplyFilters();
      case Escape =>
      case Typed(text, printable) =>
        if printable {
          searchText := searchText + text;
          ApplyFilters();
        }
    }

    /**
     * `handle_mouse_click`: among the (at most 15) rows of the page holding
     * the selection, the one under the point is selected and its endpoint
     * answered as RETURN would. A page start below 0 (from a selection of
     * -1) reaches the end of the list through Python's negative indexing,
     * or raises when it is further below 0 than the list is long.
     */
    method HandleMouseClick(x: int, y: int) returns (r: Result<Option<string>, string>)
      modifies this
      ensures servers == old(servers) && filtered == old(filtered) && searchText == old(searchText)
      ensures r == Ok(None) ==> selected == old(selected)
      ensures r != Ok(None) ==> filtered != [] && r == Join(filtered, selected)
      ensures r != Ok(None) ==> filtered != [] && var page := PageStart(old(selected), Min(15, |filtered|));
        page <= selected < page + Min(15, |filtered|) && selected < |filtered|
        && InRect(x, y, 20, 120 + (selected - page) * 30, screenWidth - 40, 30)
      ensures r == Ok(None) && filtered != [] ==> var page := PageStart(old(selected), Min(15, |filtered|));
        forall k :: 0 <= k < Min(15, |filtered|) && page + k < |filtered| ==> !InRect(x, y, 20, 120 + k * 30, screenWidth - 40, 30)
    {
      var visible := Min(15, |filtered|);
      var k := 0;
      while k < visible
        invariant 0 <= k <= visible
        invariant forall j :: 0 <= j < k ==> !InRect(x, y, 20, 120 + j * 30, screenWidth - 40, 30)
      {
        var index := PageStart(selected, visible) + k;
        if index >= |filtered| {
          return Ok(None);
        }
        if InRect(x, y, 20, 120 + k * 30, screenWidth - 40, 30) {
          selected := index;
          return Join(filtered, index);
        }
        k := k + 1;
      }
      return Ok(None);
    }
  }
}
