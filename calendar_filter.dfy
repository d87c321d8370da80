/**
 * The calendar filter panel: per-item visibility and colour-picker flags,
 * and a colour for every server, defaulted from its id.
 */
module CalendarFilter {
  import opened Wrappers

  /**
   * A key of the panel's flag objects: an item name, or a server id
   * (`changeServerColor` writes the numeric id as the key).
   */
  datatype Key = Named(name: string) | Server(id: int)

  /** `colorOptions`: the seven colour classes a server can default to. */
  const ColorOptions: seq<string> :=
    ["bg-red-500", "bg-orange-500", "bg-yellow-500", "bg-green-500", "bg-blue-500", "bg-purple-500", "bg-gray-400"]

  /** JavaScript's `%`, whose remainder takes the sign of the dividend. */
  function JsRem(a: int, n: int): (r: int)
    requires n > 0
    ensures a >= 0 ==> r == a % n
    ensures a < 0 ==> r == -((-a) % n)
    ensures -n < r < n
  {
    if a >= 0 then a % n else -((-a) % n)
  }

  /**
   * `colorOptions[server.id % colorOptions.length]`: a negative id whose remainder
   * is not zero indexes the array below 0 and reads `undefined` (here `None`).
   */
  function DefaultColor(id: int): (r: Option<string>)
    ensures r.Some? <==> id >= 0 || (-id) % 7 == 0
    ensures r.Some? ==> r.value in ColorOptions
  {
    var i := JsRem(id, |ColorOptions|);
    if 0 <= i then Some(ColorOptions[i]) else None
  }

  /** A non-negative id gets the colour at its remainder modulo seven. */
  lemma DefaultColorOfNatural(id: int)
    requires id >= 0
    ensures DefaultColor(id) == Some(ColorOptions[id % 7])
  {
  }

  /** Default colours repeat every seven ids. */
  lemma DefaultColorPeriodic(id: int)
    requires id >= 0
    ensures DefaultColor(id + 7) == DefaultColor(id)
  {
    assert (id + 7) % 7 == id % 7;
  }

  /** Among seven consecutive non-negative ids no two share a default colour. */
  lemma DefaultColorsDistinct(a: int, i: int, j: int)
    requires 0 <= a <= i < j < a + 7
    ensures DefaultColor(i) != DefaultColor(j)
  {
  }

  /** The ids listed in a server list. */
  function IdSet(servers: seq<int>): set<int> {
    set k | 0 <= k < |servers| :: servers[k]
  }

  /** The `reduce` in `fetchServers`: one default colour per listed server, nothing else. */
  method DefaultServerColors(servers: seq<int>) returns (acc: map<int, Option<string>>)
    ensures acc.Keys == IdSet(servers)
    ensures forall id :: id in acc ==> acc[id] == DefaultColor(id)
  {
    acc := map[];
    for k := 0 to |servers|
      invariant acc.Keys == set j | 0 <= j < k :: servers[j]
      invariant forall id :: id in acc ==> acc[id] == DefaultColor(id)
    {
      acc := acc[servers[k] := DefaultColor(servers[k])];
    }
  }

  /** A flag read from a flag object: a missing key is `undefined`, which reads as false. */
  function Lookup(m: map<Key, bool>, k: Key): bool {
    if k in m then m[k] else false
  }

  /** `{ ...prev, [item]: !prev[item] }`: flips one flag and keeps the others. */
  function Toggle(m: map<Key, bool>, k: Key): (r: map<Key, bool>)
    ensures r.Keys == m.Keys + {k}
    ensures Lookup(r, k) == !Lookup(m, k)
    ensures forall j :: j != k ==> Lookup(r, j) == Lookup(m, j)
  {
    m[k := !Lookup(m, k)]
  }

  /** Toggling a flag twice restores its reading and every other flag's. */
  lemma ToggleTwice(m: map<Key, bool>, k: Key, j: Key)
    ensures Lookup(Toggle(Toggle(m, k), k), j) == Lookup(m, j)
  {
  }

  /** The panel's state. */
  class Filter {
    var visibleItems: map<Key, bool>
    var popupVisible: map<Key, bool>
    var serverColors: map<int, Option<string>>
    var servers: seq<int>

    constructor()
      ensures visibleItems == map[] && popupVisible == map[] && serverColors == map[] && servers == []
    {
      visibleItems := map[];
      popupVisible := map[];
      serverColors := map[];
      servers := [];
    }

    /**
     * `fetchServers`: on success the list is stored (an absent list as empty) and the
     * colours are rebuilt from the listed ids; an absent list throws in the `reduce`,
     * after the list was stored, so the colours are kept.
     */
    method LoadServers(ok: bool, fetched: Option<seq<int>>)
      modifies this
      ensures !ok ==> servers == old(servers) && serverColors == old(serverColors)
      ensures ok ==> servers == fetched.GetOr([])
      ensures ok && fetched.Some? ==> serverColors.Keys == IdSet(fetched.value)
      ensures ok && fetched.Some? ==> forall id :: id in serverColors ==> serverColors[id] == DefaultColor(id)
      ensures ok && fetched.None? ==> serverColors == old(serverColors)
      ensures visibleItems == old(visibleItems) && popupVisible == old(popupVisible)
    {
      if ok {
        servers := fetched.GetOr([]);
        if fetched.Some? {
          serverColors := DefaultServerColors(fetched.value);
        }
      }
    }

    /** `toggleVisibility`: flips the item's visibility flag. */
    method ToggleVisibility(item: Key)
      modifies this
      ensures visibleItems == Toggle(old(visibleItems), item)
      ensures popupVisible == old(popupVisible) && serverColors == old(serverColors) && servers == old(servers)
    {
      visibleItems := visibleItems[item := !Lookup(visibleItems, item)];
    }

    /** `togglePopup`: flips whether the item's colour picker is open. */
    method TogglePopup(item: Key)
      modifies this
      ensures popupVisible == Toggle(old(popupVisible), item)
      ensures visibleItems == old(visibleItems) && serverColors == old(serverColors) && servers == old(servers)
    {
      popupVisible := popupVisible[item := !Lookup(popupVisible, item)];
    }

    /** `changeServerColor`: sets one server's colour and closes its picker. */
    method ChangeServerColor(serverId: int, color: string)
      modifies this
      ensures serverColors == old(serverColors)[serverId := Some(color)]
      ensures popupVisible == old(popupVisible)[Server(serverId) := false]
      ensures visibleItems == old(visibleItems) && servers == old(servers)
    {
      serverColors := serverColors[serverId := Some(color)];
      popupVisible := popupVisible[Server(serverId) := false];
    }

    /**
     * `changeColor`: hands the item and colour to the parent's callback, when there is
     * one, and toggles the item's picker.
     */
    method ChangeColor(item: Key, color: string, hasCallback: bool) returns (forwarded: Option<(Key, string)>)
      modifies this
      ensures forwarded.Some? <==> hasCallback
      ensures forwarded.Some? ==> forwarded.value == (item, color)
      ensures popupVisible == Toggle(old(popupVisible), item)
      ensures visibleItems == old(visibleItems) && serverColors == old(serverColors) && servers == old(servers)
    {
      forwarded := if hasCallback then Some((item, color)) else None;
      TogglePopup(item);
    }
  }
}
