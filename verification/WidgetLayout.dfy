/** `layout` over the two running engines. */
module WidgetLayout {
  import opened Wrappers
  import opened Grid
  import Arrangement
  import PackRun
  import TileSearch

  method LayoutWidgets(items: seq<Item>, columns: int) returns (ps: seq<Positioned>)
    ensures ps == Arrangement.Layout(items, columns)
  {
    var tiled := TileSearch.Tile(items, columns);
    if tiled.Some? {
      return tiled.value;
    }
    ps := PackRun.Pack(items, columns);
  }
}
