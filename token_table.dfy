/**
 The token table (components/organisms/TokenTable.tsx): five sortable column
 headers, each showing at most one sort arrow, and one row per token.
 */
module TokenTable {
  import opened Types
  import TokenRow

  /** What `SortIcon` renders: nothing, the up arrow or the down arrow. */
  datatype Icon = NoIcon | ArrowUp | ArrowDown

  /**
   A column shows no arrow unless the configuration sorts on it; then the up
   arrow for ascending and the down arrow for descending.
   */
  function SortIcon(cfg: SortConfig, column: SortKey): (r: Icon)
    ensures r == NoIcon <==> cfg.NoSort? || cfg.key != column
    ensures r == ArrowUp <==> cfg.SortBy? && cfg.key == column && cfg.direction == Ascending
    ensures r == ArrowDown <==> cfg.SortBy? && cfg.key == column && cfg.direction == Descending
  {
    if cfg.NoSort? || cfg.key != column then NoIcon
    else match cfg.direction
      case Ascending => ArrowUp
      case Descending => ArrowDown
  }

  /** A column header: its caption and the key its button asks to sort by. */
  datatype Header = Header(caption: string, key: SortKey)

  /** The header row, left to right. */
  const Headers: seq<Header> := [
    Header("Token", NameKey),
    Header("Price", PriceKey),
    Header("24h %", PriceChange24hKey),
    Header("TVL", TvlKey),
    Header("24h Volume", Volume24hKey)
  ]

  /** The sort key requested by clicking the header at `column`. */
  function HeaderKey(column: nat): (k: SortKey)
    requires column < |Headers|
    ensures column == 0 <==> k == NameKey
    ensures column == 1 <==> k == PriceKey
    ensures column == 2 <==> k == PriceChange24hKey
    ensures column == 3 <==> k == TvlKey
    ensures column == 4 <==> k == Volume24hKey
  {
    Headers[column].key
  }

  datatype HeaderView = HeaderView(caption: string, key: SortKey, icon: Icon)

  datatype RowView = RowView(key: string, token: Token, change: TokenRow.ChangeCell)

  datatype TableView = TableView(headers: seq<HeaderView>, rows: seq<RowView>)

  /**
   The header row under a configuration: the fixed captions and keys, and at
   most one column carrying an arrow.
   */
  function HeaderViews(cfg: SortConfig): (r: seq<HeaderView>)
    ensures |r| == |Headers|
    ensures forall i :: 0 <= i < |r| ==> r[i].caption == Headers[i].caption && r[i].key == Headers[i].key
    ensures forall i :: 0 <= i < |r| ==> r[i].icon == SortIcon(cfg, Headers[i].key)
    ensures forall i :: 0 <= i < |r| ==> (r[i].icon != NoIcon <==> cfg.SortBy? && cfg.key == Headers[i].key)
    ensures forall i, j :: 0 <= i < j < |r| ==> r[i].icon == NoIcon || r[j].icon == NoIcon
  {
    seq(|Headers|, i requires 0 <= i < |Headers| => HeaderView(Headers[i].caption, Headers[i].key, SortIcon(cfg, Headers[i].key)))
  }

  /** `tokens.map(token => <TokenRow key={token.id} .../>)`: one row per token, in order. */
  function Rows(tokens: seq<Token>): (r: seq<RowView>)
    ensures |r| == |tokens|
    ensures forall i :: 0 <= i < |r| ==> r[i].token == tokens[i] && r[i].key == tokens[i].id
    ensures forall i :: 0 <= i < |r| ==> (r[i].change == TokenRow.Dash <==> tokens[i].priceChange24h == 0.0)
  {
    seq(|tokens|, i requires 0 <= i < |tokens| => RowView(tokens[i].id, tokens[i], TokenRow.ChangeCellOf(tokens[i])))
  }

  /** The component's output: the header row for `cfg` over one row per token, in order. */
  function Render(tokens: seq<Token>, cfg: SortConfig): (r: TableView)
    ensures r.headers == HeaderViews(cfg)
    ensures |r.rows| == |tokens| && forall i :: 0 <= i < |tokens| ==> r.rows[i].token == tokens[i]
  {
    TableView(HeaderViews(cfg), Rows(tokens))
  }
}
