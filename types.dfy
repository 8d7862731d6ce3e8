/**
 The records of the token-discovery table (lib/types.ts): a token, the three
 listing categories, and the optional single-key sort configuration.
 */
module Types {

  /** An optional value; `None` stands for JavaScript's `undefined`/`null`. */
  datatype Option<T> = None | Some(value: T)

  /** The enumerated category ids "new", "stretch" and "migrated". */
  datatype Category = New | Stretch | Migrated

  /** The string a category id is spelled as; sorting on `category` compares these. */
  function CategoryId(c: Category): string
  {
    match c
    case New => "new"
    case Stretch => "stretch"
    case Migrated => "migrated"
  }

  /** A token record. Numeric fields are modelled as exact reals. */
  datatype Token = Token(
    id: string,
    name: string,
    slug: string,
    logo: string,
    price: real,
    priceChange24h: real,
    tvl: real,
    volume24h: real,
    category: Category)

  /** `keyof Token`: every field of a token can be named as a sort key. */
  datatype SortKey =
    | IdKey | NameKey | SlugKey | LogoKey
    | PriceKey | PriceChange24hKey | TvlKey | Volume24hKey
    | CategoryKey

  datatype Direction = Ascending | Descending

  /** `SortConfig`: either null or a (key, direction) pair. */
  datatype SortConfig = NoSort | SortBy(key: SortKey, direction: Direction)
}
