/** The remote catalogue as the script sees it through
    `fetch_data_with_retry` (GrandExchangeScript.py:10-27): every request
    either yields a decoded payload or, after the retries are spent, nothing. */
module Api {
  import opened Wrappers
  import opened Json

  /** The two kinds of URL the script requests: a listing page for a
      category and first letter, and the detail record of one item id. */
  datatype Request =
    | Listing(category: int, letter: char, page: int)
    | Detail(id: Json)

  /** The fetch helper as a fixed oracle: `None` is its `return None`. */
  type Oracle = Request -> Option<Json>
}
