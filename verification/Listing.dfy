/** What a backend lists. */
module Listing {
  import opened Basics
  import opened Json

  /** One listed tool, prompt or resource: the identifying field (`name` or `uri`)
      and everything else. */
  datatype Item = Item(name: string, details: Json)

  /** The `ttlMs` directive of a list result. */
  datatype Ttl = Absent | Milliseconds(ms: real) | NotANumber

  /** A backend's answer to a list request: its items, the cursor of its next page
      if that is a string, and its cache directives. A response without a `result`
      counts as an empty answer. */
  datatype ListResult = ListResult(items: seq<Item>, nextCursor: Option<string>, ttl: Ttl, scope: Option<string>)
}
