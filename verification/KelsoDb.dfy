/** What kelso's own store holds (kelso/lib/store.py). */
module KelsoDb {
  import opened Wrappers

  /** A secret, a token with its expiry, a route's host port, or any other value. */
  datatype KelsoValue =
    | Secret(blob: string)
    | Token(tok: string, exp: int)
    | Route(hostPort: int)
    | Plain(json: string)
  {
    /** The encrypted text a value holds. */
    function Sealed(): Option<string> {
      match this
      case Secret(b) => Some(b)
      case Token(t, _) => Some(t)
      case Route(_) => None
      case Plain(_) => None
    }

    function With(text: string): KelsoValue {
      match this
      case Secret(_) => Secret(text)
      case Token(_, exp) => Token(text, exp)
      case Route(p) => Route(p)
      case Plain(j) => Plain(j)
    }
  }
}
