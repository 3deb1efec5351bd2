/** What the protocols assume of a remote service: listings in pages, and lost answers. */
module Remote {
  import opened Collections

  /** What happens to one operation's requests on their way: `AnswerLost` took effect. */
  datatype Weather = Clear | ReadFails | WriteRefused | AnswerLost

  /** How many items the first `pages` pages hold. */
  function Scanned<T>(items: seq<T>, size: nat, pages: nat): nat { Min(pages * size, |items|) }

  /** Page `p`, counted from 1. */
  function Page<T>(items: seq<T>, size: nat, p: nat): seq<T>
    requires p > 0
  {
    items[Min((p - 1) * size, |items|)..Min(p * size, |items|)]
  }
}
