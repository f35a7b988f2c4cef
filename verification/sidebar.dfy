/** The title search of `Sidebar.jsx` over the conversation list the page
    holds. */
module Sidebar {
  import opened Outcome
  import opened Text
  import opened Seqs

  /** A conversation as the sidebar lists it; a title may be missing. */
  datatype ConvItem = ConvItem(id: string, title: Option<string>)

  /** `c.title?.toLowerCase().includes(q)` with `q` already lower-cased. */
  predicate TitleMatches(q: string, c: ConvItem) {
    c.title.Some? && IsSubstring(q, Lower(c.title.value))
  }

  /** `filtered`: the whole list for an empty query, otherwise the items
      whose lower-cased title contains the lower-cased query, in order. */
  function Filtered(convs: seq<ConvItem>, query: string): (r: seq<ConvItem>)
    ensures query == [] ==> r == convs
    ensures IsSubseq(r, convs)
    ensures query != [] ==> forall c :: c in r <==> c in convs && TitleMatches(Lower(query), c)
  {
    if query == [] then
      SubseqRefl(convs);
      convs
    else
      var q := Lower(query);
      FilterIsSubseq(convs, c => TitleMatches(q, c));
      Filter(convs, c => TitleMatches(q, c))
  }

  /** Items without a title never survive a non-empty query. */
  lemma UntitledDropped(convs: seq<ConvItem>, query: string, c: ConvItem)
    requires query != [] && c.title.None?
    ensures c !in Filtered(convs, query)
  {
  }

  /** Searching the result again with the same query changes nothing. */
  lemma FilteredIdempotent(convs: seq<ConvItem>, query: string)
    ensures Filtered(Filtered(convs, query), query) == Filtered(convs, query)
  {
    if query != [] {
      var q := Lower(query);
      FilterIdempotent(convs, c => TitleMatches(q, c));
    }
  }

  /** The search ignores the letter case of the query. */
  lemma FilteredIgnoresQueryCase(convs: seq<ConvItem>, query: string)
    ensures Filtered(convs, Lower(query)) == Filtered(convs, query)
  {
    if query != [] {
      LowerIdempotent(query);
    }
  }
}
