/**
 * The search engine (src/searcher.rs): a mutable query and the catalogue
 * filter it drives.
 */
module Search {
  import opened Strings
  import opened Seqs
  import opened Catalog

  /** The test `item.host.contains(query)`. */
  function HostContains(query: string): SshItem -> bool {
    (item: SshItem) => Contains(item.host, query)
  }

  /**
   * `get_filtered_hosts`: the whole catalogue for an empty query, otherwise
   * the items whose host contains the query, in catalogue order.
   */
  function FilteredHosts(query: string, store: seq<SshItem>): (r: seq<SshItem>)
    ensures query == "" ==> r == store
    ensures |r| <= |store|
    ensures forall k :: 0 <= k < |r| ==> Contains(r[k].host, query)
  {
    if query == "" then store else Filter(HostContains(query), store)
  }

  /**
   * The empty-query shortcut agrees with the general filter, so for every
   * query the result is the contains-filter of the catalogue.
   */
  lemma FilteredHostsIsFilter(query: string, store: seq<SshItem>)
    ensures FilteredHosts(query, store) == Filter(HostContains(query), store)
  {
    if query == "" {
      forall k | 0 <= k < |store| ensures HostContains(query)(store[k]) {
        ContainsEmpty(store[k].host);
      }
      FilterAllKept(HostContains(query), store);
    }
  }

  /**
   * The result is the order-preserving subsequence of the catalogue at
   * exactly the positions whose host contains the query.
   */
  lemma FilteredHostsExact(query: string, store: seq<SshItem>)
    ensures exists idx: seq<nat> ::
      && At(idx, store, FilteredHosts(query, store))
      && (forall i :: 0 <= i < |store| ==> (Contains(store[i].host, query) <==> i in idx))
  {
    FilteredHostsIsFilter(query, store);
    FilterIsSubsequence(HostContains(query), store);
  }

  /** An item appears in the result exactly as often as in the catalogue, if it matches. */
  lemma FilteredHostsCount(query: string, store: seq<SshItem>, item: SshItem)
    ensures multiset(FilteredHosts(query, store))[item]
         == if Contains(item.host, query) then multiset(store)[item] else 0
  {
    FilteredHostsIsFilter(query, store);
    FilterCount(HostContains(query), store, item);
  }

  /** Filtering the filtered list again with the same query changes nothing. */
  lemma FilteredHostsIdempotent(query: string, store: seq<SshItem>)
    ensures FilteredHosts(query, FilteredHosts(query, store)) == FilteredHosts(query, store)
  {
    FilteredHostsIsFilter(query, store);
    FilteredHostsIsFilter(query, FilteredHosts(query, store));
    FilterIdempotent(HostContains(query), store);
  }

  /** The search engine: the query the user is typing. */
  class Searcher {
    var searchString: string

    /** `Searcher::new`: starts with the given query. */
    constructor (search: string)
      ensures searchString == search
    {
      searchString := search;
    }

    /** `get_filtered_hosts`: depends on nothing but the query and the catalogue. */
    function GetFilteredHosts(store: seq<SshItem>): (r: seq<SshItem>)
      reads this
      ensures searchString == "" ==> r == store
      ensures |r| <= |store| && forall k :: 0 <= k < |r| ==> Contains(r[k].host, searchString)
    {
      FilteredHosts(searchString, store)
    }

    /** `add_char`: appends one character to the query. */
    method AddChar(c: char)
      modifies this
      ensures searchString == old(searchString) + [c]
    {
      searchString := searchString + [c];
    }

    /** `del_char`: removes the last character of the query, if any. */
    method DelChar()
      modifies this
      ensures searchString == Pop(old(searchString))
    {
      searchString := Pop(searchString);
    }
  }
}
