/**
 * The jump-chain completer (src/completer.rs): a comma-separated chain that
 * the user edits by typing and extends by cycling through the catalogue
 * hosts that start with the last, unfinished segment.
 */
module Completion {
  import opened Wrappers
  import opened Strings
  import opened Seqs
  import opened Catalog

  /** The test `h.host.starts_with(s)`. */
  function HostStartsWith(s: string): SshItem -> bool {
    (item: SshItem) => IsPrefix(s, item.host)
  }

  /** The test `h.starts_with(s)` on a bare host name. */
  function NameStartsWith(s: string): string -> bool {
    (h: string) => IsPrefix(s, h)
  }

  /** `get_filtered_jumpers`: the host names with prefix `s`, in catalogue order. */
  function FilteredJumpers(store: seq<SshItem>, s: string): (r: seq<string>)
    ensures |r| <= |store|
    ensures forall k :: 0 <= k < |r| ==> IsPrefix(s, r[k])
  {
    var r := Hosts(Filter(HostStartsWith(s), store));
    assert forall k :: 0 <= k < |r| ==> HostStartsWith(s)(Filter(HostStartsWith(s), store)[k]);
    r
  }

  /** Filtering the items and taking their names is taking the names and filtering them. */
  lemma {:induction false} FilteredJumpersByName(store: seq<SshItem>, s: string)
    ensures FilteredJumpers(store, s) == Filter(NameStartsWith(s), Hosts(store))
  {
    if store != [] {
      FilteredJumpersByName(store[1..], s);
      assert Hosts(store)[1..] == Hosts(store[1..]);
      var head := if IsPrefix(s, store[0].host) then [store[0]] else [];
      assert Hosts(head + Filter(HostStartsWith(s), store[1..]))
          == Hosts(head) + Hosts(Filter(HostStartsWith(s), store[1..]));
    }
  }

  /**
   * The candidates are exactly the catalogue's host names that start with
   * `s`, taken in catalogue order.
   */
  lemma FilteredJumpersExact(store: seq<SshItem>, s: string)
    ensures exists idx: seq<nat> ::
      && At(idx, Hosts(store), FilteredJumpers(store, s))
      && (forall i :: 0 <= i < |store| ==> (IsPrefix(s, store[i].host) <==> i in idx))
  {
    FilteredJumpersByName(store, s);
    FilterIsSubsequence(NameStartsWith(s), Hosts(store));
  }

  /** There is no candidate exactly when no catalogue host starts with `s`. */
  lemma FilteredJumpersEmpty(store: seq<SshItem>, s: string)
    ensures FilteredJumpers(store, s) == [] <==> forall i :: 0 <= i < |store| ==> !IsPrefix(s, store[i].host)
  {
    FilteredJumpersByName(store, s);
    var r := FilteredJumpers(store, s);
    if exists i :: 0 <= i < |store| && IsPrefix(s, store[i].host) {
      var i :| 0 <= i < |store| && IsPrefix(s, store[i].host);
      FilterCount(NameStartsWith(s), Hosts(store), store[i].host);
      assert Hosts(store)[i] == store[i].host;
      assert store[i].host in multiset(Hosts(store));
      assert store[i].host in multiset(r);
    }
    if r != [] {
      FilterCount(NameStartsWith(s), Hosts(store), r[0]);
      assert r[0] in multiset(r);
      assert r[0] in Hosts(store);
      var i :| 0 <= i < |store| && Hosts(store)[i] == r[0];
      assert IsPrefix(s, store[i].host);
    }
  }

  /**
   * `rsplit_once(',')` with its `unwrap_or(("", display))`: the chain before
   * the last comma and the fragment after it.
   */
  function SplitChain(display: string): (r: (string, string))
    ensures ',' in display ==> display == r.0 + [','] + r.1 && ',' !in r.1
    ensures ',' !in display ==> r == ("", display)
  {
    match RSplitOnce(display, ',')
    case Some(p) => p
    case None => ("", display)
  }

  /** The text shown after inserting `host`: `host,` or `prefix,host,`. */
  function Rebuild(prefix: string, host: string): (r: string)
    ensures EndsWith(r, ',')
  {
    if prefix == "" then host + "," else prefix + "," + host + ","
  }

  /**
   * The rebuilt display, without its final comma, splits back into the
   * chain prefix and the inserted host (for a host name with no comma).
   */
  lemma RebuildSplit(prefix: string, host: string)
    requires ',' !in host
    ensures Pop(Rebuild(prefix, host)) == if prefix == "" then host else prefix + [','] + host
    ensures SplitChain(Pop(Rebuild(prefix, host))) == (prefix, host)
  {
    if prefix != "" {
      assert Pop(Rebuild(prefix, host)) == prefix + [','] + host;
      RSplitOnceUnique(prefix + [','] + host, ',', prefix, host);
    } else {
      assert Pop(Rebuild(prefix, host)) == host;
    }
  }

  /**
   * The display ends in a comma or is empty exactly when the fragment after
   * its last comma is empty: there is no unfinished host name.
   */
  lemma NoFragmentIff(display: string)
    ensures EndsWith(display, ',') || display == "" <==> SplitChain(display).1 == ""
  {
    if EndsWith(display, ',') {
      RSplitOnceUnique(display, ',', display[..|display| - 1], "");
    }
  }

  /** The fields of a `Completer`, as a value. */
  datatype CompleterState = CompleterState(
    jumpers: string,          // `jumpers_string`: the chain before the last comma
    display: string,          // `display_string`: the chain as shown and edited
    matches: seq<string>,     // `match_jumpers`: the candidates of the last fresh completion
    search: string,           // `search_string`: the fragment those candidates extend
    hasPopupInput: bool,      // the user typed or deleted since the last completion
    idx: nat)                 // `idx`: the number of completions since the last fresh one
  {
    /**
     * The invariant kept by every operation: right after a completion the
     * candidates are non-empty and the display shows the last one inserted.
     */
    predicate Consistent() {
      hasPopupInput
      || (|matches| > 0 && idx >= 1 && display == Rebuild(jumpers, matches[(idx - 1) % |matches|]))
    }

    /** `add_char`: free-text mode, one character appended to the display. */
    function AddChar(c: char): (r: CompleterState)
      ensures r.Consistent()
    {
      this.(hasPopupInput := true, display := display + [c])
    }

    /** `del_char`: free-text mode, the last character (if any) removed. */
    function DelChar(): (r: CompleterState)
      ensures r.Consistent()
    {
      this.(hasPopupInput := true, display := Pop(display))
    }

    /** `clear`: empties the display and the chain prefix and enters free-text mode. */
    function Clear(): (r: CompleterState)
      ensures r.Consistent()
      ensures r.Finalizable()
      ensures r.display == "" && r.jumpers == "" && r.hasPopupInput
      ensures r.matches == matches && r.idx == idx && r.search == search
    {
      this.(hasPopupInput := true, display := "", jumpers := "")
    }

    /**
     * `complete`. In free-text mode: split the display at its last comma,
     * recompute the candidates for the fragment, insert the first one. Else:
     * insert the next candidate, cycling. Indexing an empty candidate list
     * (line 42) or taking a remainder by zero (line 48) panics.
     */
    function Complete(store: seq<SshItem>): (r: CompleteResult)
      ensures r.Completed? ==> !r.state.hasPopupInput && r.state.Consistent()
      ensures Consistent() && r.Panicked? ==> hasPopupInput
      ensures !hasPopupInput ==> (r.Panicked? <==> matches == [])
    {
      if hasPopupInput then Restart(store) else Advance()
    }

    /** Lines 33-45: the completion that recomputes the candidates. */
    function Restart(store: seq<SshItem>): (r: CompleteResult)
      ensures r.Completed? ==> !r.state.hasPopupInput && r.state.Consistent()
      ensures (r.state.jumpers, r.state.search) == SplitChain(display)
      ensures r.state.matches == FilteredJumpers(store, r.state.search)
      ensures r.Panicked? <==> r.state.matches == []
      ensures r.Completed? ==> r.state.idx == 1 && r.state.display == Rebuild(r.state.jumpers, r.state.matches[0])
    {
      var (ready, last) := SplitChain(display);
      var found := FilteredJumpers(store, last);
      var partial := this.(idx := 0, jumpers := ready, search := last, matches := found);
      if |found| == 0 then Panicked(partial)
      else Completed(partial.(display := Rebuild(ready, found[0]), idx := 1, hasPopupInput := false))
    }

    /** Lines 48-53: the completion that cycles to the next candidate. */
    function Advance(): (r: CompleteResult)
      ensures r.Panicked? <==> matches == []
      ensures r.Completed? ==> !r.state.hasPopupInput && r.state.Consistent()
    ensures r.Completed? ==>
              (r.state.jumpers == jumpers && r.state.matches == matches
               && r.state.search == search && r.state.idx == idx + 1)
    {
      if |matches| == 0 then Panicked(this)
      else
        var next := idx % |matches|;
        assert (idx + 1 - 1) % |matches| == next;
        Completed(this.(display := Rebuild(jumpers, matches[next]), idx := idx + 1, hasPopupInput := false))
    }

    /**
     * The test on line 109-111 of src/app.rs: the chain may be confirmed
     * right after a completion, or when it is empty or ends in a comma.
     */
    predicate Finalizable()
      ensures Finalizable() <==> !hasPopupInput || SplitChain(display).1 == ""
    {
      var r := !hasPopupInput || EndsWith(display, ',') || display == "";
      NoFragmentIff(display);
      r
    }
  }

  /** The outcome of `complete`: the new fields, or the fields written before a panic. */
  datatype CompleteResult = Completed(state: CompleterState) | Panicked(state: CompleterState)

  /** `Completer::new`. */
  function Init(): (r: CompleterState)
    ensures r.Consistent() && r.Finalizable()
  {
    CompleterState("", "", [], "", true, 0)
  }

  /**
   * A fresh completion splits the display at its last comma: the chain
   * before it becomes `jumpers_string`, the fragment after it
   * `search_string` (with no comma: "" and the whole display), and it
   * panics exactly when no catalogue host starts with the fragment.
   */
  lemma CompleteFresh(c: CompleterState, store: seq<SshItem>)
    requires c.hasPopupInput
    ensures var r := c.Complete(store).state;
      && (',' in c.display ==> c.display == r.jumpers + [','] + r.search && ',' !in r.search)
      && (',' !in c.display ==> r.jumpers == "" && r.search == c.display)
      && r.matches == FilteredJumpers(store, r.search)
      && (c.Complete(store).Panicked? <==> forall i :: 0 <= i < |store| ==> !IsPrefix(r.search, store[i].host))
  {
    FilteredJumpersEmpty(store, SplitChain(c.display).1);
  }

  /** A consistent completer in free-text mode has a confirmable chain exactly when it ends in a comma or is empty. */
  lemma FinalizableWhenConsistent(c: CompleterState)
    requires c.Consistent()
    ensures c.Finalizable() <==> EndsWith(c.display, ',') || c.display == ""
  {
  }

  /** `n` consecutive completions with no edit in between. */
  function CompleteTimes(c: CompleterState, store: seq<SshItem>, n: nat): CompleteResult
    decreases n
  {
    if n == 0 then Completed(c)
    else match c.Complete(store)
      case Panicked(p) => Panicked(p)
      case Completed(d) => CompleteTimes(d, store, n - 1)
  }

  /**
   * Repeated completions cycle: after `n` more triggers the display shows
   * candidate `(idx + n - 1) % len`, and nothing else changes but `idx`.
   */
  lemma {:induction false} CycleFrom(c: CompleterState, store: seq<SshItem>, n: nat)
    requires !c.hasPopupInput && |c.matches| > 0
    ensures CompleteTimes(c, store, n).Completed?
    ensures var d := CompleteTimes(c, store, n).state;
      && d.jumpers == c.jumpers && d.matches == c.matches && d.search == c.search
      && d.hasPopupInput == c.hasPopupInput && d.idx == c.idx + n
      && d.display == if n == 0 then c.display else Rebuild(c.jumpers, c.matches[(c.idx + n - 1) % |c.matches|])
    decreases n
  {
    if n > 0 {
      CycleSteps(c, store, n);
      var d := CompleteTimes(c, store, n).state;
      assert d.Consistent();
      assert d.idx - 1 == c.idx + n - 1;
    }
  }

  /** After `n > 0` cycling completions the state is consistent; only `idx` and the display moved. */
  lemma {:induction false} CycleSteps(c: CompleterState, store: seq<SshItem>, n: nat)
    requires !c.hasPopupInput && |c.matches| > 0 && n > 0
    ensures CompleteTimes(c, store, n).Completed?
    ensures var d := CompleteTimes(c, store, n).state;
      && d.jumpers == c.jumpers && d.matches == c.matches && d.search == c.search
      && !d.hasPopupInput && d.idx == c.idx + n && d.Consistent()
    decreases n
  {
    var next := c.Advance().state;
    CompleteTimesStep(c, store, n);
    if n > 1 {
      CycleSteps(next, store, n - 1);
    }
  }

  /** One cycling completion, then the remaining `n - 1`. */
  lemma CompleteTimesStep(c: CompleterState, store: seq<SshItem>, n: nat)
    requires !c.hasPopupInput && |c.matches| > 0 && n > 0
    ensures CompleteTimes(c, store, n) == CompleteTimes(c.Advance().state, store, n - 1)
  {
    assert c.Complete(store) == c.Advance();
  }

  /**
   * From free-text mode, the `n`-th completion in a row shows candidate
   * `(n - 1) % len` of the fragment's candidates, after the chain prefix.
   */
  lemma CycleFresh(c: CompleterState, store: seq<SshItem>, n: nat)
    requires c.hasPopupInput && n >= 1
    requires FilteredJumpers(store, SplitChain(c.display).1) != []
    ensures var m := FilteredJumpers(store, SplitChain(c.display).1);
      && CompleteTimes(c, store, n).Completed?
      && CompleteTimes(c, store, n).state.display == Rebuild(SplitChain(c.display).0, m[(n - 1) % |m|])
      && CompleteTimes(c, store, n).state.idx == n
  {
    var d := c.Restart(store).state;
    CompleteTimesFresh(c, store, n);
    CycleAfterFirst(d, store, n);
  }

  /** After the first completion (index 1), the `n`-th in a row shows candidate `(n - 1) % len`. */
  lemma CycleAfterFirst(d: CompleterState, store: seq<SshItem>, n: nat)
    requires !d.hasPopupInput && |d.matches| > 0 && d.idx == 1 && n >= 1
    requires d.display == Rebuild(d.jumpers, d.matches[0])
    ensures CompleteTimes(d, store, n - 1).Completed?
    ensures CompleteTimes(d, store, n - 1).state.display == Rebuild(d.jumpers, d.matches[(n - 1) % |d.matches|])
    ensures CompleteTimes(d, store, n - 1).state.idx == n
  {
    CycleFrom(d, store, n - 1);
    if n == 1 {
      assert (n - 1) % |d.matches| == 0;
    } else {
      assert d.idx + (n - 1) - 1 == n - 1;
    }
  }

  /** One free-text completion that finds candidates, then the remaining `n - 1`. */
  lemma CompleteTimesFresh(c: CompleterState, store: seq<SshItem>, n: nat)
    requires c.hasPopupInput && c.Restart(store).Completed? && n > 0
    ensures CompleteTimes(c, store, n) == CompleteTimes(c.Restart(store).state, store, n - 1)
  {
    assert c.Complete(store) == c.Restart(store);
  }

  /** With three candidates a, b, c, four triggers in a row show a, b, c, a. */
  lemma CycleOfThree(c: CompleterState, store: seq<SshItem>)
    requires c.hasPopupInput
    requires |FilteredJumpers(store, SplitChain(c.display).1)| == 3
    ensures var m := FilteredJumpers(store, SplitChain(c.display).1);
      var p := SplitChain(c.display).0;
      && CompleteTimes(c, store, 1).state.display == Rebuild(p, m[0])
      && CompleteTimes(c, store, 2).state.display == Rebuild(p, m[1])
      && CompleteTimes(c, store, 3).state.display == Rebuild(p, m[2])
      && CompleteTimes(c, store, 4).state.display == Rebuild(p, m[0])
  {
    CycleFresh(c, store, 1);
    CycleFresh(c, store, 2);
    CycleFresh(c, store, 3);
    CycleFresh(c, store, 4);
  }

  /** The completer itself, its fields updated in place. */
  class Completer {
    var jumpersString: string
    var displayString: string
    var matchJumpers: seq<string>
    var searchString: string
    var hasPopupInput: bool
    var idx: nat

    /** The fields as a value. */
    function State(): CompleterState
      reads this
    {
      CompleterState(jumpersString, displayString, matchJumpers, searchString, hasPopupInput, idx)
    }

    ghost predicate Valid()
      reads this
    {
      State().Consistent()
    }

    /** `Completer::new`: empty strings and candidates, `idx` 0, free-text mode. */
    constructor ()
      ensures State() == Init()
      ensures Valid()
    {
      jumpersString, displayString, matchJumpers, searchString := "", "", [], "";
      hasPopupInput, idx := true, 0;
    }

    /** `complete`; `panicked` reports the out-of-bounds index or the remainder by zero. */
    method Complete(store: seq<SshItem>) returns (panicked: bool)
      requires Valid()
      modifies this
      ensures Valid()
      ensures State() == old(State()).Complete(store).state
      ensures panicked == old(State()).Complete(store).Panicked?
    {
      ghost var before := State();
      panicked := false;
      if hasPopupInput {
        var (ready, last) := SplitChain(displayString);
        idx := 0;
        jumpersString := ready;
        searchString := last;
        matchJumpers := FilteredJumpers(store, last);
        if |matchJumpers| == 0 {
          panicked := true;
          assert State() == before.Restart(store).state;
          return;
        }
        displayString := Rebuild(jumpersString, matchJumpers[idx]);
        idx := idx + 1;
        hasPopupInput := false;
        assert State() == before.Restart(store).state;
      } else {
        var host := matchJumpers[idx % |matchJumpers|];
        displayString := Rebuild(jumpersString, host);
        idx := idx + 1;
        hasPopupInput := false;
        assert State() == before.Advance().state;
      }
    }

    /** `add_char`. */
    method AddChar(c: char)
      modifies this
      ensures Valid()
      ensures State() == old(State()).AddChar(c)
    {
      hasPopupInput := true;
      displayString := displayString + [c];
    }

    /** `del_char`. */
    method DelChar()
      modifies this
      ensures Valid()
      ensures State() == old(State()).DelChar()
    {
      hasPopupInput := true;
      displayString := Pop(displayString);
    }

    /** `clear`. */
    method Clear()
      modifies this
      ensures Valid()
      ensures State() == old(State()).Clear()
    {
      hasPopupInput := true;
      displayString := "";
      jumpersString := "";
    }
  }
}
