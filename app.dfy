/**
 * The selection controller (src/app.rs): the cursor over the filtered hosts,
 * the routing of keystrokes to the search query or to the jump-chain popup,
 * and the per-key transition of the event loop in `run`.
 */
module Selection {
  import opened Wrappers
  import opened Strings
  import opened Catalog
  import opened Search
  import opened Completion

  /** The key events `run` distinguishes; every other event is `Other`. */
  datatype Key = Esc | Char(c: char) | Backspace | Up | Down | Enter | Tab | Other

  /**
   * What the loop does after one key: wait for the next one, return
   * without launching (Esc), break to launch ssh, or die on a panic.
   */
  datatype Outcome = Continue | Quit | Spawn | Panic

  /**
   * `change_selected_item`'s arithmetic: over `n` filtered rows, move the
   * cursor forward (`right`) or backward with wraparound; no cursor yet
   * gives row 0; with no rows nothing changes.
   */
  function Rotate(selected: Option<nat>, n: nat, right: bool): (r: Option<nat>)
    ensures n == 0 ==> r == selected
    ensures n > 0 ==> r.Some? && r.value < n
    ensures n > 0 && selected.None? ==> r == Some(0)
    ensures n > 0 && right && selected == Some(n - 1) ==> r == Some(0)
    ensures n > 0 && !right && selected == Some(0) ==> r == Some(n - 1)
    ensures right && selected.Some? && selected.value + 1 < n ==> r == Some(selected.value + 1)
    ensures !right && selected.Some? && 0 < selected.value < n ==> r == Some(selected.value - 1)
  {
    if n == 0 then selected
    else match selected
      case Some(i) =>
        WrapFacts(i, n);
        Some(if right then (i + 1) % n else (i + n - 1) % n)
      case None => Some(0)
  }

  /** What the two remainders of `change_selected_item` come to. */
  lemma WrapFacts(i: nat, n: nat)
    requires n > 0
    ensures 0 <= (i + 1) % n < n && 0 <= (i + n - 1) % n < n
    ensures i + 1 < n ==> (i + 1) % n == i + 1
    ensures i + 1 == n ==> (i + 1) % n == 0
    ensures i == 0 ==> (i + n - 1) % n == n - 1
    ensures 0 < i < n ==> (i + n - 1) % n == i - 1
  {
    if 0 < i < n {
      assert i + n - 1 == 1 * n + (i - 1);
    }
  }

  /** For a cursor on a row, moving forward then back (or back then forward) returns to it. */
  lemma RotateRoundTrip(i: nat, n: nat)
    requires i < n
    ensures Rotate(Rotate(Some(i), n, true), n, false) == Some(i)
    ensures Rotate(Rotate(Some(i), n, false), n, true) == Some(i)
  {
    if i + 1 < n {
      assert Rotate(Some(i), n, true) == Some(i + 1);
    } else {
      assert Rotate(Some(i), n, true) == Some(0);
    }
    if 0 < i {
      assert Rotate(Some(i), n, false) == Some(i - 1);
    } else {
      assert Rotate(Some(i), n, false) == Some(n - 1);
    }
  }

  /** A transition of the event loop: the new state and what the loop does next. */
  datatype Transition = Transition(next: AppState, outcome: Outcome)

  /** The fields of an `App` (the configuration store is passed alongside). */
  datatype AppState = AppState(
    selected: Option<nat>,        // `state.selected()`: the cursor into the filtered list
    query: string,                // `searcher.search_string`
    completer: CompleterState,    // `completer`
    showPopup: bool,              // `should_show_popup`
    spawn: bool)                  // `should_spawn_ssh`
  {
    /** The invariant the controller keeps: that of its completer. */
    predicate Valid() {
      completer.Consistent()
    }

    /** `get_filtered_items`. */
    function FilteredItems(store: seq<SshItem>): (r: seq<SshItem>)
      ensures query == "" ==> r == store
      ensures |r| <= |store| && forall k :: 0 <= k < |r| ==> Contains(r[k].host, query)
    {
      FilteredHosts(query, store)
    }

    /**
     * `get_selected_item`: the row under the cursor when the cursor lies
     * within the current filtered list, otherwise nothing.
     */
    function SelectedItem(store: seq<SshItem>): (r: Option<SshItem>)
      ensures r.Some? <==> selected.Some? && selected.value < |FilteredItems(store)|
      ensures r.Some? ==> r.value == FilteredItems(store)[selected.value]
    {
      match selected
      case Some(i) => if i < |FilteredItems(store)| then Some(FilteredItems(store)[i]) else None
      case None => None
    }

    /** `change_selected_item`: rotation against the CURRENT filtered length. */
    function ChangeSelected(right: bool, store: seq<SshItem>): (r: AppState)
      ensures r.query == query && r.completer == completer && r.showPopup == showPopup && r.spawn == spawn
      ensures FilteredItems(store) == [] ==> r.selected == selected
      ensures FilteredItems(store) != [] ==> r.SelectedItem(store).Some?
    {
      this.(selected := Rotate(selected, |FilteredItems(store)|, right))
    }

    /** `App::add_char`: to the completer when the popup is shown, else to the query. */
    function AddChar(c: char): (r: AppState)
      ensures r.selected == selected && r.showPopup == showPopup && r.spawn == spawn
      ensures showPopup ==> r.query == query && r.completer.display == completer.display + [c]
      ensures !showPopup ==> r.completer == completer && r.query == query + [c]
      ensures Valid() ==> r.Valid()
    {
      if showPopup then this.(completer := completer.AddChar(c)) else this.(query := query + [c])
    }

    /** `App::del_char`: routed like `add_char`. */
    function DelChar(): (r: AppState)
      ensures r.selected == selected && r.showPopup == showPopup && r.spawn == spawn
      ensures showPopup ==> r.query == query && r.completer.display == Pop(completer.display)
      ensures !showPopup ==> r.completer == completer && r.query == Pop(query)
      ensures Valid() ==> r.Valid()
    {
      if showPopup then this.(completer := completer.DelChar()) else this.(query := Pop(query))
    }

    /**
     * Enter (lines 104-118): with a selected row, open the popup, or, when it
     * is open and the chain is confirmable, decide to launch.
     */
    function Confirm(store: seq<SshItem>): (r: AppState)
      ensures r.selected == selected && r.query == query && r.completer == completer
      ensures r.showPopup <==> showPopup || SelectedItem(store).Some?
      ensures r.spawn <==> spawn || (SelectedItem(store).Some? && showPopup && completer.Finalizable())
    {
      if SelectedItem(store).None? then this
      else if !showPopup then this.(showPopup := true)
      else if completer.Finalizable() then this.(spawn := true)
      else this
    }

    /** One pass of the loop body of `run` (lines 88-125) for one key event. */
    function Step(key: Key, store: seq<SshItem>): (t: Transition)
      ensures Valid() ==> t.next.Valid()
      ensures Valid() && t.outcome == Panic ==> key == Tab && completer.hasPopupInput
      ensures t.outcome == Quit <==> key == Esc && !showPopup
    {
      match key
      case Esc =>
        if showPopup then Settle(this.(showPopup := false, completer := completer.Clear()))
        else Transition(this, Quit)
      case Char(c) => Settle(AddChar(c))
      case Backspace => Settle(DelChar())
      case Down => Settle(ChangeSelected(true, store))
      case Up => Settle(ChangeSelected(false, store))
      case Enter => Settle(Confirm(store))
      case Tab =>
        (match completer.Complete(store)
         case Completed(c) => Settle(this.(completer := c))
         case Panicked(c) => Transition(this.(completer := c), Panic))
      case Other => Settle(this)
    }
  }

  /** Lines 123-125: leave the loop once a launch was decided. */
  function Settle(st: AppState): (t: Transition)
    ensures t.next == st
    ensures t.outcome == Spawn <==> st.spawn
    ensures t.outcome == Spawn || t.outcome == Continue
  {
    Transition(st, if st.spawn then Spawn else Continue)
  }

  /** `App::new` once the catalogue is loaded: the seed query, no cursor, no popup. */
  function New(search: string): (st: AppState)
    ensures st.Valid() && !st.spawn && !st.showPopup
  {
    AppState(None, search, Init(), false, false)
  }

  /**
   * The loop of `run` over a given stream of key events; when the stream
   * runs out the loop would still be waiting, reported as `Continue`.
   */
  function RunKeys(st: AppState, keys: seq<Key>, store: seq<SshItem>): (t: Transition)
    ensures st.Valid() ==> t.next.Valid()
    decreases |keys|
  {
    if keys == [] then Transition(st, Continue)
    else
      var t := st.Step(keys[0], store);
      if t.outcome == Continue then RunKeys(t.next, keys[1..], store) else t
  }

  /** Esc hides and clears the popup when it is shown, and otherwise ends the loop. */
  lemma EscHidesOrQuits(st: AppState, store: seq<SshItem>)
    requires !st.spawn
    ensures var t := st.Step(Esc, store);
      && (st.showPopup ==> t == Transition(st.(showPopup := false, completer := st.completer.Clear()), Continue))
      && (!st.showPopup ==> t == Transition(st, Quit))
      && (st.showPopup ==> t.next.completer.display == "" && t.next.completer.Finalizable())
  {
  }

  /**
   * A typed character goes to the completer's display when the popup is
   * shown, and to the query otherwise; nothing else changes.
   */
  lemma TypedCharRouting(st: AppState, c: char, store: seq<SshItem>)
    requires !st.spawn
    ensures var t := st.Step(Char(c), store);
      && t.outcome == Continue
      && t.next.selected == st.selected && t.next.showPopup == st.showPopup && !t.next.spawn
      && (st.showPopup ==>
            && t.next.query == st.query
            && t.next.completer.display == st.completer.display + [c] && t.next.completer.hasPopupInput
            && t.next.completer.matches == st.completer.matches && t.next.completer.idx == st.completer.idx
            && t.next.completer.jumpers == st.completer.jumpers && t.next.completer.search == st.completer.search)
      && (!st.showPopup ==> t.next.completer == st.completer && t.next.query == st.query + [c])
  {
  }

  /** Backspace is routed like a typed character and removes the last character. */
  lemma DeleteRouting(st: AppState, store: seq<SshItem>)
    requires !st.spawn
    ensures var t := st.Step(Backspace, store);
      && t.outcome == Continue
      && t.next.selected == st.selected && t.next.showPopup == st.showPopup && !t.next.spawn
      && (st.showPopup ==>
            && t.next.query == st.query
            && t.next.completer.display == Pop(st.completer.display) && t.next.completer.hasPopupInput
            && t.next.completer.matches == st.completer.matches && t.next.completer.idx == st.completer.idx
            && t.next.completer.jumpers == st.completer.jumpers && t.next.completer.search == st.completer.search)
      && (!st.showPopup ==> t.next.completer == st.completer && t.next.query == Pop(st.query))
  {
  }

  /** A key with no binding, or an event that is not a key press, changes nothing. */
  lemma OtherKeyNoop(st: AppState, store: seq<SshItem>)
    requires !st.spawn
    ensures st.Step(Other, store) == Transition(st, Continue)
  {
  }

  /** Typing a character and deleting it again restores the query in search mode. */
  lemma TypeThenDelete(st: AppState, c: char, store: seq<SshItem>)
    requires !st.spawn && !st.showPopup
    ensures st.Step(Char(c), store).next.Step(Backspace, store) == Transition(st, Continue)
  {
    PushPop(st.query, c);
  }

  /**
   * Up and Down rotate the cursor over the current filtered list whether or
   * not the popup is shown, and change nothing else.
   */
  lemma NavigateAnyMode(st: AppState, right: bool, b: bool, store: seq<SshItem>)
    requires !st.spawn
    ensures var key := if right then Down else Up;
      && st.Step(key, store) == Transition(st.(selected := Rotate(st.selected, |st.FilteredItems(store)|, right)), Continue)
      && st.(showPopup := b).Step(key, store).next == st.Step(key, store).next.(showPopup := b)
  {
  }

  /** Tab completes whether or not the popup is shown. */
  lemma TabAnyMode(st: AppState, b: bool, store: seq<SshItem>)
    ensures st.(showPopup := b).Step(Tab, store).next == st.Step(Tab, store).next.(showPopup := b)
    ensures st.Step(Tab, store).next.completer == st.completer.Complete(store).state
    ensures st.Step(Tab, store).outcome == Panic <==> st.completer.Complete(store).Panicked?
  {
  }

  /**
   * Enter does nothing without a valid selection; with one, it opens a
   * hidden popup, and with the popup shown it decides to launch exactly
   * when the chain is confirmable.
   */
  lemma EnterGating(st: AppState, store: seq<SshItem>)
    requires !st.spawn
    ensures var t := st.Step(Enter, store);
      && (st.SelectedItem(store).None? ==> t == Transition(st, Continue))
      && (st.SelectedItem(store).Some? && !st.showPopup ==> t == Transition(st.(showPopup := true), Continue))
      && (st.SelectedItem(store).Some? && st.showPopup ==>
            (t.outcome == Spawn <==> st.completer.Finalizable())
            && t.next == (if st.completer.Finalizable() then st.(spawn := true) else st))
  {
  }

  /**
   * The loop only ever decides to launch on Enter, with the popup open, a
   * selected row and a confirmable chain; the selection is the one Enter saw.
   */
  lemma SpawnOnlyOnConfirm(st: AppState, key: Key, store: seq<SshItem>)
    requires !st.spawn
    requires st.Step(key, store).outcome == Spawn
    ensures var n := st.Step(key, store).next;
      && key == Enter && st.showPopup && st.completer.Finalizable()
      && n.spawn && n.SelectedItem(store) == st.SelectedItem(store) && n.SelectedItem(store).Some?
  {
  }

  /** A run that does not stop keeps `should_spawn_ssh` false; one that decides to launch has a selected row. */
  lemma {:induction false} RunSpawnHasSelection(st: AppState, keys: seq<Key>, store: seq<SshItem>)
    requires !st.spawn
    ensures var t := RunKeys(st, keys, store);
      && (t.outcome == Continue ==> !t.next.spawn)
      && (t.outcome == Spawn ==> t.next.spawn && t.next.SelectedItem(store).Some?)
    decreases |keys|
  {
    if keys != [] {
      var t := st.Step(keys[0], store);
      if t.outcome == Continue {
        assert !t.next.spawn;
        RunSpawnHasSelection(t.next, keys[1..], store);
      } else if t.outcome == Spawn {
        SpawnOnlyOnConfirm(st, keys[0], store);
      }
    }
  }

  /** The controller itself, with its sub-components and flags updated in place. */
  class App {
    var selected: Option<nat>
    const configstore: seq<SshItem>
    const searcher: Searcher
    const completer: Completer
    var shouldSpawnSsh: bool
    var shouldShowPopup: bool

    /** The fields as a value. */
    function Snapshot(): AppState
      reads this, searcher, completer
    {
      AppState(selected, searcher.searchString, completer.State(), shouldShowPopup, shouldSpawnSsh)
    }

    ghost predicate Valid()
      reads this, completer
    {
      completer.Valid()
    }

    /** `App::new` with the catalogue already loaded. */
    constructor (store: seq<SshItem>, search: string)
      ensures Valid() && fresh(searcher) && fresh(completer)
      ensures configstore == store && Snapshot() == New(search)
    {
      selected := None;
      configstore := store;
      searcher := new Searcher(search);
      completer := new Completer();
      shouldSpawnSsh, shouldShowPopup := false, false;
    }

    /** `get_filtered_items`. */
    function GetFilteredItems(): (r: seq<SshItem>)
      reads this, searcher
      ensures searcher.searchString == "" ==> r == configstore
      ensures |r| <= |configstore| && forall k :: 0 <= k < |r| ==> Contains(r[k].host, searcher.searchString)
    {
      searcher.GetFilteredHosts(configstore)
    }

    /** `get_selected_item`. */
    method GetSelectedItem() returns (item: Option<SshItem>)
      ensures item == Snapshot().SelectedItem(configstore)
    {
      var items := GetFilteredItems();
      match selected
      case Some(i) =>
        if i < |items| {
          item := Some(items[i]);
        } else {
          item := None;
        }
      case None =>
        item := None;
    }

    /** `change_selected_item`. */
    method ChangeSelectedItem(right: bool)
      modifies this
      ensures Snapshot() == old(Snapshot()).ChangeSelected(right, configstore)
    {
      var itemsLen := |GetFilteredItems()|;
      if itemsLen == 0 {
        return;
      }
      var i := match selected
        case Some(i) => if right then (i + 1) % itemsLen else (i + itemsLen - 1) % itemsLen
        case None => 0;
      selected := Some(i);
    }

    /** `App::add_char`. */
    method AddChar(c: char)
      modifies searcher, completer
      ensures Snapshot() == old(Snapshot()).AddChar(c)
    {
      if shouldShowPopup {
        completer.AddChar(c);
      } else {
        searcher.AddChar(c);
      }
    }

    /** `App::del_char`. */
    method DelChar()
      modifies searcher, completer
      ensures Snapshot() == old(Snapshot()).DelChar()
    {
      if shouldShowPopup {
        completer.DelChar();
      } else {
        searcher.DelChar();
      }
    }

    /** The body of the loop in `run` for one key event. */
    method HandleKey(key: Key) returns (outcome: Outcome)
      requires Valid()
      modifies this, searcher, completer
      ensures Valid()
      ensures Transition(Snapshot(), outcome) == old(Snapshot()).Step(key, configstore)
    {
      match key {
        case Esc =>
          if shouldShowPopup {
            shouldShowPopup := false;
            completer.Clear();
          } else {
            return Quit;
          }
        case Char(c) =>
          AddChar(c);
        case Backspace =>
          DelChar();
        case Down =>
          ChangeSelectedItem(true);
        case Up =>
          ChangeSelectedItem(false);
        case Enter =>
          var item := GetSelectedItem();
          if item.Some? {
            if !shouldShowPopup {
              shouldShowPopup := true;
            } else if !completer.hasPopupInput
              || EndsWith(completer.displayString, ',')
              || completer.displayString == ""
            {
              shouldSpawnSsh := true;
            }
          }
        case Tab =>
          var panicked := completer.Complete(configstore);
          if panicked {
            return Panic;
          }
        case Other =>
      }
      outcome := if shouldSpawnSsh then Spawn else Continue;
    }

    /** `run` over a given stream of key events, until the loop ends or the stream does. */
    method Run(keys: seq<Key>) returns (outcome: Outcome)
      requires Valid()
      modifies this, searcher, completer
      ensures Valid()
      ensures Transition(Snapshot(), outcome) == RunKeys(old(Snapshot()), keys, configstore)
    {
      var i := 0;
      while i < |keys|
        invariant 0 <= i <= |keys|
        invariant Valid()
        invariant RunKeys(old(Snapshot()), keys, configstore) == RunKeys(Snapshot(), keys[i..], configstore)
      {
        assert keys[i..][1..] == keys[i + 1..];
        outcome := HandleKey(keys[i]);
        if outcome != Continue {
          return;
        }
        i := i + 1;
      }
      outcome := Continue;
    }
  }
}
