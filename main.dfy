/**
 * The command-line glue (src/main.rs): `-opt=value` splitting, the option
 * loop, and the `ssh` argument list built from the final selection.
 */
module Cli {
  import opened Wrappers
  import opened Strings
  import opened Catalog
  import opened Completion
  import opened Selection

  /** The configuration path used when no `-c` is given. */
  const DefaultConfig: string := "~/.ssh/config"

  /** What the option loop ends in: print usage, print the version, or run the picker. */
  datatype Command = Usage | Version | Run(config: string, search: string)

  predicate IsHelp(a: string) { a == "-h" || a == "-help" || a == "--help" }
  predicate IsVersion(a: string) { a == "-v" || a == "-version" || a == "--version" }
  predicate IsSearch(a: string) { a == "-s" || a == "-search" || a == "--search" }
  predicate IsConfig(a: string) { a == "-c" || a == "-config" || a == "--config" }

  /** An argument of the form `-opt=value`, which `parse_args` splits. */
  predicate IsJoinedOption(a: string) {
    IsPrefix("-", a) && '=' in a
  }

  /**
   * One argument as `parse_args` passes it on: a `-opt=value` argument
   * becomes all of its `=`-separated pieces, any other stays as it is.
   */
  function SplitArg(arg: string): (r: seq<string>)
    ensures |r| >= 1 && Join(r, '=') == arg
    ensures IsJoinedOption(arg) ==> |r| >= 2 && forall k :: 0 <= k < |r| ==> '=' !in r[k]
    ensures !IsJoinedOption(arg) ==> r == [arg]
  {
    if IsJoinedOption(arg) then
      Split(arg, '=')
    else [arg]
  }

  /** The argument list `parse_args` returns for the arguments after the program name. */
  function ExpandArgs(args: seq<string>): (r: seq<string>)
    ensures |r| >= |args|
    ensures |r| == |args| <==> forall k :: 0 <= k < |args| ==> !IsJoinedOption(args[k])
  {
    if args == [] then [] else SplitArg(args[0]) + ExpandArgs(args[1..])
  }

  /** `parse_args`, over the arguments after the program name. */
  method ParseArgs(args: seq<string>) returns (r: seq<string>)
    ensures r == ExpandArgs(args)
  {
    r := [];
    for i := 0 to |args|
      invariant r == ExpandArgs(args[..i])
    {
      ExpandArgsSnoc(args, i);
      if IsPrefix("-", args[i]) && '=' in args[i] {
        r := PushAll(r, Split(args[i], '='));
      } else {
        r := r + [args[i]];
      }
    }
    assert args[..|args|] == args;
  }

  /** Expanding one more argument appends that argument's pieces. */
  lemma ExpandArgsSnoc(args: seq<string>, i: nat)
    requires i < |args|
    ensures ExpandArgs(args[..i + 1]) == ExpandArgs(args[..i]) + SplitArg(args[i])
  {
    assert args[..i + 1] == args[..i] + [args[i]];
    ExpandArgsConcat(args[..i], [args[i]]);
    assert [args[i]][1..] == [];
  }

  /** `for part in parts { args.push(part) }`. */
  method PushAll(r: seq<string>, parts: seq<string>) returns (s: seq<string>)
    ensures s == r + parts
  {
    s := r;
    for j := 0 to |parts|
      invariant s == r + parts[..j]
    {
      assert parts[..j + 1] == parts[..j] + [parts[j]];
      s := s + [parts[j]];
    }
    assert parts[..|parts|] == parts;
  }

  /** Expansion works argument by argument, in order. */
  lemma {:induction false} ExpandArgsConcat(a: seq<string>, b: seq<string>)
    ensures ExpandArgs(a + b) == ExpandArgs(a) + ExpandArgs(b)
  {
    if a == [] {
      assert a + b == b;
    } else {
      assert (a + b)[1..] == a[1..] + b;
      ExpandArgsConcat(a[1..], b);
    }
  }

  /** Arguments none of which is `-opt=value` come through unchanged. */
  lemma {:induction false} ExpandArgsPlain(args: seq<string>)
    requires forall k :: 0 <= k < |args| ==> !IsJoinedOption(args[k])
    ensures ExpandArgs(args) == args
  {
    if args != [] {
      ExpandArgsPlain(args[1..]);
    }
  }

  /** No argument of `xs` has the form `-opt=value`. */
  predicate AllPlain(xs: seq<string>) {
    forall k :: 0 <= k < |xs| ==> !IsJoinedOption(xs[k])
  }

  lemma AllPlainConcat(a: seq<string>, b: seq<string>)
    requires AllPlain(a) && AllPlain(b)
    ensures AllPlain(a + b)
  {
    forall k | 0 <= k < |a + b| ensures !IsJoinedOption((a + b)[k]) {
      if k >= |a| {
        assert (a + b)[k] == b[k - |a|];
      }
    }
  }

  /** No argument `parse_args` returns is left of the form `-opt=value`. */
  lemma {:induction false} ExpandArgsAllPlain(args: seq<string>)
    ensures AllPlain(ExpandArgs(args))
  {
    if args != [] {
      ExpandArgsAllPlain(args[1..]);
      AllPlainConcat(SplitArg(args[0]), ExpandArgs(args[1..]));
    }
  }

  /** Splitting already-split arguments again changes nothing. */
  lemma ExpandArgsIdempotent(args: seq<string>)
    ensures ExpandArgs(ExpandArgs(args)) == ExpandArgs(args)
  {
    ExpandArgsAllPlain(args);
    ExpandArgsPlain(ExpandArgs(args));
  }

  /**
   * The `while let` loop of `main` (lines 18-38) from the given option
   * values: the first help or version flag wins, `-s` and `-c` take the next
   * argument (whatever it is), a missing value or anything else gives usage.
   */
  function Options(args: seq<string>, config: string, search: string): (r: Command)
    ensures r.Run? ==> |args| % 2 == 0
    ensures r.Run? ==> r.config == config || r.config in args
    ensures r.Run? ==> r.search == search || r.search in args
    decreases |args|
  {
    if args == [] then Run(config, search)
    else if IsHelp(args[0]) then Usage
    else if IsVersion(args[0]) then Version
    else if IsSearch(args[0]) then
      if |args| >= 2 then Options(args[2..], config, args[1]) else Usage
    else if IsConfig(args[0]) then
      if |args| >= 2 then Options(args[2..], args[1], search) else Usage
    else Usage
  }

  /** Lines 14-38 of `main`: the defaults, then the option loop. */
  method ParseOptions(args: seq<string>) returns (cmd: Command)
    ensures cmd == Options(args, DefaultConfig, "")
  {
    var config, search := DefaultConfig, "";
    var i := 0;
    while i < |args|
      invariant 0 <= i <= |args|
      invariant Options(args, DefaultConfig, "") == Options(args[i..], config, search)
    {
      var arg := args[i];
      i := i + 1;
      if IsHelp(arg) {
        return Usage;
      } else if IsVersion(arg) {
        return Version;
      } else if IsSearch(arg) {
        if i < |args| {
          assert args[i - 1..][2..] == args[i + 1..];
          search := args[i];
          i := i + 1;
        } else {
          return Usage;
        }
      } else if IsConfig(arg) {
        if i < |args| {
          assert args[i - 1..][2..] == args[i + 1..];
          config := args[i];
          i := i + 1;
        } else {
          return Usage;
        }
      } else {
        return Usage;
      }
    }
    assert args[i..] == [];
    cmd := Run(config, search);
  }

  /**
   * Options are consumed left to right: once a prefix has been read in
   * full, the rest is read from the values that prefix left behind.
   */
  lemma {:induction false} OptionsCompose(a: seq<string>, b: seq<string>, config: string, search: string)
    requires Options(a, config, search).Run?
    ensures var r := Options(a, config, search); Options(a + b, config, search) == Options(b, r.config, r.search)
    decreases |a|
  {
    if a == [] {
      assert a + b == b;
    } else if IsSearch(a[0]) {
      assert (a + b)[2..] == a[2..] + b;
      OptionsCompose(a[2..], b, config, a[1]);
    } else {
      assert (a + b)[2..] == a[2..] + b;
      OptionsCompose(a[2..], b, a[1], search);
    }
  }

  /**
   * After any well-formed options, a help or version flag ends the loop
   * with usage or version; a `-s`/`-c` with no value, or an unknown
   * argument, ends it with usage.
   */
  lemma OptionsStop(a: seq<string>, arg: string, rest: seq<string>)
    requires Options(a, DefaultConfig, "").Run?
    ensures IsHelp(arg) ==> Options(a + [arg] + rest, DefaultConfig, "") == Usage
    ensures IsVersion(arg) ==> Options(a + [arg] + rest, DefaultConfig, "") == Version
    ensures IsSearch(arg) || IsConfig(arg) ==> Options(a + [arg], DefaultConfig, "") == Usage
    ensures !IsHelp(arg) && !IsVersion(arg) && !IsSearch(arg) && !IsConfig(arg) ==>
      Options(a + [arg] + rest, DefaultConfig, "") == Usage
  {
    OptionsCompose(a, [arg] + rest, DefaultConfig, "");
    OptionsCompose(a, [arg], DefaultConfig, "");
    assert a + [arg] + rest == a + ([arg] + rest);
  }

  /** A later `-s` or `-c` overrides an earlier one. */
  lemma LaterOptionWins(a: seq<string>, flag: string, value: string)
    requires Options(a, DefaultConfig, "").Run?
    requires IsSearch(flag) || IsConfig(flag)
    ensures var r := Options(a, DefaultConfig, "");
      Options(a + [flag, value], DefaultConfig, "")
        == if IsSearch(flag) then Run(r.config, value) else Run(value, r.search)
  {
    OptionsCompose(a, [flag, value], DefaultConfig, "");
  }

  /** The jump chain passed to ssh: the display with all trailing commas removed. */
  function JumpChain(display: string): (r: string)
    ensures IsPrefix(r, display) && !EndsWith(r, ',')
    ensures forall k :: |r| <= k < |display| ==> display[k] == ','
  {
    TrimEnd(display, ',')
  }

  /** The host argument: `host` up to its first space. */
  function HostArg(host: string): (r: string)
    ensures IsPrefix(r, host) && ' ' !in r
    ensures |r| == |host| || host[|r|] == ' '
  {
    FirstPiece(host, ' ')
  }

  /** Lines 63-76: the arguments given to `ssh`. */
  function SshArgs(display: string, host: string): (r: seq<string>)
    ensures |r| == 1 || |r| == 3
    ensures r[|r| - 1] == HostArg(host)
    ensures |r| == 1 <==> forall k :: 0 <= k < |display| ==> display[k] == ','
    ensures |r| == 3 ==> r[0] == "-J" && r[1] != "" && r[1] == JumpChain(display)
  {
    var chain := JumpChain(display);
    if chain == "" then [HostArg(host)] else ["-J", chain, HostArg(host)]
  }

  /** What `main` does after the loop (lines 58-77). */
  datatype Launch = NoLaunch | ExitFailure | Process(program: string, args: seq<string>)

  /** The decision of lines 58-77: no launch, `exit(1)`, or `ssh` with its arguments. */
  function LaunchAfter(st: AppState, store: seq<SshItem>): (r: Launch)
    ensures r.NoLaunch? <==> !st.spawn
    ensures r.ExitFailure? <==> st.spawn && st.SelectedItem(store).None?
    ensures r.Process? ==>
              (st.SelectedItem(store).Some? && r.program == "ssh"
               && r.args == SshArgs(st.completer.display, st.SelectedItem(store).value.host))
  {
    if !st.spawn then NoLaunch
    else match st.SelectedItem(store)
      case None => ExitFailure
      case Some(item) => Process("ssh", SshArgs(st.completer.display, item.host))
  }

  /** The state `run` starts from: `App::new` and then `select(Some(0))` (lines 43-52). */
  function Start(search: string): (st: AppState)
    ensures st.Valid() && !st.spawn && !st.showPopup && st.selected == Some(0)
  {
    New(search).(selected := Some(0))
  }

  /**
   * Whatever keys are pressed, a loop that ends by deciding to launch
   * always leads to `ssh` being started on the selected row: the
   * `exit(1)` of line 61 is never reached.
   */
  lemma LaunchAfterSpawn(search: string, keys: seq<Key>, store: seq<SshItem>)
    requires RunKeys(Start(search), keys, store).outcome == Spawn
    ensures RunKeys(Start(search), keys, store).next.SelectedItem(store).Some?
    ensures var st := RunKeys(Start(search), keys, store).next;
      LaunchAfter(st, store) == Process("ssh", SshArgs(st.completer.display, st.SelectedItem(store).value.host))
  {
    RunSpawnHasSelection(Start(search), keys, store);
  }
}

/** Three worked examples of the whole program on small catalogues. */
module Scenarios {
  import opened Wrappers
  import opened Strings
  import opened Seqs
  import opened Catalog
  import opened Search
  import opened Completion
  import opened Selection
  import opened Cli

  function Item(host: string): SshItem {
    SshItem(host, "root", host, "22", "")
  }

  /**
   * Query "a" over alpha, beta, gamma keeps all three (each contains an
   * "a"); Down moves to beta, Enter opens the popup, Enter again (empty
   * chain) launches `ssh beta`.
   */
  lemma PickSecond()
    ensures var store := [Item("alpha"), Item("beta"), Item("gamma")];
      var t := RunKeys(Start("a"), [Down, Enter, Enter], store);
      && FilteredHosts("a", store) == store
      && t.outcome == Spawn
      && LaunchAfter(t.next, store) == Process("ssh", ["beta"])
  {
    var store := [Item("alpha"), Item("beta"), Item("gamma")];
    AllContainA();
    var s0 := Start("a");
    var s1 := s0.(selected := Some(1));
    var s2 := s1.(showPopup := true);
    var s3 := s2.(spawn := true);
    assert s0.Step(Down, store) == Transition(s1, Continue);
    assert s1.SelectedItem(store) == Some(Item("beta"));
    assert s1.Step(Enter, store) == Transition(s2, Continue);
    assert s2.Step(Enter, store) == Transition(s3, Spawn);
    assert [Down, Enter, Enter][1..][1..] == [Enter];
    assert RunKeys(s0, [Down, Enter, Enter], store) == Transition(s3, Spawn);
    assert FirstPiece("beta", ' ') == "beta" by {
      assert RSplitOnce("beta", ' ') == None;
    }
  }

  lemma AllContainA()
    ensures var store := [Item("alpha"), Item("beta"), Item("gamma")];
      FilteredHosts("a", store) == store
  {
    var store := [Item("alpha"), Item("beta"), Item("gamma")];
    assert Contains("alpha", "a");
    assert Contains("beta", "a") by {
      assert "beta"[1..][1..][1..] == "a";
    }
    assert Contains("gamma", "a") by {
      assert "gamma"[1..] == "amma";
    }
    FilterAllKept(HostContains("a"), store);
  }

  /**
   * Completing "h1,w" against h1, web1, db: the chain so far is "h1", the
   * only candidate for "w" is web1, and the display becomes "h1,web1,".
   * Mid-fragment the chain is not confirmable, after the completion it is.
   */
  lemma CompleteChain()
    ensures var store := [Item("h1"), Item("web1"), Item("db")];
      var c := Init().(display := "h1,w");
      var r := c.Complete(store);
      && !c.Finalizable()
      && r == Completed(CompleterState("h1", "h1,web1,", ["web1"], "w", false, 1))
      && r.state.Finalizable()
  {
    var store := [Item("h1"), Item("web1"), Item("db")];
    var c := Init().(display := "h1,w");
    assert !EndsWith(c.display, ',');
    ChainRestart(c, store);
  }

  lemma ChainRestart(c: CompleterState, store: seq<SshItem>)
    requires c.display == "h1,w" && store == [Item("h1"), Item("web1"), Item("db")]
    ensures c.Restart(store) == Completed(c.(jumpers := "h1", search := "w", matches := ["web1"],
      display := "h1,web1,", idx := 1, hasPopupInput := false))
  {
    ChainSplit();
    OnlyWeb1();
    ChainRebuild();
  }

  lemma ChainRebuild()
    ensures Rebuild("h1", "web1") == "h1,web1,"
  {
  }

  lemma ChainSplit()
    ensures SplitChain("h1,w") == ("h1", "w")
  {
    RSplitOnceUnique("h1,w", ',', "h1", "w");
  }

  /**
   * Launching with the chain "h1,web1," runs `ssh -J h1,web1 db`; clearing
   * the chain instead leaves it empty and confirmable.
   */
  lemma LaunchChain()
    ensures var d := CompleterState("h1", "h1,web1,", ["web1"], "w", false, 1);
      && SshArgs(d.display, "db") == ["-J", "h1,web1", "db"]
      && d.Clear().display == "" && d.Clear().Finalizable()
  {
    assert TrimEnd("h1,web1,", ',') == "h1,web1" by {
      assert "h1,web1,"[..7] == "h1,web1";
    }
    assert FirstPiece("db", ' ') == "db" by {
      assert RSplitOnce("db", ' ') == None;
    }
  }

  lemma OnlyWeb1()
    ensures FilteredJumpers([Item("h1"), Item("web1"), Item("db")], "w") == ["web1"]
  {
    var store := [Item("h1"), Item("web1"), Item("db")];
    assert "h1"[..1][0] == 'h' && "db"[..1][0] == 'd' && "web1"[..1] == "w";
    assert !IsPrefix("w", "h1") && IsPrefix("w", "web1") && !IsPrefix("w", "db");
    assert Filter(HostStartsWith("w"), store) == [Item("web1")] by {
      assert store[1..][1..][1..] == [];
    }
  }
}
