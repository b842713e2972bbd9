/**
  The bundle's command dispatcher (__main__.py): the first argument names
  a command directly or through an alias; a known command runs with that
  argument removed from the argument vector, anything else prints the
  usage with every command, its explanation and its aliases, in sorted
  order.
*/
module Dispatch {
  import opened Wrappers

  /** The commands and their one-line explanations. */
  const Explanations: map<string, string> := map[
    "make_provisioner" := "Creates a self-extracting installer from a directory",
    "fedora2ova" := "Builds an OVA from a raw *.img fedora-cloud image"
  ]

  /** Alternative names, each mapped to the command it stands for. */
  const Aliases: map<string, string> := map["provision" := "make_provisioner"]

  /** The command a name selects: itself when it is a command, else the command it is an alias of. */
  function Resolve(explanations: map<string, string>, aliases: map<string, string>, wanted: string): (r: Option<string>)
    ensures wanted in explanations ==> r == Some(wanted)
    ensures wanted !in explanations && wanted in aliases ==> r == Some(aliases[wanted])
    ensures r.None? <==> wanted !in explanations && wanted !in aliases
  {
    if wanted in explanations then Some(wanted)
    else if wanted in aliases then Some(aliases[wanted])
    else None
  }

  /** Every alias names a command. */
  predicate AliasesClosed(explanations: map<string, string>, aliases: map<string, string>)
  {
    forall a :: a in aliases ==> aliases[a] in explanations
  }

  /** When every alias names a command, every resolved name is a command. */
  lemma ResolveNamesCommand(explanations: map<string, string>, aliases: map<string, string>, wanted: string)
    requires AliasesClosed(explanations, aliases)
    ensures Resolve(explanations, aliases, wanted).Some? ==> Resolve(explanations, aliases, wanted).value in explanations
  {
  }

  /** The bundle's own tables: `provision` stands for `make_provisioner`, other names resolve to nothing. */
  lemma BundleTables(wanted: string)
    ensures AliasesClosed(Explanations, Aliases)
    ensures Resolve(Explanations, Aliases, "provision") == Some("make_provisioner")
    ensures wanted != "provision" && wanted != "make_provisioner" && wanted != "fedora2ova" ==>
              Resolve(Explanations, Aliases, wanted).None?
  {
  }

  // ---------------------------------------------------------------------------
  // Substrings and ordering of names

  /** `sub in s` for strings. */
  predicate HasSubstring(s: string, sub: string)
    decreases |s|
  {
    (|sub| <= |s| && s[..|sub|] == sub) || (|s| > 0 && HasSubstring(s[1..], sub))
  }

  /** A substring occurrence at a given offset. */
  lemma {:induction false} SubstringAt(s: string, sub: string, i: nat)
    requires i + |sub| <= |s| && s[i..i + |sub|] == sub
    ensures HasSubstring(s, sub)
    decreases i
  {
    if i > 0 {
      assert s[1..][i - 1..i - 1 + |sub|] == sub;
      SubstringAt(s[1..], sub, i - 1);
    }
  }

  /** Python's `<` on strings: code point by code point, a proper prefix first. */
  predicate LexLess(a: string, b: string)
    decreases |a|
  {
    |b| > 0 && (|a| == 0 || a[0] < b[0] || (a[0] == b[0] && LexLess(a[1..], b[1..])))
  }

  lemma {:induction false} LexLessIrreflexive(a: string)
    ensures !LexLess(a, a)
    decreases |a|
  {
    if |a| > 0 {
      LexLessIrreflexive(a[1..]);
    }
  }

  lemma {:induction false} LexLessTransitive(a: string, b: string, c: string)
    requires LexLess(a, b) && LexLess(b, c)
    ensures LexLess(a, c)
    decreases |a|
  {
    if |a| > 0 && a[0] == b[0] && b[0] == c[0] {
      LexLessTransitive(a[1..], b[1..], c[1..]);
    }
  }

  lemma {:induction false} LexLessTotal(a: string, b: string)
    requires a != b
    ensures LexLess(a, b) || LexLess(b, a)
    decreases |a|
  {
    if |a| > 0 && |b| > 0 && a[0] == b[0] {
      assert a == [a[0]] + a[1..] && b == [b[0]] + b[1..];
      LexLessTotal(a[1..], b[1..]);
    }
  }

  /** Strictly increasing, so also free of duplicates. */
  predicate Sorted(s: seq<string>)
  {
    forall i, j :: 0 <= i < j < |s| ==> LexLess(s[i], s[j])
  }

  /** The least element of a non-empty set of names. */
  method Least(names: set<string>) returns (m: string)
    requires names != {}
    ensures m in names
    ensures forall x :: x in names && x != m ==> LexLess(m, x)
  {
    m :| m in names;
    var rest := names - {m};
    while rest != {}
      invariant m in names && rest <= names
      invariant forall x :: x in names && x !in rest && x != m ==> LexLess(m, x)
      decreases |rest|
    {
      var x :| x in rest;
      if x != m {
        LexLessTotal(m, x);
        if LexLess(x, m) {
          forall y | y in names && y !in rest && y != x
            ensures LexLess(x, y)
          {
            if y != m {
              LexLessTransitive(x, m, y);
            }
          }
          m := x;
        }
      }
      rest := rest - {x};
    }
  }

  /** `sorted(names)`. */
  method SortedNames(names: set<string>) returns (out: seq<string>)
    ensures Sorted(out)
    ensures forall x :: x in names <==> x in out
    ensures |out| == |names|
  {
    out := [];
    var rest := names;
    while rest != {}
      invariant rest <= names
      invariant Sorted(out)
      invariant forall x :: x in names <==> x in out || x in rest
      invariant forall x :: x in out ==> x !in rest
      invariant forall i, x :: 0 <= i < |out| && x in rest ==> LexLess(out[i], x)
      invariant |out| + |rest| == |names|
      decreases |rest|
    {
      var m := Least(rest);
      out := out + [m];
      rest := rest - {m};
    }
  }

  /**
    The aliases of each command. `None` when an alias names something that
    is not a command, where the source's `alias_map[v]` raises KeyError.
  */
  method InvertAliases(explanations: map<string, string>, aliases: map<string, string>) returns (r: Option<map<string, set<string>>>)
    ensures r.None? <==> !AliasesClosed(explanations, aliases)
    ensures r.Some? ==> r.value.Keys == explanations.Keys
    ensures r.Some? ==> forall c :: c in explanations.Keys ==> r.value[c] == set a | a in aliases && aliases[a] == c
  {
    var acc: map<string, set<string>> := map c | c in explanations.Keys :: {};
    var rest := aliases.Keys;
    while rest != {}
      invariant rest <= aliases.Keys
      invariant acc.Keys == explanations.Keys
      invariant forall a :: a in aliases && a !in rest ==> aliases[a] in explanations
      invariant forall c :: c in explanations.Keys ==> acc[c] == set a | a in aliases && a !in rest && aliases[a] == c
      decreases |rest|
    {
      var k :| k in rest;
      var v := aliases[k];
      if v !in acc {
        return None;
      }
      acc := acc[v := acc[v] + {k}];
      rest := rest - {k};
    }
    return Some(acc);
  }

  // ---------------------------------------------------------------------------
  // The dispatcher

  /** One command in the usage listing: name, explanation and aliases (printed when there are any). */
  datatype Listing = Listing(command: string, explanation: string, aliases: set<string>)

  datatype Crash =
    | NoArgument                     // `sys.argv[1]` raises IndexError
    | UnknownAliasTarget             // `alias_map[v]` raises KeyError

  datatype Outcome =
    | Crashed(crash: Crash)
    | RunModule(moduleName: string, argv: seq<string>)     // `runpy.run_module`, then exit status 0
    | Usage(stderr: seq<string>, header: seq<string>, listing: seq<Listing>)   // then exit status 0

  /** The fixed usage header, naming the program as it was invoked. */
  function Header(program: string): seq<string>
  {
    ["cloud-maker: a zip/dir bundle of cloud tools", "",
     "Usage: " + program + " COMMAND [command's options]", "",
     "Known commands (try `COMMAND --help` for more on a command):", ""]
  }

  /** Asking for help by name is not an unrecognized command. */
  predicate AsksForHelp(wanted: string)
  {
    wanted == "-h" || HasSubstring(wanted, "help")
  }

  /**
    The usage listing: every command once, in sorted order, with its
    explanation and the aliases that name it.
  */
  ghost predicate ListsCommands(listing: seq<Listing>, explanations: map<string, string>, aliases: map<string, string>)
  {
    && |listing| == |explanations|
    && (forall i, j :: 0 <= i < j < |listing| ==> LexLess(listing[i].command, listing[j].command))
    && (forall c :: c in explanations <==> exists i :: 0 <= i < |listing| && listing[i].command == c)
    && (forall i :: 0 <= i < |listing| ==>
          && listing[i].explanation == explanations[listing[i].command]
          && listing[i].aliases == set a | a in aliases && aliases[a] == listing[i].command)
  }

  /** One listing line per command, in the order given. */
  method Entries(commands: seq<string>, explanations: map<string, string>, aliasMap: map<string, set<string>>)
    returns (listing: seq<Listing>)
    requires forall c :: c in commands ==> c in explanations && c in aliasMap
    ensures |listing| == |commands|
    ensures forall j :: 0 <= j < |commands| ==>
              listing[j] == Listing(commands[j], explanations[commands[j]], aliasMap[commands[j]])
  {
    listing := [];
    var i := 0;
    while i < |commands|
      invariant 0 <= i <= |commands|
      invariant |listing| == i
      invariant forall j :: 0 <= j < i ==>
                  listing[j] == Listing(commands[j], explanations[commands[j]], aliasMap[commands[j]])
    {
      listing := listing + [Listing(commands[i], explanations[commands[i]], aliasMap[commands[i]])];
      i := i + 1;
    }
  }

  /** The listing loop over `sorted(explanations.keys())`. */
  method ListCommands(explanations: map<string, string>, aliasMap: map<string, set<string>>)
    returns (listing: seq<Listing>)
    requires aliasMap.Keys == explanations.Keys
    ensures |listing| == |explanations|
    ensures forall i, j :: 0 <= i < j < |listing| ==> LexLess(listing[i].command, listing[j].command)
    ensures forall c :: c in explanations <==> exists i :: 0 <= i < |listing| && listing[i].command == c
    ensures forall i :: 0 <= i < |listing| ==>
              listing[i].command in explanations
              && listing[i] == Listing(listing[i].command, explanations[listing[i].command], aliasMap[listing[i].command])
  {
    var commands := SortedNames(explanations.Keys);
    listing := Entries(commands, explanations, aliasMap);
    ListingSorted(commands, listing, explanations, aliasMap);
    ListingCovers(commands, listing, explanations, aliasMap);
    ListingEntries(commands, listing, explanations, aliasMap);
  }

  /** A listing made entry by entry from sorted names is sorted by command. */
  lemma ListingSorted(commands: seq<string>, listing: seq<Listing>,
                      explanations: map<string, string>, aliasMap: map<string, set<string>>)
    requires Sorted(commands) && |listing| == |commands|
    requires forall j :: 0 <= j < |commands| ==> commands[j] in explanations && commands[j] in aliasMap
    requires forall j :: 0 <= j < |commands| ==>
               listing[j] == Listing(commands[j], explanations[commands[j]], aliasMap[commands[j]])
    ensures forall i, j :: 0 <= i < j < |listing| ==> LexLess(listing[i].command, listing[j].command)
  {
    assert forall j :: 0 <= j < |commands| ==> listing[j].command == commands[j];
  }

  /** A listing made entry by entry from exactly the command names names each command once. */
  lemma ListingCovers(commands: seq<string>, listing: seq<Listing>,
                      explanations: map<string, string>, aliasMap: map<string, set<string>>)
    requires |commands| == |explanations.Keys| && |listing| == |commands|
    requires forall x :: x in explanations.Keys <==> x in commands
    requires forall j :: 0 <= j < |commands| ==> commands[j] in explanations && commands[j] in aliasMap
    requires forall j :: 0 <= j < |commands| ==>
               listing[j] == Listing(commands[j], explanations[commands[j]], aliasMap[commands[j]])
    ensures |listing| == |explanations|
    ensures forall c :: c in explanations <==> exists i :: 0 <= i < |listing| && listing[i].command == c
  {
    forall c | c in explanations
      ensures exists j :: 0 <= j < |listing| && listing[j].command == c
    {
      var j :| 0 <= j < |commands| && commands[j] == c;
      assert listing[j].command == c;
    }
  }

  /** Each entry of such a listing carries its command's explanation and aliases. */
  lemma ListingEntries(commands: seq<string>, listing: seq<Listing>,
                       explanations: map<string, string>, aliasMap: map<string, set<string>>)
    requires |listing| == |commands|
    requires forall j :: 0 <= j < |commands| ==> commands[j] in explanations && commands[j] in aliasMap
    requires forall j :: 0 <= j < |commands| ==>
               listing[j] == Listing(commands[j], explanations[commands[j]], aliasMap[commands[j]])
    ensures forall i :: 0 <= i < |listing| ==>
              listing[i].command in explanations
              && listing[i] == Listing(listing[i].command, explanations[listing[i].command], aliasMap[listing[i].command])
  {
  }

  /** What goes to standard error before the usage: a complaint unless the name asks for help. */
  function Complaint(wanted: string): (r: seq<string>)
    ensures r != [] <==> !AsksForHelp(wanted)
    ensures r != [] ==> r == ["Unrecognized command: " + wanted, ""]
  {
    if AsksForHelp(wanted) then [] else ["Unrecognized command: " + wanted, ""]
  }

  /** The whole dispatcher for the argument vector `argv`. */
  method Dispatch(explanations: map<string, string>, aliases: map<string, string>, argv: seq<string>)
    returns (o: Outcome)
    ensures |argv| < 2 ==> o == Crashed(NoArgument)
    ensures |argv| >= 2 && Resolve(explanations, aliases, argv[1]).Some? ==>
              o == RunModule(Resolve(explanations, aliases, argv[1]).value, [argv[0]] + argv[2..])
    ensures |argv| >= 2 && Resolve(explanations, aliases, argv[1]).None? && !AliasesClosed(explanations, aliases) ==>
              o == Crashed(UnknownAliasTarget)
    ensures |argv| >= 2 && Resolve(explanations, aliases, argv[1]).None? && AliasesClosed(explanations, aliases) ==>
              && o.Usage?
              && (o.stderr != [] <==> !AsksForHelp(argv[1]))
              && (o.stderr != [] ==> o.stderr == ["Unrecognized command: " + argv[1], ""])
              && o.header == Header(argv[0])
              && ListsCommands(o.listing, explanations, aliases)
  {
    if |argv| < 2 {
      return Crashed(NoArgument);
    }
    var wanted := argv[1];
    var resolved := Resolve(explanations, aliases, wanted);
    if resolved.Some? {
      return RunModule(resolved.value, argv[..1] + argv[2..]);
    }
    o := ShowUsage(explanations, aliases, argv[0], wanted);
  }

  /** The usage branch: the complaint, the header and the listing, or the crash while inverting the aliases. */
  method ShowUsage(explanations: map<string, string>, aliases: map<string, string>, program: string, wanted: string)
    returns (o: Outcome)
    ensures !AliasesClosed(explanations, aliases) ==> o == Crashed(UnknownAliasTarget)
    ensures AliasesClosed(explanations, aliases) ==>
              && o.Usage?
              && o.stderr == Complaint(wanted)
              && o.header == Header(program)
              && ListsCommands(o.listing, explanations, aliases)
  {
    var aliasMap := InvertAliases(explanations, aliases);
    if aliasMap.None? {
      return Crashed(UnknownAliasTarget);
    }
    var listing := ListCommands(explanations, aliasMap.value);
    ListingWithInvertedAliases(listing, explanations, aliases, aliasMap.value);
    return Usage(Complaint(wanted), Header(program), listing);
  }

  /** The listing over the inverted alias table is the usage listing. */
  lemma ListingWithInvertedAliases(listing: seq<Listing>, explanations: map<string, string>,
                                   aliases: map<string, string>, aliasMap: map<string, set<string>>)
    requires aliasMap.Keys == explanations.Keys
    requires forall c :: c in explanations.Keys ==> aliasMap[c] == set a | a in aliases && aliases[a] == c
    requires |listing| == |explanations|
    requires forall i, j :: 0 <= i < j < |listing| ==> LexLess(listing[i].command, listing[j].command)
    requires forall c :: c in explanations <==> exists i :: 0 <= i < |listing| && listing[i].command == c
    requires forall i :: 0 <= i < |listing| ==>
               listing[i].command in explanations
               && listing[i] == Listing(listing[i].command, explanations[listing[i].command], aliasMap[listing[i].command])
    ensures ListsCommands(listing, explanations, aliases)
  {
  }

  /** `help` anywhere in the name, and `-h`, ask for the usage without a complaint. */
  lemma HelpIsNotAComplaint(prefix: string, suffix: string)
    ensures AsksForHelp(prefix + "help" + suffix)
    ensures AsksForHelp("-h")
  {
    var s := prefix + "help" + suffix;
    assert s[|prefix|..|prefix| + 4] == "help";
    SubstringAt(s, "help", |prefix|);
  }
}
