/** The command line of dbexport (parseArgs): option flags and up to four
    positional arguments, the target server, database name, query and output
    file name. The process-wide flags the source sets are returned in a
    record, and the two ways the source stops early (exit on an unknown
    option, a panic on an empty argument) are outcomes. */
module CommandLine {
  import opened Optional

  /** The flags and positional arguments of a parsed command line. */
  datatype Options = Options(
    verbose: bool, debug: bool, sqlOut: bool, bulkOut: bool,
    targetDB: string, dbname: string, query: string, outfilename: string)

  datatype ParseResult =
    | Parsed(opts: Options)
    /** An argument starting with `-` that is not an option: the source
        prints it with the usage text and exits with status 1. */
    | InvalidOption(arg: string)
    /** An empty argument: the source reads its first byte and panics. */
    | EmptyArgument

  predicate IsOption(arg: string)
  {
    arg == "-v" || arg == "-debug" || arg == "-sql" || arg == "-bulk"
  }

  /** An argument that stops the parse. */
  predicate Stops(arg: string)
  {
    arg == "" || (arg[0] == '-' && !IsOption(arg))
  }

  predicate IsPositional(arg: string)
  {
    arg != "" && arg[0] != '-'
  }

  /** The positional arguments among `args`, in order. */
  function Positionals(args: seq<string>): (p: seq<string>)
    ensures |p| <= |args|
    ensures forall k :: 0 <= k < |p| ==> IsPositional(p[k])
  {
    if |args| == 0 then []
    else Positionals(args[..|args| - 1]) + (if IsPositional(args[|args| - 1]) then [args[|args| - 1]] else [])
  }

  /** The n-th positional argument, or "" when there are fewer. */
  function PositionalAt(p: seq<string>, n: nat): string
  {
    if n < |p| then p[n] else ""
  }

  /** The options a command line without a stopping argument sets: each flag
      when it occurs anywhere, the first four positional arguments in order;
      any further positional arguments are ignored. */
  function OptionsOf(args: seq<string>): Options
  {
    var p := Positionals(args);
    Options("-v" in args, "-debug" in args, "-sql" in args, "-bulk" in args,
            PositionalAt(p, 0), PositionalAt(p, 1), PositionalAt(p, 2), PositionalAt(p, 3))
  }

  /** The arguments after the program name. */
  function CommandArgs(args: seq<string>): (r: seq<string>)
    ensures |args| >= 1 ==> r == args[1..]
  {
    if |args| < 1 then [] else args[1..]
  }

  /** A positional argument takes the next of the four slots. */
  lemma PositionalsPush(args: seq<string>, arg: string)
    ensures Positionals(args + [arg]) == Positionals(args) + (if IsPositional(arg) then [arg] else [])
  {
    assert (args + [arg])[..|args|] == args;
  }

  /** The slot the n-th positional argument (from 0) fills; from the fifth on
      it fills none. */
  function Fill(o: Options, n: nat, arg: string): (r: Options)
    ensures n >= 4 ==> r == o
  {
    if n == 0 then o.(targetDB := arg)
    else if n == 1 then o.(dbname := arg)
    else if n == 2 then o.(query := arg)
    else if n == 3 then o.(outfilename := arg)
    else o
  }

  /** A flag occurs in a longer command line when it occurred before or is
      the new argument. */
  lemma FlagPush(seen: seq<string>, arg: string, flag: string)
    ensures (flag in seen + [arg]) <==> (flag in seen || arg == flag)
  {
    assert (seen + [arg])[|seen|] == arg;
    if flag in seen + [arg] && arg != flag {
      var k :| 0 <= k < |seen + [arg]| && (seen + [arg])[k] == flag;
      assert seen[k] == flag;
    }
  }

  /** One more argument that does not stop the parse sets its flag, or fills
      the next slot with a positional argument. */
  lemma OptionsPush(seen: seq<string>, arg: string)
    requires !Stops(arg)
    ensures var o := OptionsOf(seen);
      OptionsOf(seen + [arg])
      == Apply(o, |Positionals(seen)|, arg)
  {
    PositionalsPush(seen, arg);
    FlagPush(seen, arg, "-v");
    FlagPush(seen, arg, "-debug");
    FlagPush(seen, arg, "-sql");
    FlagPush(seen, arg, "-bulk");
    var p := Positionals(seen);
    var o, o' := OptionsOf(seen), OptionsOf(seen + [arg]);
    if IsPositional(arg) {
      assert Positionals(seen + [arg]) == p + [arg];
      PositionalAtPush(p, arg, 0);
      PositionalAtPush(p, arg, 1);
      PositionalAtPush(p, arg, 2);
      PositionalAtPush(p, arg, 3);
      assert o'.verbose == o.verbose && o'.debug == o.debug && o'.sqlOut == o.sqlOut && o'.bulkOut == o.bulkOut;
      FillSlots(o, o', |p|, arg);
    } else {
      assert Positionals(seen + [arg]) == p;
    }
  }

  /** The slots after one more positional argument are those Fill gives. */
  lemma FillSlots(o: Options, o': Options, n: nat, arg: string)
    requires o'.verbose == o.verbose && o'.debug == o.debug && o'.sqlOut == o.sqlOut && o'.bulkOut == o.bulkOut
    requires o'.targetDB == if n == 0 then arg else o.targetDB
    requires o'.dbname == if n == 1 then arg else o.dbname
    requires o'.query == if n == 2 then arg else o.query
    requires o'.outfilename == if n == 3 then arg else o.outfilename
    ensures o' == Fill(o, n, arg)
  {
  }

  /** Slot k after one more positional argument. */
  lemma PositionalAtPush(p: seq<string>, arg: string, k: nat)
    ensures PositionalAt(p + [arg], k)
         == if k < |p| then PositionalAt(p, k) else if k == |p| then arg else ""
  {
  }

  /** The options after one more argument that does not stop the parse. */
  function Apply(o: Options, n: nat, arg: string): Options
  {
    if arg == "-v" then o.(verbose := true)
    else if arg == "-debug" then o.(debug := true)
    else if arg == "-sql" then o.(sqlOut := true)
    else if arg == "-bulk" then o.(bulkOut := true)
    else Fill(o, n, arg)
  }

  /** One iteration of parseArgs' loop on an argument other than the program
      name (main_dbexport.go:124-153): set a flag, fill the next positional
      slot, or stop. */
  method ParseArg(o: Options, argOrder: nat, arg: string)
    returns (stop: Option<ParseResult>, o': Options, argOrder': nat)
    ensures stop.Some? <==> Stops(arg)
    ensures stop.Some? ==> stop.value == if arg == "" then EmptyArgument else InvalidOption(arg)
    ensures stop.None? ==> o' == Apply(o, argOrder, arg)
    ensures stop.None? ==> argOrder' == argOrder + (if IsPositional(arg) then 1 else 0)
  {
    var verbose, debug, sqlOut, bulkOut := o.verbose, o.debug, o.sqlOut, o.bulkOut;
    var targetDB, dbname, query, outfilename := o.targetDB, o.dbname, o.query, o.outfilename;
    stop, argOrder' := None, argOrder;
    if arg == "" {
      stop := Some(EmptyArgument);
    } else if arg[0] == '-' {
      if arg == "-v" {
        verbose := true;
      } else if arg == "-debug" {
        debug := true;
      } else if arg == "-sql" {
        sqlOut := true;
      } else if arg == "-bulk" {
        bulkOut := true;
      } else {
        stop := Some(InvalidOption(arg));
      }
    } else {
      argOrder' := argOrder' + 1;
      if argOrder' == 1 {
        targetDB := arg;
      } else if argOrder' == 2 {
        dbname := arg;
      } else if argOrder' == 3 {
        query := arg;
      } else if argOrder' == 4 {
        outfilename := arg;
      }
    }
    o' := Options(verbose, debug, sqlOut, bulkOut, targetDB, dbname, query, outfilename);
  }

  /** parseArgs over the process arguments `args`, of which the first, the
      program name, is skipped (main_dbexport.go:119-157). The first stopping
      argument decides the outcome; otherwise the options are those of the
      whole command line. */
  method ParseArgs(args: seq<string>) returns (r: ParseResult)
    ensures r.Parsed? <==> forall i :: 1 <= i < |args| ==> !Stops(args[i])
    ensures r.Parsed? ==> r.opts == OptionsOf(CommandArgs(args))
    ensures r.EmptyArgument? <==>
      exists i :: 1 <= i < |args| && args[i] == "" && forall j :: 1 <= j < i ==> !Stops(args[j])
    ensures r.InvalidOption? ==>
      exists i :: 1 <= i < |args| && args[i] == r.arg && Stops(args[i]) && forall j :: 1 <= j < i ==> !Stops(args[j])
    ensures r.InvalidOption? ==> r.arg != "" && r.arg[0] == '-' && !IsOption(r.arg)
  {
    var opts := OptionsOf([]);
    var argOrder := 0;
    var i := 0;
    while i < |args|
      invariant 0 <= i <= |args|
      invariant NoStopBefore(args, i)
      invariant var seen := if i < 1 then [] else args[1..i];
        argOrder == |Positionals(seen)| && opts == OptionsOf(seen)
    {
      var arg := args[i];
      if i < 1 {
        // the program name
        i := i + 1;
        continue;
      }
      ghost var seen := args[1..i];
      var stop;
      stop, opts, argOrder := ParseArg(opts, argOrder, arg);
      if stop.Some? {
        FirstStop(args, i);
        return stop.value;
      }
      SeenPush(args, i);
      PositionalsPush(seen, arg);
      OptionsPush(seen, arg);
      i := i + 1;
    }
    NoStop(args);
    r := Parsed(opts);
  }

  /** No argument after the program name and before position i stops the
      parse. */
  predicate NoStopBefore(args: seq<string>, i: nat)
  {
    forall j :: 1 <= j < i && j < |args| ==> !Stops(args[j])
  }

  /** One more argument that does not stop the parse extends the arguments
      seen so far. */
  lemma SeenPush(args: seq<string>, i: nat)
    requires 1 <= i < |args| && NoStopBefore(args, i) && !Stops(args[i])
    ensures args[1..i + 1] == args[1..i] + [args[i]]
    ensures NoStopBefore(args, i + 1)
  {
    assert args[1..i + 1] == args[1..i] + [args[i]];
  }

  /** A command line that nowhere stops the parse. */
  lemma NoStop(args: seq<string>)
    requires NoStopBefore(args, |args|)
    ensures forall i :: 1 <= i < |args| ==> !Stops(args[i])
    ensures (if |args| < 1 then [] else args[1..|args|]) == CommandArgs(args)
  {
  }

  /** The first argument that stops the parse decides its outcome. */
  lemma FirstStop(args: seq<string>, i: nat)
    requires 1 <= i < |args| && NoStopBefore(args, i) && Stops(args[i])
    ensures !forall k :: 1 <= k < |args| ==> !Stops(args[k])
    ensures (args[i] == "") <==>
      exists k :: 1 <= k < |args| && args[k] == "" && forall j :: 1 <= j < k ==> !Stops(args[j])
    ensures exists k :: 1 <= k < |args| && args[k] == args[i] && Stops(args[k]) && forall j :: 1 <= j < k ==> !Stops(args[j])
  {
    if exists k :: 1 <= k < |args| && args[k] == "" && forall j :: 1 <= j < k ==> !Stops(args[j]) {
      var k :| 1 <= k < |args| && args[k] == "" && forall j :: 1 <= j < k ==> !Stops(args[j]);
      assert Stops(args[k]);
      assert k == i;
    }
  }

  /** The usage example `dbexport -sql -bulk SERVER1 defaultdb "select * from
      tbl_test;" outfilename` (main_dbexport.go:40) sets both output flags and
      fills all four slots. */
  lemma UsageLine()
    ensures OptionsOf(["-sql", "-bulk", "SERVER1", "defaultdb", "select * from tbl_test;", "outfilename"])
         == Options(false, false, true, true, "SERVER1", "defaultdb", "select * from tbl_test;", "outfilename")
  {
    var a1 := [] + ["-sql"];
    OptionsPush([], "-sql");
    var a2 := a1 + ["-bulk"];
    OptionsPush(a1, "-bulk");
    PositionalsPush(a1, "-bulk");
    var a3 := a2 + ["SERVER1"];
    OptionsPush(a2, "SERVER1");
    PositionalsPush(a2, "SERVER1");
    var a4 := a3 + ["defaultdb"];
    OptionsPush(a3, "defaultdb");
    PositionalsPush(a3, "defaultdb");
    var a5 := a4 + ["select * from tbl_test;"];
    OptionsPush(a4, "select * from tbl_test;");
    PositionalsPush(a4, "select * from tbl_test;");
    OptionsPush(a5, "outfilename");
    assert a5 + ["outfilename"] == ["-sql", "-bulk", "SERVER1", "defaultdb", "select * from tbl_test;", "outfilename"];
  }
}
