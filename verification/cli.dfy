/** The command-line scanner `parse_args`: the arguments after the program
    name are read left to right, and the first one that decides the outcome
    wins. Printing the help and version texts is not modelled; only the
    returned value is. */
module Cli {
  import opened Wrappers

  /** The process exit status the scanner asks for when it stops early. */
  datatype ExitCode = Success | Failure

  datatype ParsedArgs = ParsedArgs(config: Option<string>)

  /** How one argument is read. */
  datatype ArgKind = Version | Help | BadOption | Positional

  function Classify(arg: string): (k: ArgKind)
    ensures k == Positional <==> !("-" <= arg)
    ensures k == BadOption ==> "-" <= arg && arg != "-V" && arg != "-v" && arg != "-h"
  {
    if arg == "-V" || arg == "-v" || arg == "--version" then Version
    else if arg == "-h" || arg == "--help" then Help
    else if "-" <= arg then BadOption
    else Positional
  }

  /** A reference reading of the scan, one argument at a time, with the
      configuration file seen so far. */
  function Scan(args: seq<string>, config: Option<string>): Result<ParsedArgs, ExitCode>
    decreases |args|
  {
    if |args| == 0 then Ok(ParsedArgs(config))
    else
      match Classify(args[0])
      case Version => Err(Success)
      case Help => Err(Success)
      case BadOption => Err(Failure)
      case Positional =>
        if config.None? then Scan(args[1..], Some(args[0])) else Err(Failure)
  }

  /** The whole command line: `args[0]` is the program name and is
      skipped. */
  function Parse(args: seq<string>): Result<ParsedArgs, ExitCode> {
    if |args| <= 1 then Ok(ParsedArgs(None)) else Scan(args[1..], None)
  }

  /** `parse_args`, as the loop the source runs. */
  method ParseArgs(args: seq<string>) returns (r: Result<ParsedArgs, ExitCode>)
    ensures r == Parse(args)
  {
    var config: Option<string> := None;
    var i := 1;
    while i < |args|
      invariant 1 <= i <= |args| || (|args| == 0 && i == 1)
      invariant |args| > 1 ==> Scan(args[1..], None) == Scan(args[i..], config)
      invariant |args| <= 1 ==> config == None
      decreases |args| - i
    {
      var arg := args[i];
      assert args[i..][0] == arg && args[i..][1..] == args[i + 1..];
      if arg == "-V" || arg == "-v" || arg == "--version" {
        return Err(Success);
      }
      if arg == "-h" || arg == "--help" {
        return Err(Success);
      }
      if "-" <= arg {
        return Err(Failure);
      }
      if config.None? {
        config := Some(arg);
      } else {
        return Err(Failure);
      }
      i := i + 1;
    }
    r := Ok(ParsedArgs(config));
  }

  predicate AllPositional(args: seq<string>) {
    forall k :: 0 <= k < |args| ==> Classify(args[k]) == Positional
  }

  /** The scan succeeds exactly when every argument is positional and there
      is at most one; the one given, if any, is the configuration file. */
  lemma {:induction false} ScanOkIff(args: seq<string>)
    ensures Scan(args, None).Ok? <==> AllPositional(args) && |args| <= 1
    ensures Scan(args, None).Ok? ==>
              Scan(args, None).value.config == (if |args| == 0 then None else Some(args[0]))
  {
    if |args| > 0 && Classify(args[0]) == Positional {
      var tail := args[1..];
      if |tail| > 0 {
        assert tail[0] == args[1];
        assert Scan(args, None) == Scan(tail, Some(args[0]));
        if Classify(tail[0]) == Positional {
          assert Scan(tail, Some(args[0])) == Err(Failure);
        }
      }
    }
  }

  /** Once the scan of a prefix has decided, later arguments change
      nothing. */
  lemma {:induction false} DecidedPrefix(pre: seq<string>, post: seq<string>, config: Option<string>)
    requires Scan(pre, config).Err?
    ensures Scan(pre + post, config) == Scan(pre, config)
    decreases |pre|
  {
    assert (pre + post)[0] == pre[0];
    assert (pre + post)[1..] == pre[1..] + post;
    if Classify(pre[0]) == Positional && config.None? {
      DecidedPrefix(pre[1..], post, Some(pre[0]));
    }
  }

  /** At most the first two arguments after the program name decide the
      result: by then an option has stopped the scan or a second file has
      been refused. */
  lemma DecidedByFirstTwo(args: seq<string>)
    requires |args| > 3
    ensures Parse(args) == Parse(args[..3])
  {
    var pre := args[1..3];
    var post := args[3..];
    assert args[1..] == pre + post;
    assert args[..3][1..] == pre;
    ScanOkIff(pre);
    DecidedPrefix(pre, post, None);
  }

  /** The program name is never inspected. */
  lemma ProgramNameIgnored(args: seq<string>, name: string)
    requires |args| >= 1
    ensures Parse([name] + args[1..]) == Parse(args)
  {
    assert ([name] + args[1..])[1..] == args[1..];
  }

  /** Every argument counts as a configuration file unless it starts with a
      dash, and only one is accepted. */
  lemma ParseOkIff(args: seq<string>)
    ensures Parse(args).Ok? <==> |args| <= 2 && (|args| == 2 ==> !("-" <= args[1]))
    ensures Parse(args).Ok? ==> Parse(args).value.config == if |args| == 2 then Some(args[1]) else None
  {
    if |args| > 1 {
      ScanOkIff(args[1..]);
      assert args[1..][0] == args[1];
    }
  }

  /** The examples: no arguments, a configuration file, a version flag
      after it, a second file, and a lone dash. */
  lemma ScanExamples()
    ensures Scan([], None) == Ok(ParsedArgs(None))
    ensures Scan(["jolly.toml"], None) == Ok(ParsedArgs(Some("jolly.toml")))
    ensures Scan(["a.toml", "--version"], None) == Err(Success)
    ensures Scan(["a.toml", "b.toml"], None) == Err(Failure)
    ensures Scan(["-"], None) == Err(Failure)
  {
    assert ["a.toml", "--version"][1..] == ["--version"];
    assert ["a.toml", "b.toml"][1..] == ["b.toml"];
    assert ["jolly.toml"][1..] == [];
    assert "jolly.toml"[0] == 'j';
  }
}
