/**
 * The command-line parsing at the start of main: the first token is the
 * source directory; the flags /sub, /s <factor>, /n, /r and /c <dir> are
 * matched case-insensitively from left to right, unknown tokens are skipped,
 * and the fixed error exits stop the program before any work starts.
 */
module Arguments {
  import opened Wrappers
  import opened Names

  /** The error exits of main, in the order the source checks them. */
  datatype ArgError =
    | TooFewArguments     // fewer than two tokens
    | InvalidScaleFactor  // /s followed by a token the number parser rejects
    | MissingScaleFactor  // /s as the last token
    | MissingCopyPath     // /c as the last token
    | NoOperation         // no operation flag at all

  /** The settings the loop builds up; `operation` is null until an operation flag is seen. */
  datatype Flags = Flags(recursive: bool, operation: Option<string>, scaleFactor: Option<real>, copyDir: Option<string>)

  /** The run configuration main starts the walk with. */
  datatype Config = Config(sourceDir: string, recursive: bool, operation: string, scaleFactor: Option<real>, copyDir: Option<string>)

  const NoFlags: Flags := Flags(false, None, None, None)

  /** The operation names the flags select. */
  const Operations: set<string> := {"scale", "negative", "remove", "copy"}

  /**
   * `equalsIgnoreCase`: the strings have the same length and agree character
   * by character once both characters are lowered.
   */
  predicate EqualsIgnoreCase(a: string, b: string): (r: bool)
    ensures r <==> |a| == |b| && forall i :: 0 <= i < |a| ==> LowerChar(a[i]) == LowerChar(b[i])
  {
    Lower(a) == Lower(b)
  }

  /** The flags are already lower case, so matching one means lowering to it. */
  lemma FlagsAreLowerCase()
    ensures Lower("/sub") == "/sub" && Lower("/s") == "/s" && Lower("/n") == "/n"
    ensures Lower("/r") == "/r" && Lower("/c") == "/c"
  {
  }

  predicate IsOperationFlag(token: string)
  {
    EqualsIgnoreCase(token, "/s") || EqualsIgnoreCase(token, "/n") || EqualsIgnoreCase(token, "/r") || EqualsIgnoreCase(token, "/c")
  }

  predicate IsFlag(token: string)
  {
    EqualsIgnoreCase(token, "/sub") || IsOperationFlag(token)
  }

  /**
   * The flag loop from position `i` on, given the settings so far and the
   * number parser `parseDouble` (None where Double.parseDouble throws).
   */
  function Scan(args: seq<string>, i: nat, flags: Flags, parseDouble: string -> Option<real>): (r: Result<Flags, ArgError>)
    ensures r.Err? ==> r.error == InvalidScaleFactor || r.error == MissingScaleFactor || r.error == MissingCopyPath
    ensures r.Ok? && flags.recursive ==> r.value.recursive
    ensures r.Ok? && flags.operation.Some? ==> r.value.operation.Some?
    decreases |args| - i
  {
    if i >= |args| then Ok(flags)
    else if EqualsIgnoreCase(args[i], "/sub") then
      Scan(args, i + 1, flags.(recursive := true), parseDouble)
    else if EqualsIgnoreCase(args[i], "/s") then
      if i + 1 < |args| then
        match parseDouble(args[i + 1])
        case None => Err(InvalidScaleFactor)
        case Some(factor) => Scan(args, i + 2, flags.(operation := Some("scale"), scaleFactor := Some(factor)), parseDouble)
      else Err(MissingScaleFactor)
    else if EqualsIgnoreCase(args[i], "/n") then
      Scan(args, i + 1, flags.(operation := Some("negative")), parseDouble)
    else if EqualsIgnoreCase(args[i], "/r") then
      Scan(args, i + 1, flags.(operation := Some("remove")), parseDouble)
    else if EqualsIgnoreCase(args[i], "/c") then
      if i + 1 < |args| then
        Scan(args, i + 2, flags.(operation := Some("copy"), copyDir := Some(args[i + 1])), parseDouble)
      else Err(MissingCopyPath)
    else
      Scan(args, i + 1, flags, parseDouble)
  }

  /** The check after the loop: an operation must have been chosen. */
  function Finish(sourceDir: string, flags: Flags): (r: Result<Config, ArgError>)
    ensures r.Ok? <==> flags.operation.Some?
    ensures r.Err? ==> r.error == NoOperation
    ensures r.Ok? ==> && r.value.sourceDir == sourceDir && r.value.recursive == flags.recursive
                      && flags.operation == Some(r.value.operation)
                      && r.value.scaleFactor == flags.scaleFactor && r.value.copyDir == flags.copyDir
  {
    if flags.operation.None? then Err(NoOperation)
    else Ok(Config(sourceDir, flags.recursive, flags.operation.value, flags.scaleFactor, flags.copyDir))
  }

  /** What main makes of its arguments. */
  function Parse(args: seq<string>, parseDouble: string -> Option<real>): (r: Result<Config, ArgError>)
    ensures r == Err(TooFewArguments) <==> |args| < 2
    ensures r.Ok? ==> r.value.sourceDir == args[0]
  {
    if |args| < 2 then Err(TooFewArguments)
    else match Scan(args, 1, NoFlags, parseDouble)
      case Err(e) => Err(e)
      case Ok(flags) => Finish(args[0], flags)
  }

  /**
   * The parsing code of main, step by step: a loop over the tokens that may
   * skip the token after /s or /c and leaves at the first error.
   */
  method ParseArguments(args: seq<string>, parseDouble: string -> Option<real>) returns (r: Result<Config, ArgError>)
    ensures r == Parse(args, parseDouble)
  {
    if |args| < 2 {
      return Err(TooFewArguments);
    }
    var sourceDir := args[0];
    var recursive := false;
    var operation: Option<string> := None;
    var scaleFactor: Option<real> := None;
    var copyDir: Option<string> := None;
    var i := 1;
    while i < |args|
      invariant 1 <= i <= |args|
      invariant Scan(args, 1, NoFlags, parseDouble) == Scan(args, i, Flags(recursive, operation, scaleFactor, copyDir), parseDouble)
    {
      if EqualsIgnoreCase(args[i], "/sub") {
        recursive := true;
      } else if EqualsIgnoreCase(args[i], "/s") {
        operation := Some("scale");
        if i + 1 < |args| {
          var factor := parseDouble(args[i + 1]);
          if factor.None? {
            return Err(InvalidScaleFactor);
          }
          scaleFactor := factor;
          i := i + 1;
        } else {
          return Err(MissingScaleFactor);
        }
      } else if EqualsIgnoreCase(args[i], "/n") {
        operation := Some("negative");
      } else if EqualsIgnoreCase(args[i], "/r") {
        operation := Some("remove");
      } else if EqualsIgnoreCase(args[i], "/c") {
        operation := Some("copy");
        if i + 1 < |args| {
          copyDir := Some(args[i + 1]);
          i := i + 1;
        } else {
          return Err(MissingCopyPath);
        }
      }
      i := i + 1;
    }
    if operation.None? {
      return Err(NoOperation);
    }
    r := Ok(Config(sourceDir, recursive, operation.value, scaleFactor, copyDir));
  }

  // ---------------------------------------------------------------------------
  // Properties of the parse
  // ---------------------------------------------------------------------------

  /** Settings that a run can start from: a known operation with the value it needs. */
  predicate Consistent(flags: Flags)
  {
    && (flags.operation.Some? ==> flags.operation.value in Operations)
    && (flags.operation == Some("scale") ==> flags.scaleFactor.Some?)
    && (flags.operation == Some("copy") ==> flags.copyDir.Some?)
  }

  lemma {:induction false} ScanKeepsConsistent(args: seq<string>, i: nat, flags: Flags, parseDouble: string -> Option<real>)
    requires Consistent(flags) && Scan(args, i, flags, parseDouble).Ok?
    ensures Consistent(Scan(args, i, flags, parseDouble).value)
    decreases |args| - i
  {
    if i < |args| {
      var t := args[i];
      if EqualsIgnoreCase(t, "/sub") {
        ScanKeepsConsistent(args, i + 1, flags.(recursive := true), parseDouble);
      } else if EqualsIgnoreCase(t, "/s") {
        var factor := parseDouble(args[i + 1]).value;
        ScanKeepsConsistent(args, i + 2, flags.(operation := Some("scale"), scaleFactor := Some(factor)), parseDouble);
      } else if EqualsIgnoreCase(t, "/n") {
        ScanKeepsConsistent(args, i + 1, flags.(operation := Some("negative")), parseDouble);
      } else if EqualsIgnoreCase(t, "/r") {
        ScanKeepsConsistent(args, i + 1, flags.(operation := Some("remove")), parseDouble);
      } else if EqualsIgnoreCase(t, "/c") {
        ScanKeepsConsistent(args, i + 2, flags.(operation := Some("copy"), copyDir := Some(args[i + 1])), parseDouble);
      } else {
        ScanKeepsConsistent(args, i + 1, flags, parseDouble);
      }
    }
  }

  /**
   * A successful parse takes the source directory from the first token and
   * yields one of the four operations, with a scale factor for scale and a
   * destination for copy.
   */
  lemma ParsedConfigIsComplete(args: seq<string>, parseDouble: string -> Option<real>, config: Config)
    requires Parse(args, parseDouble) == Ok(config)
    ensures |args| >= 2 && config.sourceDir == args[0]
    ensures config.operation in Operations
    ensures config.operation == "scale" ==> config.scaleFactor.Some?
    ensures config.operation == "copy" ==> config.copyDir.Some?
  {
    ScanKeepsConsistent(args, 1, NoFlags, parseDouble);
  }

  /** Without any operation flag the parse fails: too few tokens, or no operation. */
  lemma {:induction false} ScanWithoutOperation(args: seq<string>, i: nat, flags: Flags, parseDouble: string -> Option<real>)
    requires forall k :: i <= k < |args| ==> !IsOperationFlag(args[k])
    ensures Scan(args, i, flags, parseDouble).Ok?
    ensures Scan(args, i, flags, parseDouble).value.operation == flags.operation
    decreases |args| - i
  {
    if i < |args| {
      if EqualsIgnoreCase(args[i], "/sub") {
        ScanWithoutOperation(args, i + 1, flags.(recursive := true), parseDouble);
      } else {
        ScanWithoutOperation(args, i + 1, flags, parseDouble);
      }
    }
  }

  lemma ParseWithoutOperation(args: seq<string>, parseDouble: string -> Option<real>)
    requires forall k :: 1 <= k < |args| ==> !IsOperationFlag(args[k])
    ensures |args| < 2 ==> Parse(args, parseDouble) == Err(TooFewArguments)
    ensures |args| >= 2 ==> Parse(args, parseDouble) == Err(NoOperation)
  {
    ScanWithoutOperation(args, 1, NoFlags, parseDouble);
  }

  /**
   * A scan that finishes without error over `args` continues over any
   * extension of `args` from the end of `args`: the tokens already read are
   * read the same way whatever follows them.
   */
  lemma {:induction false} ScanExtends(args: seq<string>, more: seq<string>, i: nat, flags: Flags, parseDouble: string -> Option<real>)
    requires i <= |args| && Scan(args, i, flags, parseDouble).Ok?
    ensures Scan(args + more, i, flags, parseDouble) == Scan(args + more, |args|, Scan(args, i, flags, parseDouble).value, parseDouble)
    decreases |args| - i
  {
    if i < |args| {
      var all := args + more;
      assert all[i] == args[i];
      var t := args[i];
      if EqualsIgnoreCase(t, "/sub") {
        ScanExtends(args, more, i + 1, flags.(recursive := true), parseDouble);
      } else if EqualsIgnoreCase(t, "/s") {
        assert all[i + 1] == args[i + 1];
        var factor := parseDouble(args[i + 1]).value;
        ScanExtends(args, more, i + 2, flags.(operation := Some("scale"), scaleFactor := Some(factor)), parseDouble);
      } else if EqualsIgnoreCase(t, "/n") {
        ScanExtends(args, more, i + 1, flags.(operation := Some("negative")), parseDouble);
      } else if EqualsIgnoreCase(t, "/r") {
        ScanExtends(args, more, i + 1, flags.(operation := Some("remove")), parseDouble);
      } else if EqualsIgnoreCase(t, "/c") {
        assert all[i + 1] == args[i + 1];
        ScanExtends(args, more, i + 2, flags.(operation := Some("copy"), copyDir := Some(args[i + 1])), parseDouble);
      } else {
        ScanExtends(args, more, i + 1, flags, parseDouble);
      }
    }
  }

  /**
   * One more token after a clean scan: an operation flag replaces the
   * operation chosen so far (the last one wins), /sub turns recursion on,
   * /s or /c with nothing after them are errors, and any other token is
   * ignored.  Flags match in any letter case.
   */
  lemma AppendToken(args: seq<string>, t: string, parseDouble: string -> Option<real>)
    requires |args| >= 1 && Scan(args, 1, NoFlags, parseDouble).Ok?
    ensures var f := Scan(args, 1, NoFlags, parseDouble).value;
      && (EqualsIgnoreCase(t, "/n") ==> Parse(args + [t], parseDouble) == Ok(Config(args[0], f.recursive, "negative", f.scaleFactor, f.copyDir)))
      && (EqualsIgnoreCase(t, "/r") ==> Parse(args + [t], parseDouble) == Ok(Config(args[0], f.recursive, "remove", f.scaleFactor, f.copyDir)))
      && (EqualsIgnoreCase(t, "/sub") ==> Parse(args + [t], parseDouble) == Finish(args[0], f.(recursive := true)))
      && (EqualsIgnoreCase(t, "/s") ==> Parse(args + [t], parseDouble) == Err(MissingScaleFactor))
      && (EqualsIgnoreCase(t, "/c") ==> Parse(args + [t], parseDouble) == Err(MissingCopyPath))
      && (!IsFlag(t) ==> Parse(args + [t], parseDouble) == Finish(args[0], f))
  {
    ScanExtends(args, [t], 1, NoFlags, parseDouble);
    assert (args + [t])[0] == args[0] && (args + [t])[|args|] == t;
  }

  /**
   * /s and /c take the following token as their value, whatever it looks
   * like; an unparsable factor is an error, and the flag's operation replaces
   * the one chosen so far.
   */
  lemma AppendValueFlag(args: seq<string>, t: string, value: string, more: seq<string>, parseDouble: string -> Option<real>)
    requires |args| >= 1 && Scan(args, 1, NoFlags, parseDouble).Ok?
    ensures var f := Scan(args, 1, NoFlags, parseDouble).value;
      && (EqualsIgnoreCase(t, "/s") && parseDouble(value).None? ==>
            Parse(args + [t, value] + more, parseDouble) == Err(InvalidScaleFactor))
      && (EqualsIgnoreCase(t, "/s") && parseDouble(value).Some? ==>
            Parse(args + [t, value], parseDouble) == Ok(Config(args[0], f.recursive, "scale", parseDouble(value), f.copyDir)))
      && (EqualsIgnoreCase(t, "/c") ==>
            Parse(args + [t, value], parseDouble) == Ok(Config(args[0], f.recursive, "copy", f.scaleFactor, Some(value))))
  {
    FlagsAreLowerCase();
    ScanExtends(args, [t, value], 1, NoFlags, parseDouble);
    var f := Scan(args, 1, NoFlags, parseDouble).value;
    var all := args + [t, value];
    assert all[0] == args[0] && all[|args|] == t && all[|args| + 1] == value;
    if EqualsIgnoreCase(t, "/s") {
      assert !EqualsIgnoreCase(t, "/sub");
      if parseDouble(value).None? {
        UnparsableFactorIsFinal(args, t, value, more, parseDouble);
      } else {
        var g := f.(operation := Some("scale"), scaleFactor := parseDouble(value));
        assert Scan(all, |args|, f, parseDouble) == Scan(all, |args| + 2, g, parseDouble);
        assert Scan(all, |args| + 2, g, parseDouble) == Ok(g);
      }
    } else if EqualsIgnoreCase(t, "/c") {
      assert !EqualsIgnoreCase(t, "/sub") && !EqualsIgnoreCase(t, "/s") && !EqualsIgnoreCase(t, "/n") && !EqualsIgnoreCase(t, "/r");
      var g := f.(operation := Some("copy"), copyDir := Some(value));
      assert Scan(all, |args|, f, parseDouble) == Scan(all, |args| + 2, g, parseDouble);
      assert Scan(all, |args| + 2, g, parseDouble) == Ok(g);
    }
  }

  /**
   * An unparsable factor after /s ends the parse with that error, whatever
   * tokens follow: main returns on the spot.
   */
  lemma UnparsableFactorIsFinal(args: seq<string>, t: string, value: string, more: seq<string>, parseDouble: string -> Option<real>)
    requires |args| >= 1 && Scan(args, 1, NoFlags, parseDouble).Ok?
    requires EqualsIgnoreCase(t, "/s") && parseDouble(value).None?
    ensures Parse(args + [t, value] + more, parseDouble) == Err(InvalidScaleFactor)
  {
    FlagsAreLowerCase();
    ScanExtends(args, [t, value] + more, 1, NoFlags, parseDouble);
    var all := args + ([t, value] + more);
    assert args + [t, value] + more == all;
    assert all[|args|] == t && all[|args| + 1] == value;
    assert !EqualsIgnoreCase(t, "/sub");
  }
}
