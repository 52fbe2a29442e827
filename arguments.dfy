/**
 * Command-line handling of simple-crypt (arguments.h): the status codes, the
 * settings record and `parse_arguments`, plus the exit-code rule of `main`
 * (simple-crypt.cpp).
 *
 * `parse_arguments` is modelled as a loop over `argv` that updates a
 * `Settings` object in place. It is proved against `Parse`, which splits the
 * arguments into `Token`s (an option and the value it consumes) and applies
 * them in order; the lemmas below say what `Parse` computes field by field.
 */
module Arguments {
  import opened Crypto

  /** enum class status, in declaration order. */
  datatype Status = OK | USAGE | BAD_ARGUMENTS | NO_KEY | IO_ERROR | BAD_STATE

  /** The integer value of a status, `int(res)`. */
  function Ordinal(st: Status): (n: nat)
    ensures n < 6
    ensures st == OK <==> n == 0
  {
    match st
    case OK => 0
    case USAGE => 1
    case BAD_ARGUMENTS => 2
    case NO_KEY => 3
    case IO_ERROR => 4
    case BAD_STATE => 5
  }

  /**
   * The exit code of `main`: a failed parse exits with 0 for USAGE and with the
   * status value otherwise; a successful parse exits with the processing status.
   */
  function ExitCode(parsed: Status, processed: Status): (code: nat)
    ensures parsed == OK ==> code == Ordinal(processed)
    ensures parsed != OK ==> (code == 0 <==> parsed == USAGE)
    ensures parsed != OK && parsed != USAGE ==> code == Ordinal(parsed)
  {
    if parsed != OK then (if parsed == USAGE then 0 else Ordinal(parsed))
    else Ordinal(processed)
  }

  /** Distinct statuses have distinct values. */
  lemma OrdinalInjective(a: Status, b: Status)
    ensures Ordinal(a) == Ordinal(b) ==> a == b
  {
  }

  /** Two different parse failures other than USAGE exit with different codes. */
  lemma FailureCodesDistinct(a: Status, b: Status, processed: Status)
    requires a != b && a != OK && a != USAGE && b != OK && b != USAGE
    ensures ExitCode(a, processed) != ExitCode(b, processed)
    ensures ExitCode(a, processed) != 0
  {
    OrdinalInjective(a, b);
  }

  datatype Option<T> = None | Some(value: T)

  /** A snapshot of settings_t. */
  datatype SettingsValue = SettingsValue(
    key: bv64,
    verbose: bool,
    recursive: bool,
    inplace: bool,
    toStdout: bool,
    output: Option<ByteString>,
    paths: seq<ByteString>)

  /** The member initialisers of settings_t. */
  const DEFAULT_SETTINGS: SettingsValue :=
    SettingsValue(0, false, false, false, false, None, [])

  /** settings_t, an in/out record that `ParseArguments` updates field by field. */
  class Settings {
    var key: bv64
    var verbose: bool
    var recursive: bool
    var inplace: bool
    var toStdout: bool
    var output: Option<ByteString>
    var paths: seq<ByteString>

    ghost function Value(): SettingsValue
      reads this
    {
      SettingsValue(key, verbose, recursive, inplace, toStdout, output, paths)
    }

    constructor ()
      ensures Value() == DEFAULT_SETTINGS
    {
      key, verbose, recursive, inplace, toStdout := 0, false, false, false, false;
      output, paths := None, [];
    }
  }

  // ---------------------------------------------------------------------------
  // Specification
  // ---------------------------------------------------------------------------

  /** One recognised command-line item, with the value it consumed. */
  datatype Token =
    | Verbose | Recursive | Dump | Inplace | Help
    | Output(file: ByteString)
    | Key(value: ByteString)
    | Path(arg: ByteString)
    | MissingValue        // `-o` or `-k` as the last argument

  // The spellings of each option.
  predicate IsVerboseOption(a: ByteString) { a == "-v" || a == "--verbose" }
  predicate IsRecursiveOption(a: ByteString) { a == "-r" || a == "--recursive" }
  predicate IsDumpOption(a: ByteString) { a == "-d" || a == "--dump" }
  predicate IsOutputOption(a: ByteString) { a == "-o" || a == "--output" }
  predicate IsHelpOption(a: ByteString) { a == "-h" || a == "--help" }
  predicate IsInplaceOption(a: ByteString) { a == "-i" || a == "--inplace" }
  predicate IsKeyOption(a: ByteString) { a == "-k" || a == "--key" }

  /**
   * Splits the arguments (after `argv[0]`) into tokens, left to right, testing
   * each argument against the options in the order `parse_arguments` does.
   */
  function Tokens(args: seq<ByteString>): seq<Token>
    decreases |args|
  {
    if args == [] then []
    else
      var a := args[0];
      if IsVerboseOption(a) then [Verbose] + Tokens(args[1..])
      else if IsRecursiveOption(a) then [Recursive] + Tokens(args[1..])
      else if IsDumpOption(a) then [Dump] + Tokens(args[1..])
      else if IsOutputOption(a) then
        (if |args| == 1 then [MissingValue] else [Output(args[1])] + Tokens(args[2..]))
      else if IsHelpOption(a) then [Help] + Tokens(args[1..])
      else if IsInplaceOption(a) then [Inplace] + Tokens(args[1..])
      else if IsKeyOption(a) then
        (if |args| == 1 then [MissingValue] else [Key(args[1])] + Tokens(args[2..]))
      else [Path(a)] + Tokens(args[1..])
  }

  /** The change one non-stopping token makes: each option sets its own field only. */
  function Effect(s: SettingsValue, t: Token): (r: SettingsValue)
    ensures r.key == if t.Key? then KeyHash(t.value) else s.key
    ensures r.output == if t.Output? then Some(t.file) else s.output
    ensures r.paths == if t.Path? then s.paths + [t.arg] else s.paths
    ensures r.verbose == (s.verbose || t == Verbose)
    ensures r.recursive == (s.recursive || t == Recursive)
    ensures r.toStdout == (s.toStdout || t == Dump)
    ensures r.inplace == (s.inplace || t == Inplace)
  {
    match t
    case Verbose => s.(verbose := true)
    case Recursive => s.(recursive := true)
    case Dump => s.(toStdout := true)
    case Inplace => s.(inplace := true)
    case Output(f) => s.(output := Some(f))
    case Key(v) => s.(key := KeyHash(v))
    case Path(p) => s.(paths := s.paths + [p])
    case _ => s
  }

  /** Tokens that end parsing at once. */
  predicate IsStop(t: Token) { t.Help? || t.MissingValue? }

  /**
   * Applies the tokens in order; `keySet` records whether a key was seen. The
   * parse never fails with IO_ERROR or BAD_STATE, and NO_KEY means no key at all.
   */
  function Apply(s: SettingsValue, ts: seq<Token>, keySet: bool): (r: (Status, SettingsValue))
    ensures r.0 != IO_ERROR && r.0 != BAD_STATE
    ensures r.0 == NO_KEY ==> !keySet && forall k :: 0 <= k < |ts| ==> !ts[k].Key?
    decreases |ts|
  {
    if ts == [] then (if keySet then OK else NO_KEY, s)
    else if ts[0].Help? then (USAGE, s)
    else if ts[0].MissingValue? then (BAD_ARGUMENTS, s)
    else Apply(Effect(s, ts[0]), ts[1..], keySet || ts[0].Key?)
  }

  /** One step of `Apply` on a token in front of the others. */
  lemma ApplyCons(s: SettingsValue, t: Token, ts: seq<Token>, keySet: bool)
    ensures Apply(s, [t] + ts, keySet)
         == if t.Help? then (USAGE, s)
            else if t.MissingValue? then (BAD_ARGUMENTS, s)
            else Apply(Effect(s, t), ts, keySet || t.Key?)
  {
    assert ([t] + ts)[0] == t && ([t] + ts)[1..] == ts;
  }

  /** The arguments after the program name. */
  function Operands(argv: seq<ByteString>): seq<ByteString>
  {
    if argv == [] then [] else argv[1..]
  }

  /** parse_arguments: the status and the settings it leaves behind. */
  function Parse(s: SettingsValue, argv: seq<ByteString>): (r: (Status, SettingsValue))
    ensures r.0 != IO_ERROR && r.0 != BAD_STATE
  {
    Apply(s, Tokens(Operands(argv)), false)
  }

  // ---------------------------------------------------------------------------
  // The loop
  // ---------------------------------------------------------------------------

  /**
   * The loop of parse_arguments read argument by argument from position `i`:
   * the same decisions as `Apply` over `Tokens`, in the order the loop takes
   * them. `ParseFromTokens` proves the two readings agree.
   */
  function ParseFrom(s: SettingsValue, argv: seq<ByteString>, i: nat, keySet: bool): (r: (Status, SettingsValue))
    decreases |argv| - i
  {
    if i >= |argv| then (if keySet then OK else NO_KEY, s)
    else
      var a := argv[i];
      if IsVerboseOption(a) then ParseFrom(Effect(s, Verbose), argv, i + 1, keySet)
      else if IsRecursiveOption(a) then ParseFrom(Effect(s, Recursive), argv, i + 1, keySet)
      else if IsDumpOption(a) then ParseFrom(Effect(s, Dump), argv, i + 1, keySet)
      else if IsOutputOption(a) then
        (if i + 1 >= |argv| then (BAD_ARGUMENTS, s)
         else ParseFrom(Effect(s, Output(argv[i + 1])), argv, i + 2, keySet))
      else if IsHelpOption(a) then (USAGE, s)
      else if IsInplaceOption(a) then ParseFrom(Effect(s, Inplace), argv, i + 1, keySet)
      else if IsKeyOption(a) then
        (if i + 1 >= |argv| then (BAD_ARGUMENTS, s)
         else ParseFrom(Effect(s, Key(argv[i + 1])), argv, i + 2, true))
      else ParseFrom(Effect(s, Path(a)), argv, i + 1, keySet)
  }

  /** Reading the arguments one by one agrees with applying their tokens. */
  lemma {:induction false} ParseFromTokens(s: SettingsValue, argv: seq<ByteString>, i: nat, keySet: bool)
    requires i <= |argv|
    ensures ParseFrom(s, argv, i, keySet) == Apply(s, Tokens(argv[i..]), keySet)
    decreases |argv| - i
  {
    if i < |argv| {
      TokensAt(argv, i);
      var a := argv[i];
      if IsVerboseOption(a) {
        ApplyCons(s, Verbose, Tokens(argv[i + 1..]), keySet);
        ParseFromTokens(Effect(s, Verbose), argv, i + 1, keySet);
      } else if IsRecursiveOption(a) {
        ApplyCons(s, Recursive, Tokens(argv[i + 1..]), keySet);
        ParseFromTokens(Effect(s, Recursive), argv, i + 1, keySet);
      } else if IsDumpOption(a) {
        ApplyCons(s, Dump, Tokens(argv[i + 1..]), keySet);
        ParseFromTokens(Effect(s, Dump), argv, i + 1, keySet);
      } else if IsOutputOption(a) {
        if i + 1 >= |argv| {
          ApplyCons(s, MissingValue, [], keySet);
        } else {
          ApplyCons(s, Output(argv[i + 1]), Tokens(argv[i + 2..]), keySet);
          ParseFromTokens(Effect(s, Output(argv[i + 1])), argv, i + 2, keySet);
        }
      } else if IsHelpOption(a) {
        ApplyCons(s, Help, Tokens(argv[i + 1..]), keySet);
      } else if IsInplaceOption(a) {
        ApplyCons(s, Inplace, Tokens(argv[i + 1..]), keySet);
        ParseFromTokens(Effect(s, Inplace), argv, i + 1, keySet);
      } else if IsKeyOption(a) {
        if i + 1 >= |argv| {
          ApplyCons(s, MissingValue, [], keySet);
        } else {
          ApplyCons(s, Key(argv[i + 1]), Tokens(argv[i + 2..]), keySet);
          ParseFromTokens(Effect(s, Key(argv[i + 1])), argv, i + 2, true);
        }
      } else {
        ApplyCons(s, Path(a), Tokens(argv[i + 1..]), keySet);
        ParseFromTokens(Effect(s, Path(a)), argv, i + 1, keySet);
      }
    }
  }

  /** parse_arguments starts its loop at `argv[1]`, past the program name. */
  lemma ParseStartsAtOne(s: SettingsValue, argv: seq<ByteString>)
    ensures Parse(s, argv) == ParseFrom(s, argv, 1, false)
  {
    if argv != [] {
      ParseFromTokens(s, argv, 1, false);
    }
  }

  /** parse_arguments(settings, argc, argv). */
  method ParseArguments(settings: Settings, argv: seq<ByteString>) returns (st: Status)
    modifies settings
    ensures (st, settings.Value()) == Parse(old(settings.Value()), argv)
  {
    ParseStartsAtOne(settings.Value(), argv);
    ghost var result := Parse(settings.Value(), argv);
    var keySet := false;
    var i := 1;
    while i < |argv|
      invariant result == ParseFrom(settings.Value(), argv, i, keySet)
      decreases |argv| - i
    {
      var stop;
      stop, i, keySet := ParseArgument(settings, argv, i, keySet);
      if stop.Some? {
        return stop.value;
      }
    }
    if !keySet {
      return NO_KEY;
    }
    return OK;
  }

  /**
   * One pass of the loop of parse_arguments: consumes `argv[i]` and, for `-o`
   * and `-k`, its value. `stop` is the status when the pass returns at once.
   */
  method ParseArgument(settings: Settings, argv: seq<ByteString>, i: nat, keySet: bool)
    returns (stop: Option<Status>, next: nat, keySet': bool)
    requires i < |argv|
    modifies settings
    ensures stop.Some? ==> settings.Value() == old(settings.Value())
    ensures stop.Some? ==> (stop.value, settings.Value()) == ParseFrom(old(settings.Value()), argv, i, keySet)
    ensures stop.None? ==> i < next <= |argv|
    ensures stop.None? ==>
              ParseFrom(settings.Value(), argv, next, keySet') == ParseFrom(old(settings.Value()), argv, i, keySet)
  {
    ghost var before := settings.Value();
    stop, next, keySet' := None, i, keySet;
    var arg := argv[next];
    next := next + 1;
    if IsVerboseOption(arg) {
      settings.verbose := true;
      assert settings.Value() == Effect(before, Verbose);
    } else if IsRecursiveOption(arg) {
      settings.recursive := true;
      assert settings.Value() == Effect(before, Recursive);
    } else if IsDumpOption(arg) {
      settings.toStdout := true;
      assert settings.Value() == Effect(before, Dump);
    } else if IsOutputOption(arg) {
      if next >= |argv| {
        return Some(BAD_ARGUMENTS), next, keySet';
      }
      settings.output := Some(argv[next]);
      assert settings.Value() == Effect(before, Output(argv[next]));
      next := next + 1;
    } else if IsHelpOption(arg) {
      return Some(USAGE), next, keySet';
    } else if IsInplaceOption(arg) {
      settings.inplace := true;
      assert settings.Value() == Effect(before, Inplace);
    } else if IsKeyOption(arg) {
      if next >= |argv| {
        return Some(BAD_ARGUMENTS), next, keySet';
      }
      settings.key := HashKey(argv[next]);
      assert settings.Value() == Effect(before, Key(argv[next]));
      next := next + 1;
      keySet' := true;
    } else {
      settings.paths := settings.paths + [arg];
      assert settings.Value() == Effect(before, Path(arg));
    }
  }

  /** `Tokens` of the arguments from position `i` on, by the argument at `i`. */
  lemma TokensAt(argv: seq<ByteString>, i: nat)
    requires i < |argv|
    ensures var a := argv[i];
      Tokens(argv[i..]) ==
        if IsVerboseOption(a) then [Verbose] + Tokens(argv[i + 1..])
        else if IsRecursiveOption(a) then [Recursive] + Tokens(argv[i + 1..])
        else if IsDumpOption(a) then [Dump] + Tokens(argv[i + 1..])
        else if IsOutputOption(a) then
          (if i + 1 == |argv| then [MissingValue] + [] else [Output(argv[i + 1])] + Tokens(argv[i + 2..]))
        else if IsHelpOption(a) then [Help] + Tokens(argv[i + 1..])
        else if IsInplaceOption(a) then [Inplace] + Tokens(argv[i + 1..])
        else if IsKeyOption(a) then
          (if i + 1 == |argv| then [MissingValue] + [] else [Key(argv[i + 1])] + Tokens(argv[i + 2..]))
        else [Path(a)] + Tokens(argv[i + 1..])
  {
    var rest := argv[i..];
    assert rest[0] == argv[i] && rest[1..] == argv[i + 1..];
    if i + 1 < |argv| {
      assert rest[1] == argv[i + 1] && rest[2..] == argv[i + 2..];
    }
  }

  // ---------------------------------------------------------------------------
  // What Parse computes
  // ---------------------------------------------------------------------------

  /** The values of the `-k` tokens, in order. */
  function KeyValues(ts: seq<Token>): seq<ByteString>
    decreases |ts|
  {
    if ts == [] then [] else (if ts[0].Key? then [ts[0].value] else []) + KeyValues(ts[1..])
  }

  /** The values of the `-o` tokens, in order. */
  function OutputFiles(ts: seq<Token>): seq<ByteString>
    decreases |ts|
  {
    if ts == [] then [] else (if ts[0].Output? then [ts[0].file] else []) + OutputFiles(ts[1..])
  }

  /** The path operands, in order. */
  function PathArgs(ts: seq<Token>): seq<ByteString>
    decreases |ts|
  {
    if ts == [] then [] else (if ts[0].Path? then [ts[0].arg] else []) + PathArgs(ts[1..])
  }

  /** Tokens with no `-h` and no missing value: every one is applied. */
  predicate NoStop(ts: seq<Token>)
  {
    forall i :: 0 <= i < |ts| ==> !IsStop(ts[i])
  }

  /**
   * When nothing stops the loop, the status is OK exactly when some `-k` was
   * given (or one was already seen), and NO_KEY otherwise.
   */
  lemma {:induction false} ApplyStatus(s: SettingsValue, ts: seq<Token>, keySet: bool)
    requires NoStop(ts)
    ensures Apply(s, ts, keySet).0 == if keySet || KeyValues(ts) != [] then OK else NO_KEY
    decreases |ts|
  {
    if ts != [] {
      var t, s' := ts[0], Effect(s, ts[0]);
      NoStopTail(ts);
      assert Apply(s, ts, keySet) == Apply(s', ts[1..], keySet || t.Key?);
      ApplyStatus(s', ts[1..], keySet || t.Key?);
    }
  }

  /** The value of the last `-k` token, if any. */
  function LastKey(ts: seq<Token>): (r: Option<ByteString>)
    decreases |ts|
  {
    if ts == [] then None
    else match LastKey(ts[1..])
      case Some(v) => Some(v)
      case None => if ts[0].Key? then Some(ts[0].value) else None
  }

  /** When nothing stops the loop, the key is the hash of `LastKey`, or unchanged. */
  lemma {:induction false} ApplyLastKey(s: SettingsValue, ts: seq<Token>, keySet: bool)
    requires NoStop(ts)
    ensures Apply(s, ts, keySet).1.key == match LastKey(ts) case Some(v) => KeyHash(v) case None => s.key
    decreases |ts|
  {
    if ts != [] {
      NoStopTail(ts);
      ApplyLastKey(Effect(s, ts[0]), ts[1..], keySet || ts[0].Key?);
    }
  }

  /** `LastKey` is the last of the `-k` values. */
  lemma {:induction false} LastKeyIsLast(ts: seq<Token>)
    ensures var ks := KeyValues(ts);
      LastKey(ts) == if ks == [] then None else Some(ks[|ks| - 1])
    decreases |ts|
  {
    if ts != [] {
      LastKeyIsLast(ts[1..]);
      var ks, rest := KeyValues(ts), KeyValues(ts[1..]);
      assert ks == (if ts[0].Key? then [ts[0].value] else []) + rest;
      if rest != [] {
        assert ks[|ks| - 1] == rest[|rest| - 1];
      }
    }
  }

  /** When nothing stops the loop, the key is the hash of the LAST `-k` value. */
  lemma ApplyKey(s: SettingsValue, ts: seq<Token>, keySet: bool)
    requires NoStop(ts)
    ensures var ks := KeyValues(ts);
      Apply(s, ts, keySet).1.key == if ks == [] then s.key else KeyHash(ks[|ks| - 1])
  {
    ApplyLastKey(s, ts, keySet);
    LastKeyIsLast(ts);
  }

  /** When nothing stops the loop, the output file is the LAST `-o` value. */
  lemma {:induction false} ApplyOutput(s: SettingsValue, ts: seq<Token>, keySet: bool)
    requires NoStop(ts)
    ensures var os := OutputFiles(ts);
      Apply(s, ts, keySet).1.output == if os == [] then s.output else Some(os[|os| - 1])
    decreases |ts|
  {
    if ts != [] {
      var t, s' := ts[0], Effect(s, ts[0]);
      NoStopTail(ts);
      assert Apply(s, ts, keySet) == Apply(s', ts[1..], keySet || t.Key?);
      ApplyOutput(s', ts[1..], keySet || t.Key?);
    }
  }

  /**
   * When nothing stops the loop, each flag ends up set exactly when it was set
   * before or its option occurs; repeating an option changes nothing more.
   */
  lemma {:induction false} ApplyFlags(s: SettingsValue, ts: seq<Token>, keySet: bool)
    requires NoStop(ts)
    ensures var r := Apply(s, ts, keySet).1;
      && r.verbose == (s.verbose || Verbose in ts)
      && r.recursive == (s.recursive || Recursive in ts)
      && r.toStdout == (s.toStdout || Dump in ts)
      && r.inplace == (s.inplace || Inplace in ts)
    decreases |ts|
  {
    if ts != [] {
      var t, s' := ts[0], Effect(s, ts[0]);
      NoStopTail(ts);
      assert Apply(s, ts, keySet) == Apply(s', ts[1..], keySet || t.Key?);
      ApplyFlags(s', ts[1..], keySet || t.Key?);
      assert ts == [t] + ts[1..];
    }
  }

  /** The path operands appended to `acc` one token at a time, as the loop does. */
  function Collected(acc: seq<ByteString>, ts: seq<Token>): seq<ByteString>
    decreases |ts|
  {
    if ts == [] then acc
    else Collected(if ts[0].Path? then acc + [ts[0].arg] else acc, ts[1..])
  }

  /** When nothing stops the loop, the paths are those `Collected` from the start. */
  lemma {:induction false} ApplyCollects(s: SettingsValue, ts: seq<Token>, keySet: bool)
    requires NoStop(ts)
    ensures Apply(s, ts, keySet).1.paths == Collected(s.paths, ts)
    decreases |ts|
  {
    if ts != [] {
      NoStopTail(ts);
      ApplyCollects(Effect(s, ts[0]), ts[1..], keySet || ts[0].Key?);
    }
  }

  /** Collecting appends the path operands, in order. */
  lemma {:induction false} CollectedAppends(acc: seq<ByteString>, ts: seq<Token>)
    ensures Collected(acc, ts) == acc + PathArgs(ts)
    decreases |ts|
  {
    if ts != [] {
      var t, rest := ts[0], PathArgs(ts[1..]);
      if t.Path? {
        CollectedAppends(acc + [t.arg], ts[1..]);
        assert (acc + [t.arg]) + rest == acc + ([t.arg] + rest);
      } else {
        CollectedAppends(acc, ts[1..]);
      }
    }
  }

  /** When nothing stops the loop, the path operands are appended in order. */
  lemma ApplyPaths(s: SettingsValue, ts: seq<Token>, keySet: bool)
    requires NoStop(ts)
    ensures Apply(s, ts, keySet).1.paths == s.paths + PathArgs(ts)
  {
    ApplyCollects(s, ts, keySet);
    CollectedAppends(s.paths, ts);
  }

  /** Tokens that do not stop lose that property by dropping the first. */
  lemma NoStopTail(ts: seq<Token>)
    requires ts != [] && NoStop(ts)
    ensures !IsStop(ts[0]) && NoStop(ts[1..])
  {
    forall i | 0 <= i < |ts| - 1 ensures !IsStop(ts[1..][i]) {
      assert ts[1..][i] == ts[i + 1];
    }
  }

  /**
   * The first `-h` or missing value ends parsing: the status is USAGE or
   * BAD_ARGUMENTS whatever follows (the key check is skipped), and the
   * settings keep every change made by the tokens before it.
   */
  lemma {:induction false} ApplyStops(s: SettingsValue, pre: seq<Token>, t: Token, post: seq<Token>, keySet: bool)
    requires NoStop(pre) && IsStop(t)
    ensures Apply(s, pre + [t] + post, keySet)
         == (if t.Help? then USAGE else BAD_ARGUMENTS, Apply(s, pre, keySet).1)
    decreases |pre|
  {
    if pre == [] {
      assert pre + [t] + post == [t] + post;
    } else {
      assert (pre + [t] + post)[1..] == pre[1..] + [t] + post;
      NoStopTail(pre);
      ApplyStops(Effect(s, pre[0]), pre[1..], t, post, keySet || pre[0].Key?);
    }
  }

  /** `-o` and `-k` take the next argument verbatim, even when it looks like an option. */
  lemma OptionTakesNextVerbatim(opt: ByteString, value: ByteString, rest: seq<ByteString>)
    requires IsOutputOption(opt) || IsKeyOption(opt)
    ensures Tokens([opt, value] + rest)
         == [if IsOutputOption(opt) then Output(value) else Key(value)] + Tokens(rest)
  {
    assert ([opt, value] + rest)[2..] == rest;
  }

  /** `-o` or `-k` as the last argument is BAD_ARGUMENTS, with the earlier changes kept. */
  lemma MissingValueIsBadArguments(s: SettingsValue, argv: seq<ByteString>, opt: ByteString)
    requires |argv| >= 1 && NoStop(Tokens(argv[1..]))
    requires IsOutputOption(opt) || IsKeyOption(opt)
    ensures Parse(s, argv + [opt]) == (BAD_ARGUMENTS, Parse(s, argv).1)
  {
    TokensAppendMissing(argv[1..], opt);
    assert Operands(argv + [opt]) == argv[1..] + [opt];
    ApplyStops(s, Tokens(argv[1..]), MissingValue, [], false);
    assert Tokens(argv[1..]) + [MissingValue] + [] == Tokens(argv[1..]) + [MissingValue];
  }

  /**
   * Appending a lone `-o`/`-k` after arguments whose tokens do not stop adds
   * a single missing value at the end.
   */
  lemma {:induction false} TokensAppendMissing(args: seq<ByteString>, opt: ByteString)
    requires NoStop(Tokens(args))
    requires IsOutputOption(opt) || IsKeyOption(opt)
    ensures Tokens(args + [opt]) == Tokens(args) + [MissingValue]
    decreases |args|
  {
    if args == [] {
      assert [] + [opt] == [opt];
    } else if IsOutputOption(args[0]) || IsKeyOption(args[0]) {
      assert !IsOutputOption(opt) || !IsKeyOption(opt);
      NoStopTail(Tokens(args));
      assert |args| >= 2;
      assert (args + [opt])[2..] == args[2..] + [opt];
      TokensAppendMissing(args[2..], opt);
    } else {
      NoStopTail(Tokens(args));
      assert (args + [opt])[1..] == args[1..] + [opt];
      TokensAppendMissing(args[1..], opt);
    }
  }

  /** `argv[0]` is never looked at: a program name that looks like an option is ignored. */
  lemma ProgramNameIgnored(s: SettingsValue, name: ByteString, other: ByteString, args: seq<ByteString>)
    ensures Parse(s, [name] + args) == Parse(s, [other] + args)
  {
    assert ([name] + args)[1..] == args == ([other] + args)[1..];
  }
}
