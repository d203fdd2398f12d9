/** `main` in main.c: how the command-line arguments are split into a flag token and
    a path, and what a whole run produces. */
module Args {
  import opened CStrings
  import opened Validators
  import opened Options
  import opened Entries
  import opened Walk

  /** The path listed when none is given. */
  const DefaultPath: CString := "."

  /** The outcome of the `argc` dispatch: too many arguments, or the flag token and the path
      (either may be absent, as the code's NULL pointers are). */
  datatype Invocation = TooManyArguments | Arguments(flags: Option<CString>, path: Option<CString>)

  /** The dispatch on `argc == |argv|`, where `argv[0]` is the program name. */
  function Classify(argv: seq<CString>): (inv: Invocation)
    ensures inv.TooManyArguments? <==> |argv| > 3
    ensures |argv| == 3 ==> inv == Arguments(Some(argv[1]), Some(argv[2]))
    ensures |argv| == 2 && |argv[1]| > 0 && argv[1][0] == '-' ==> inv == Arguments(Some(argv[1]), None)
    ensures |argv| == 2 && (|argv[1]| == 0 || argv[1][0] != '-') ==> inv == Arguments(None, Some(argv[1]))
    ensures |argv| <= 1 ==> inv == Arguments(None, Some("."))
  {
    if |argv| > 3 then TooManyArguments
    else if |argv| == 3 then Arguments(Some(argv[1]), Some(argv[2]))
    else if |argv| == 2 then
      (if StrNEqual(argv[1], "-", 1) then Arguments(Some(argv[1]), None) else Arguments(None, Some(argv[1])))
    else Arguments(None, Some(DefaultPath))
  }

  /** The arguments a classification keeps, flag token first. */
  function Kept(inv: Invocation): seq<CString> {
    match inv
    case TooManyArguments => []
    case Arguments(flags, path) =>
      (if flags.Some? then [flags.value] else []) + (if path.Some? then [path.value] else [])
  }

  /** With one or two arguments after the program name, the dispatch drops none of them and
      keeps their order; with none it supplies `.`. */
  lemma ClassifyKeepsArguments(argv: seq<CString>)
    requires |argv| <= 3
    ensures 2 <= |argv| ==> Kept(Classify(argv)) == argv[1..]
    ensures |argv| <= 1 ==> Kept(Classify(argv)) == ["."]
  {
    if |argv| == 2 {
      assert CharAt(argv[1], 0) == CharAt("-", 0) <==> |argv[1]| > 0 && argv[1][0] == '-';
    }
  }

  /** What a run ends in: refused (exit status -1, with a message), undefined behaviour,
      or a listing with the switches it was printed under (exit status 0). */
  datatype Outcome = Rejected | Undefined | Listed(options: DisplayOptions, lines: seq<Line>)

  /** A whole run as written: `fs` gives what each path opens onto. After validation the
      code hands the flag token to `setSelectedFlags` even when it is NULL, and a NULL path
      (a flag token alone) to `opendir`; both are undefined behaviour. */
  ghost function LaunchAsWritten(argv: seq<CString>, fs: CString -> Dir): Outcome {
    match Classify(argv)
    case TooManyArguments => Rejected
    case Arguments(flags, path) =>
      if !FlagTokenAccepted(flags) then Rejected
      else if path.None? then Undefined
      else if fs(path.value).Unopenable? then Rejected
      else if flags.None? then Undefined
      else
        var o := ApplyFlags(NoFlags, flags.value);
        Listed(o, Listing(path.value, fs(path.value), o) + [Spacer, Spacer])
  }

  /** As written, running the program with no arguments at all, or with a path alone, is
      undefined behaviour: `strlen(NULL)` in `setSelectedFlags`. */
  lemma LaunchAsWrittenWithoutFlagsIsUndefined(argv: seq<CString>, fs: CString -> Dir)
    requires |argv| <= 1 || (|argv| == 2 && (|argv[1]| == 0 || argv[1][0] != '-'))
    requires var path := if |argv| == 2 then argv[1] else "."; fs(path).Opened?
    ensures LaunchAsWritten(argv, fs) == Undefined
  {
    AcceptsMissingFlags();
  }

  /** A whole run with the flag step skipped when there is no flag token, as the validator's
      acceptance of a missing token intends. The final `printf("\n\n")` gives the two blank lines. */
  ghost function Launch(argv: seq<CString>, fs: CString -> Dir): Outcome {
    match Classify(argv)
    case TooManyArguments => Rejected
    case Arguments(flags, path) =>
      if !FlagTokenAccepted(flags) then Rejected
      else if path.None? then Undefined
      else if fs(path.value).Unopenable? then Rejected
      else
        var o := if flags.None? then NoFlags else ApplyFlags(NoFlags, flags.value);
        Listed(o, Listing(path.value, fs(path.value), o) + [Spacer, Spacer])
  }

  /** A run lists exactly when there are at most two arguments after the program name, the
      flag token (if any) is accepted and the path opens; the switches are then on exactly
      for the letters of the token, and the lines are the listing of that path. */
  lemma LaunchListsAcceptedInvocations(argv: seq<CString>, fs: CString -> Dir)
    requires Classify(argv).Arguments? && Classify(argv).path.Some?
    ensures var inv := Classify(argv);
      Launch(argv, fs).Listed? <==> FlagTokenAccepted(inv.flags) && fs(inv.path.value).Opened?
    ensures var inv := Classify(argv);
      Launch(argv, fs).Listed? ==>
        var token := if inv.flags.Some? then inv.flags.value else "";
        var o := Launch(argv, fs).options;
        && o == DisplayOptions('i' in token, 'l' in token, 'R' in token)
        && Launch(argv, fs).lines == Listing(inv.path.value, fs(inv.path.value), o) + [Spacer, Spacer]
  {
    var inv := Classify(argv);
    if inv.flags.Some? && FlagTokenAccepted(inv.flags) {
      AcceptedTokenSelectsItsLetters(inv.flags.value);
    }
  }

  /** In the corrected run, with no arguments: when `.` opens there is exactly one walk, rooted
      at `.`, with all switches off; when it does not, the run is refused. (As written, such a run
      never walks: see `LaunchAsWrittenWithoutFlagsIsUndefined`.) */
  lemma LaunchDefaultsToCurrentDirectory(argv: seq<CString>, fs: CString -> Dir)
    requires |argv| <= 1
    ensures fs(".").Opened? ==> Launch(argv, fs) == Listed(NoFlags, Listing(".", fs("."), NoFlags) + [Spacer, Spacer])
    ensures fs(".").Unopenable? ==> Launch(argv, fs) == Rejected
  {
    AcceptsMissingFlags();
  }

  /** The two agree wherever the code as written is defined. */
  lemma LaunchAgreesWithWritten(argv: seq<CString>, fs: CString -> Dir)
    requires LaunchAsWritten(argv, fs) != Undefined
    ensures Launch(argv, fs) == LaunchAsWritten(argv, fs)
  {
  }
}
