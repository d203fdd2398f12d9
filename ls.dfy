/** The imperative parts of main.c: the three global switches, `setSelectedFlags`
    that turns them on, and `printDir` that reads them while it walks a directory. */
module Ls {
  import opened CStrings
  import opened Options
  import opened Entries
  import opened Walk
  import opened Validators
  import opened Args

  /** The process state main.c keeps in its static globals. */
  class Lister {
    var showInode: bool        // SHOW_INODE
    var longListFormat: bool   // LONG_LIST_FORMAT
    var listRecursively: bool  // LIST_RECURSIVELY

    function Options(): DisplayOptions
      reads this
    {
      DisplayOptions(showInode, longListFormat, listRecursively)
    }

    /** The globals as the program starts, all false. */
    constructor ()
      ensures Options() == NoFlags
    {
      showInode, longListFormat, listRecursively := false, false, false;
    }

    /** `setSelectedFlags`: walk the token and turn on the switch of each option letter. */
    method SetSelectedFlags(flags: CString)
      modifies this
      ensures Options() == ApplyFlags(old(Options()), flags)
    {
      var len := |flags|;
      var i := 0;
      while i != len
        invariant 0 <= i <= len
        invariant Options() == ApplyFlags(old(Options()), flags[..i])
      {
        assert flags[..i + 1][..i] == flags[..i];
        if flags[i] == 'i' {
          showInode := true;
        } else if flags[i] == 'l' {
          longListFormat := true;
        } else if flags[i] == 'R' {
          listRecursively := true;
        }
        i := i + 1;
      }
      assert flags[..i] == flags;
    }

    /** The body of `main` after the globals start out false: dispatch on the arguments,
        validate the flag token and the path, set the switches and list the path. The flag
        step is skipped when there is no flag token (the code as written calls it on NULL). */
    method Run(argv: seq<CString>, fs: CString -> Dir) returns (outcome: Outcome)
      requires Options() == NoFlags
      modifies this
      ensures outcome == Launch(argv, fs)
      ensures outcome.Listed? ==> Options() == outcome.options
      ensures !outcome.Listed? ==> Options() == NoFlags
    {
      var inv := Classify(argv);
      if inv.TooManyArguments? {
        return Rejected;
      }
      var flagsOk := ValidateFlags(inv.flags);
      if !flagsOk {
        return Rejected;
      }
      if inv.path.None? {
        return Undefined;
      }
      var path := inv.path.value;
      if fs(path).Unopenable? {
        return Rejected;
      }
      if inv.flags.Some? {
        SetSelectedFlags(inv.flags.value);
      }
      var lines := PrintDir(path, fs(path));
      return Listed(Options(), lines + [Spacer, Spacer]);
    }

    /** `printDir`: one pass over the entries as the directory read yields them; each valid
        entry gets its line, and in recursive mode a `d_type` 4 entry is listed at once,
        before the entries after it. */
    method PrintDir(path: CString, dir: Dir) returns (out: seq<Line>)
      ensures out == Listing(path, dir, Options())
      decreases dir, 1
    {
      if dir.Unopenable? {
        return [CannotOpen(path)];
      }
      var entries := dir.entries;
      var header: seq<Line> := [];
      if listRecursively {
        header := [Spacer, PathHeader(path)];
      }
      out := header;
      var i := 0;
      while i < |entries|
        invariant 0 <= i <= |entries|
        invariant out == header + EntryLines(path, entries[..i], Options())
      {
        var printed := EntryLines(path, entries[..i], Options());
        assert entries[..i + 1] == entries[..i] + [entries[i]];
        EntryLinesSnoc(path, entries[..i], entries[i], Options());
        var block := PrintEntry(path, entries[i]);
        assert (header + printed) + block == header + (printed + block);
        out := out + block;
        i := i + 1;
      }
      assert entries[..i] == entries;
    }

    /** The body of the `printDir` loop for one entry `curr` of the directory at `path`. */
    method PrintEntry(path: CString, curr: Entry) returns (block: seq<Line>)
      ensures block == EntryBlock(path, curr, Options())
      decreases curr, 0
    {
      block := [];
      if IsValidFile(curr.name) {
        var subDir := ChildPath(path, curr.name);
        block := [EntryLine(EntryFields(curr, Options()))];
        if listRecursively && curr.dType == DT_DIR {
          var sub := PrintDir(subDir, curr.sub);
          block := block + sub;
        }
      }
    }
  }
}
