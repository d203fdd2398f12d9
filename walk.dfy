/** The output of `printDir` as a function of the directory tree: the child-path
    construction and the order in which header lines, entry lines and the listings
    of subdirectories come out. */
module Walk {
  import opened CStrings
  import opened Options
  import opened Entries

  /** One output line of the listing. */
  datatype Line =
    | Spacer                       // the empty line printed before a header
    | PathHeader(path: CString)    // `<path>:`
    | EntryLine(fields: seq<Field>)
    | CannotOpen(path: CString)    // the message printed when a path does not open as a directory

  // ---- Child path -------------------------------------------------------------------------

  /** The buffer size the code intends: the path, the slash, the name and the terminator. */
  function ChildBufferSize(path: CString, name: CString): nat {
    |path| + |name| + 2
  }

  /** The path of an entry: `path/name` formatted into a buffer of the intended size. */
  function ChildPath(path: CString, name: CString): (child: CString)
    ensures child == path + "/" + name
    ensures |child| == |path| + 1 + |name|
  {
    Snprintf(path + "/" + name, ChildBufferSize(path, name))
  }

  /** The path and the name can be read back from a child path: nothing is lost or reordered. */
  lemma ChildPathSplits(path: CString, name: CString)
    ensures var child := ChildPath(path, name);
      child[..|path|] == path && child[|path|] == '/' && child[|path| + 1..] == name
  {
    var child := ChildPath(path, name);
    assert child[..|path|] == path;
    assert child[|path| + 1..] == name;
  }

  /** A slash is inserted even when the path already ends in one, so `a/` and `b` give `a//b`. */
  lemma ChildPathKeepsTrailingSlash(path: CString, name: CString)
    requires |path| > 0 && path[|path| - 1] == '/'
    ensures ChildPath(path, name)[|path| - 1..|path| + 1] == "//"
  {
  }

  /** The buffer size as written: `strlen(path) + strlen(&slash) + strlen(name)`, taking the
      slash's `strlen` as 1, which is what it reads when the byte after the slash is zero. */
  function ChildPathAsWritten(path: CString, name: CString): CString {
    Snprintf(path + "/" + name, |path| + 1 + |name|)
  }

  /** As written, the buffer has no room for the terminator, so `snprintf` drops the last
      character of every child path. */
  lemma ChildPathAsWrittenDropsLastCharacter(path: CString, name: CString)
    ensures ChildPathAsWritten(path, name) == (path + "/" + name)[..|path| + |name|]
    ensures ChildPathAsWritten(path, name) != ChildPath(path, name)
  {
  }

  /** For the entry `a` of `.` the code as written builds `./` instead of `./a`. */
  lemma ChildPathAsWrittenExample()
    ensures ChildPathAsWritten(".", "a") == "./"
    ensures ChildPath(".", "a") == "./a"
  {
  }

  // ---- Listing ----------------------------------------------------------------------------

  /** The lines printed before the entries: a blank line and `path:`, in recursive mode only. */
  function Header(path: CString, o: DisplayOptions): seq<Line> {
    if o.recursive then [Spacer, PathHeader(path)] else []
  }

  /** Everything `printDir(path)` prints for the directory `dir` found at `path`. */
  function Listing(path: CString, dir: Dir, o: DisplayOptions): seq<Line>
    decreases dir, 1
  {
    match dir
    case Unopenable => [CannotOpen(path)]
    case Opened(entries) => Header(path, o) + EntryLines(path, entries, o)
  }

  /** The lines printed for a run of entries, in the order the directory read yields them. */
  function EntryLines(path: CString, entries: seq<Entry>, o: DisplayOptions): seq<Line>
    decreases entries, 0
  {
    if entries == [] then []
    else EntryLines(path, entries[..|entries| - 1], o) + EntryBlock(path, entries[|entries| - 1], o)
  }

  /** The lines printed for one entry: nothing unless it is valid; otherwise its own line and,
      in recursive mode when `d_type` says directory, at once the whole listing of its path. */
  function EntryBlock(path: CString, e: Entry, o: DisplayOptions): seq<Line>
    decreases e, 0
  {
    if !IsValidFile(e.name) then []
    else
      [EntryLine(EntryFields(e, o))]
      + (if o.recursive && e.dType == DT_DIR then Listing(ChildPath(path, e.name), e.sub, o) else [])
  }

  /** Listing one more entry appends that entry's block. */
  lemma EntryLinesSnoc(path: CString, entries: seq<Entry>, e: Entry, o: DisplayOptions)
    ensures EntryLines(path, entries + [e], o) == EntryLines(path, entries, o) + EntryBlock(path, e, o)
  {
    var s := entries + [e];
    assert s[..|s| - 1] == entries;
    assert s[|s| - 1] == e;
  }

  /** Listing two runs of entries one after the other gives the two listings one after the other. */
  lemma {:induction false} EntryLinesAppend(path: CString, a: seq<Entry>, b: seq<Entry>, o: DisplayOptions)
    ensures EntryLines(path, a + b, o) == EntryLines(path, a, o) + EntryLines(path, b, o)
    decreases |b|
  {
    if b == [] {
      assert a + b == a;
    } else {
      var b' := b[..|b| - 1];
      assert (a + b)[..|a + b| - 1] == a + b';
      assert (a + b)[|a + b| - 1] == b[|b| - 1];
      EntryLinesAppend(path, a, b', o);
    }
  }

  /** The listing is a single depth-first pass: the first entry's block (its line, then the
      listing of its subdirectory) comes before anything of the entries after it. */
  lemma EntryLinesFirst(path: CString, e: Entry, rest: seq<Entry>, o: DisplayOptions)
    ensures EntryLines(path, [e] + rest, o) == EntryBlock(path, e, o) + EntryLines(path, rest, o)
  {
    EntryLinesAppend(path, [e], rest, o);
    assert [e][..0] == [];
  }

  /** The valid entries of a run, in order. */
  function ValidEntries(entries: seq<Entry>): (valid: seq<Entry>)
    ensures forall e :: e in valid <==> e in entries && IsValidFile(e.name)
  {
    if entries == [] then []
    else
      var init, last := entries[..|entries| - 1], entries[|entries| - 1];
      assert entries == init + [last];
      ValidEntries(init) + (if IsValidFile(last.name) then [last] else [])
  }

  /** A single entry is kept exactly when it is valid. */
  lemma ValidEntriesSingle(e: Entry)
    ensures ValidEntries([e]) == if IsValidFile(e.name) then [e] else []
  {
    assert [e][..0] == [];
  }

  /** Filtering two runs one after the other gives the two filtered runs one after the other:
      with `ValidEntriesSingle`, the kept entries keep their enumeration order and their repeats. */
  lemma {:induction false} ValidEntriesAppend(a: seq<Entry>, b: seq<Entry>)
    ensures ValidEntries(a + b) == ValidEntries(a) + ValidEntries(b)
    decreases |b|
  {
    if b == [] {
      assert a + b == a;
    } else {
      var b' := b[..|b| - 1];
      assert (a + b)[..|a + b| - 1] == a + b';
      assert (a + b)[|a + b| - 1] == b[|b| - 1];
      ValidEntriesAppend(a, b');
    }
  }

  /** Entries that are not valid print nothing and are never descended into. */
  lemma {:induction false} InvalidEntriesPrintNothing(path: CString, entries: seq<Entry>, o: DisplayOptions)
    ensures EntryLines(path, entries, o) == EntryLines(path, ValidEntries(entries), o)
    decreases |entries|
  {
    if entries != [] {
      var init, last := entries[..|entries| - 1], entries[|entries| - 1];
      var validInit := ValidEntries(init);
      InvalidEntriesPrintNothing(path, init, o);
      assert EntryLines(path, entries, o) == EntryLines(path, validInit, o) + EntryBlock(path, last, o);
      if IsValidFile(last.name) {
        assert ValidEntries(entries) == validInit + [last];
        EntryLinesAppend(path, validInit, [last], o);
        assert [last][..0] == [];
        assert EntryLines(path, [last], o) == EntryBlock(path, last, o);
      } else {
        assert ValidEntries(entries) == validInit;
        assert EntryBlock(path, last, o) == [];
      }
    }
  }

  /** Without `-R`, a run of entries prints exactly one line per valid entry, in order. */
  lemma {:induction false} FlatEntryLines(path: CString, entries: seq<Entry>, o: DisplayOptions)
    requires !o.recursive
    ensures var lines, valid := EntryLines(path, entries, o), ValidEntries(entries);
      |lines| == |valid| && forall i :: 0 <= i < |valid| ==> lines[i] == EntryLine(EntryFields(valid[i], o))
    decreases |entries|
  {
    if entries != [] {
      var init, last := entries[..|entries| - 1], entries[|entries| - 1];
      FlatEntryLines(path, init, o);
      var lines, valid := EntryLines(path, entries, o), ValidEntries(entries);
      assert lines == EntryLines(path, init, o) + EntryBlock(path, last, o);
      if IsValidFile(last.name) {
        assert valid == ValidEntries(init) + [last];
        assert EntryBlock(path, last, o) == [EntryLine(EntryFields(last, o))];
      } else {
        assert valid == ValidEntries(init);
        assert EntryBlock(path, last, o) == [];
      }
    }
  }

  /** Without `-R`, an opened directory prints exactly one line per valid entry, in order,
      and nothing else: no header and no descent. */
  lemma FlatListing(path: CString, entries: seq<Entry>, o: DisplayOptions)
    requires !o.recursive
    ensures var lines, valid := Listing(path, Opened(entries), o), ValidEntries(entries);
      |lines| == |valid| && forall i :: 0 <= i < |valid| ==> lines[i] == EntryLine(EntryFields(valid[i], o))
  {
    FlatEntryLines(path, entries, o);
    assert Listing(path, Opened(entries), o) == EntryLines(path, entries, o);
  }

  /** The paths of the header lines, in order. */
  function Headers(lines: seq<Line>): seq<CString> {
    if lines == [] then []
    else
      var last := lines[|lines| - 1];
      Headers(lines[..|lines| - 1]) + (if last.PathHeader? then [last.path] else [])
  }

  lemma {:induction false} HeadersAppend(a: seq<Line>, b: seq<Line>)
    ensures Headers(a + b) == Headers(a) + Headers(b)
    decreases |b|
  {
    if b == [] {
      assert a + b == a;
    } else {
      var b' := b[..|b| - 1];
      assert (a + b)[..|a + b| - 1] == a + b';
      HeadersAppend(a, b');
    }
  }

  /** Reference for the directories a recursive listing visits: the path itself when it
      opens, then, for each valid entry whose `d_type` is 4, in order, the directories
      visited below that entry's path. */
  function Visited(path: CString, dir: Dir): seq<CString>
    decreases dir, 1
  {
    match dir
    case Unopenable => []
    case Opened(entries) => [path] + VisitedBelow(path, entries)
  }

  function VisitedBelow(path: CString, entries: seq<Entry>): seq<CString>
    decreases entries, 0
  {
    if entries == [] then []
    else
      var last := entries[|entries| - 1];
      VisitedBelow(path, entries[..|entries| - 1])
      + (if IsValidFile(last.name) && last.dType == DT_DIR then Visited(ChildPath(path, last.name), last.sub) else [])
  }

  /** With `-R`, the headers are printed for exactly the directories visited, each once,
      depth first and in enumeration order; invalid entries and other `d_type`s are not entered. */
  lemma {:induction false} HeadersAreVisited(path: CString, dir: Dir, o: DisplayOptions)
    requires o.recursive
    ensures Headers(Listing(path, dir, o)) == Visited(path, dir)
    decreases dir, 1
  {
    match dir
    case Unopenable =>
      assert Headers([CannotOpen(path)]) == Headers([]) + [];
    case Opened(entries) =>
      HeadersAppend(Header(path, o), EntryLines(path, entries, o));
      HeadersBelow(path, entries, o);
      assert Headers([Spacer, PathHeader(path)]) == [path] by {
        assert [Spacer, PathHeader(path)][..1] == [Spacer];
        assert [Spacer][..0] == [];
      }
  }

  lemma {:induction false} HeadersBelow(path: CString, entries: seq<Entry>, o: DisplayOptions)
    requires o.recursive
    ensures Headers(EntryLines(path, entries, o)) == VisitedBelow(path, entries)
    decreases entries, 0
  {
    if entries != [] {
      var init, last := entries[..|entries| - 1], entries[|entries| - 1];
      HeadersBelow(path, init, o);
      HeadersAppend(EntryLines(path, init, o), EntryBlock(path, last, o));
      if IsValidFile(last.name) {
        var own := [EntryLine(EntryFields(last, o))];
        assert Headers(own) == [] by { assert own[..0] == []; }
        if last.dType == DT_DIR {
          HeadersAppend(own, Listing(ChildPath(path, last.name), last.sub, o));
          HeadersAreVisited(ChildPath(path, last.name), last.sub, o);
        } else {
          assert EntryBlock(path, last, o) == own;
        }
      }
    }
  }

  /** Every header line directly follows a blank line. */
  ghost predicate SpacedHeaders(lines: seq<Line>) {
    forall i :: 0 <= i < |lines| && lines[i].PathHeader? ==> 0 < i && lines[i - 1] == Spacer
  }

  lemma SpacedHeadersAppend(a: seq<Line>, b: seq<Line>)
    requires SpacedHeaders(a) && SpacedHeaders(b)
    ensures SpacedHeaders(a + b)
  {
    forall i | 0 <= i < |a + b| && (a + b)[i].PathHeader? ensures 0 < i && (a + b)[i - 1] == Spacer {
      if i >= |a| {
        assert (a + b)[i] == b[i - |a|];
      }
    }
  }

  /** A blank line comes before every header, the first one included. */
  lemma {:induction false} BlankLineBeforeEveryHeader(path: CString, dir: Dir, o: DisplayOptions)
    ensures SpacedHeaders(Listing(path, dir, o))
    decreases dir, 1
  {
    match dir
    case Unopenable =>
    case Opened(entries) =>
      BlankLineBeforeEveryHeaderBelow(path, entries, o);
      SpacedHeadersAppend(Header(path, o), EntryLines(path, entries, o));
  }

  lemma {:induction false} BlankLineBeforeEveryHeaderBelow(path: CString, entries: seq<Entry>, o: DisplayOptions)
    ensures SpacedHeaders(EntryLines(path, entries, o))
    decreases entries, 0
  {
    if entries != [] {
      var init, last := entries[..|entries| - 1], entries[|entries| - 1];
      BlankLineBeforeEveryHeaderBelow(path, init, o);
      if IsValidFile(last.name) {
        var own := [EntryLine(EntryFields(last, o))];
        if o.recursive && last.dType == DT_DIR {
          BlankLineBeforeEveryHeader(ChildPath(path, last.name), last.sub, o);
          SpacedHeadersAppend(own, Listing(ChildPath(path, last.name), last.sub, o));
        }
      }
      SpacedHeadersAppend(EntryLines(path, init, o), EntryBlock(path, last, o));
    }
  }
}
