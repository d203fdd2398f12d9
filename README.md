# A Dafny model of a small `ls` clone

This project models the core of a small directory lister written in C (`main.c` and
`validators.c`). The program takes at most one flag token and one path. The flag token
holds the option letters `i` (print inode numbers), `l` (long format: a permission string)
and `R` (recurse into subdirectories). The program then prints one line per visible entry
of the directory.

The model covers these parts of the program:

- **C string helpers** (`cstrings.dfy`, module `CStrings`): a C string is the `seq<char>` before
  its terminator. The module gives `strncmp(a, b, n) == 0` (`StrNEqual`), the character read
  at an index (`CharAt`) and the truncation `snprintf` does to fit a buffer (`Snprintf`).
- **Flag validation** (`validators.dfy`, module `Validators`): `validateFlags` is a method with
  the source's early returns and index loop. It is proved equal to a reference predicate:
  no token at all, or `-` followed by one to three letters from `i`, `l`, `R`.
- **Display switches** (`options.dfy`, module `Options`): the three global booleans as a
  `DisplayOptions` value. `ApplyFlags` says what reading a token character by character
  does to them.
- **Entries** (`entries.dfy`, module `Entries`): the entry filter `isValidFile`, the permission
  string of `printPermissions` (computed from a 32-bit mode word), and the fields printed for
  one entry.
- **Traversal** (`walk.dfy`, module `Walk`): how a child path is built, and the output of
  `printDir` as a function `Listing` over a directory tree given as input.
- **Global state** (`ls.dfy`, module `Ls`): the class `Lister` holds the three globals.
  `SetSelectedFlags` changes them with the source's loop. `PrintDir` is the `readdir` loop
  with its recursive call, proved to print `Listing`. `Run` is the body of `main`.
- **Arguments** (`args.dfy`, module `Args`): the `argc` dispatch of `main`, and the outcome of a
  whole run, as written and corrected.

Numbers printed by `printf` (inode, link count, `d_type`, size) appear as opaque `Field`
tokens. The model fixes which fields are printed and in what order, but not their digits.
Each line is a `Line` value, not text.

Where this program differs from a conventional `ls`, the model follows the code:

- the listing is a single depth-first pass: a subdirectory's listing comes right after its
  own line, before the entries after it;
- the child path always gets a slash inserted, even when the path already ends in one;
- in recursive mode a blank line comes before every header, the first one included;
- the type character is only `d` or `-`;
- there are no owner, group or time columns;
- the link count, `d_type` and size are printed with or without `-l`;
- recursion follows `d_type == 4`, not the `stat` mode;
- at most one path is accepted.

## Model

| member | source | states |
|---|---|---|
| `Validators.ValidateFlags` | validators.c:7-34 | The method returns true exactly for the tokens of the reference predicate: no token, or `-` followed by one to three letters from `i`, `l`, `R`. |
| `Validators.FlagTokenShape` | validators.c:11-32 | The reference predicate, read position by position: the length is 2 to 4, the first character is `-`, and every later one is an option letter. |
| `Validators.AcceptsMissingFlags` | validators.c:8-10 | A missing (NULL) flag token is accepted. |
| `Validators.RejectsLongTokens` | validators.c:12-17 | Any token longer than 4 characters is rejected. |
| `Validators.RejectsTokensWithoutDashOrLetters` | validators.c:18-21 | A token shorter than 2 characters, or not starting with `-`, is rejected. |
| `Validators.RejectsUnknownLetters` | validators.c:22-32 | A token with any character after index 0 outside `i`, `l`, `R` is rejected. |
| `Validators.AcceptanceIgnoresOrder` | validators.c:22-32 | Acceptance depends only on the multiset of letters after the dash, so their order never matters. |
| `Validators.AcceptsRepeatedLetters` | validators.c:22-32 | A dash followed by any one option letter repeated one to three times (`-ii`, `-RRR`) is accepted. |
| `Options.ApplyFlagsSetsLetters` | main.c:133-147 | After a token, each switch equals its old value OR (its letter occurs in the token). No switch is ever turned off, and no other character has an effect. |
| `Options.ApplyFlagsIdempotent` | main.c:133-147 | Applying the same token twice gives the same switches as applying it once. |
| `Options.ApplyFlagsIgnoresOrder` | main.c:137-146 | Two tokens with the same multiset of characters set the same switches. |
| `Options.ApplyFlagsIgnoresOtherCharacters` | main.c:137-146 | A token with no option letter (a lone `-`, say) changes nothing. |
| `Options.AcceptedTokenSelectsItsLetters` | main.c:133-147 | For an accepted token, starting from all off, a switch is on exactly when its letter occurs in the token, and every character after the dash turns some switch on. |
| `Ls.Lister.constructor` | main.c:14-16 | The three globals start out false. |
| `Ls.Lister.SetSelectedFlags` | main.c:133-147 | The loop leaves the globals equal to `ApplyFlags` of their old values and the whole token. |
| `Ls.Lister.PrintDir` | main.c:86-131 | The `readdir` loop with its recursive call returns exactly `Listing(path, dir, globals)`. An unopenable path gives only the open-failure message. |
| `Ls.Lister.PrintEntry` | main.c:98-127 | One iteration of that loop returns exactly `EntryBlock`: nothing for an invalid entry; otherwise the entry's line, then the full listing of its child path when recursive and `d_type` is 4. |
| `Ls.Lister.Run` | main.c:149-185 | Starting from all switches off, `main`'s sequence of method calls (dispatch, `validateFlags`, path check, `setSelectedFlags`, `printDir`, final blank lines) produces `Launch`. After a listing the globals hold the switches it was printed under; after a refusal they are all still off. |
| `Entries.IsValidFileCharacterised` | main.c:42-46 | An entry is listed exactly when its name is non-empty and does not start with `.`. The names `.` and `..` are always rejected. |
| `Entries.PrintPermissions` | main.c:50-65 | With long format off, the output is empty. With it on, the output has 10 characters, and the first is `d` exactly when `S_ISDIR(mode)`, `-` otherwise. |
| `Entries.PermissionLetters` | main.c:56-64 | For k from 1 to 9, character k is the k-th letter of `rwxrwxrwx` exactly when bit 9-k of the mode is set, else `-`. |
| `Entries.PermissionsRoundTrip` | main.c:54-64 | The nine permission bits can be read back from the permission string, so the string loses none of them. |
| `Entries.EntryFields` | main.c:113-119 | One entry's fields, in order: the inode only with `-i` (first), the 10-character permission string only with `-l`, then always the link count, `d_type`, size and name. |
| `Walk.ChildPath` | main.c:99-106 | With the intended buffer of path length + name length + 2, `snprintf` truncates nothing: the child path is exactly `path + "/" + name`, of length path length + 1 + name length. |
| `Walk.ChildPathSplits` | main.c:106 | The path, the slash and the name can be read back from the child path at their positions. |
| `Walk.ChildPathKeepsTrailingSlash` | main.c:106 | A slash is inserted even when the path already ends in `/`, which gives `//`. |
| `Walk.ChildPathAsWrittenDropsLastCharacter` | main.c:99-106 | With the buffer size as written (`strlen(&slash)` read as 1), the child path loses its last character and never equals the intended one. |
| `Walk.ChildPathAsWrittenExample` | main.c:99-106 | For path `.` and entry `a`, the code as written builds `./`, while the intended path is `./a`. |
| `Walk.EntryLinesAppend` | main.c:97-129 | Listing two runs of entries in a row gives the two runs' lines in a row. The output follows enumeration order. |
| `Walk.EntryLinesFirst` | main.c:97-129 | The first entry's block (its line, then its subdirectory's listing) comes before any line of later entries: one interleaved depth-first pass. |
| `Walk.ValidEntries` | main.c:98 | An entry is kept exactly when it occurs in the run and its name is valid (membership only; order is stated by the two rows below). |
| `Walk.ValidEntriesSingle` | main.c:98 | A single entry is kept exactly when its name is valid. |
| `Walk.ValidEntriesAppend` | main.c:97-129 | Filtering two runs in a row gives the two filtered runs in a row. With the row above, this fixes the filter uniquely: the valid entries keep their enumeration order and their repeats. |
| `Walk.InvalidEntriesPrintNothing` | main.c:98-127 | Invalid entries contribute no line and are never descended into: the listing depends only on the valid entries. |
| `Walk.FlatListing` | main.c:93-129 | Without `-R`, an opened directory prints no header and exactly one line per valid entry, in order. |
| `Walk.FlatEntryLines` | main.c:97-129 | Without `-R`, a run of entries prints exactly one line per valid entry, in order. |
| `Walk.HeadersAreVisited` | main.c:93-122 | With `-R`, header lines are printed for exactly the directories the walk visits, each once, depth first, in enumeration order. Only valid entries with `d_type == 4` are entered. |
| `Walk.HeadersBelow` | main.c:97-122 | With `-R`, the headers inside a run of entries are the directories visited below those entries. |
| `Walk.BlankLineBeforeEveryHeader` | main.c:93-96 | Every header line directly follows a blank line, the first header included. |
| `Walk.BlankLineBeforeEveryHeaderBelow` | main.c:93-122 | The same holds for the lines of any run of entries. |
| `Args.Classify` | main.c:154-172 | `argc > 3` is refused. `argc == 3` gives flags `argv[1]` and path `argv[2]`. `argc == 2` gives flags `argv[1]` when it starts with `-`, else path `argv[1]`. Otherwise the path is `.`. |
| `Args.ClassifyKeepsArguments` | main.c:160-172 | The dispatch drops and reorders no argument. With no argument it supplies `.`. |
| `Args.LaunchAsWrittenWithoutFlagsIsUndefined` | main.c:178-182 | As written, a run without a flag token (no arguments, or a path alone) whose path opens reaches `setSelectedFlags(NULL)`, which calls `strlen(NULL)`. When the path does not open, `main` returns at main.c:178-179 first. |
| `Args.LaunchListsAcceptedInvocations` | main.c:154-185 | In the corrected run (`Launch`), a run lists exactly when the token is accepted and the path opens. The switches are then on exactly for the token's letters, and the lines are the path's listing plus two blank lines. |
| `Args.LaunchDefaultsToCurrentDirectory` | main.c:170-185 | In the corrected run (`Launch`), with no arguments and `.` opening, there is exactly one walk, rooted at `.`, with all switches off; when `.` does not open, the run is refused. As written, a run without arguments never walks (see the Findings row for main.c:178-182). |
| `Args.LaunchAgreesWithWritten` | main.c:178-183 | The corrected run agrees with the code as written wherever the latter is defined. |

## Findings

| source | as written | input that shows it | evidently intended | confidence | as-written member | corrected member |
|---|---|---|---|---|---|---|
| main.c:99-106 | The buffer size is `strlen(path) + strlen(&slash) + strlen(name)`. `slash` is not zero, so `strlen(&slash)` is at least 1: it counts the slash and every non-zero byte after it up to the first zero. When that count is exactly 1, nothing is counted for the terminator and `snprintf` cuts off the last character of the name. | path `.`, entry `a`, with the byte after `slash` zero: the path built is `./`, and `stat` and the recursion get the directory itself | a buffer of path length + name length + 2, as the comment says, holding `path/name` whole | not executed; medium: `strlen(&slash)` reads past a single `char`; the character is lost only when the byte after `slash` is zero, and with a non-zero byte there the buffer is large enough and nothing is lost | `Walk.ChildPathAsWrittenDropsLastCharacter` | `Walk.ChildPath` |
| main.c:178-182 | After validation, `setSelectedFlags(flags)` is called even when `flags` is NULL, and it starts with `strlen(flags)`. | `argv = ["ls"]`, or `["ls", "dir"]`, with the path opening: `validateFlags(NULL)` accepts, then `strlen(NULL)` runs | a missing flag token leaves all switches off, since `validateFlags` accepts NULL for that reason | not executed; high | `Args.LaunchAsWrittenWithoutFlagsIsUndefined` | `Args.LaunchListsAcceptedInvocations` |

The corrected definitions are `Walk.ChildPath` (used by `Listing`) and `Args.Launch`
(matched by `Ls.Lister.Run`). `Walk.ChildPathAsWritten` and `Args.LaunchAsWritten` model
the code as it stands.

## Left out

- Directory I/O (`opendir`, `readdir`, `closedir`, `stat`, `calloc`, `malloc`, `free`, and `validatePath` at validators.c:36-47) is not modelled. The directory tree is an input instead: a `Dir` is what a path opens onto, and each `Entry` carries its `dirent` fields, its `stat` fields and the `Dir` of its own path. `Launch` takes a function from the root path to its `Dir`. The model assumes the two views agree.
- A failed `stat` leaves the buffer uninitialised, but the code still prints it. `Stat` values are arbitrary inputs, which covers this case.
- Messages printed on refusal (too many arguments, bad flags, a path that does not open in `main`) are not modelled: each one is just the `Rejected` outcome. `printDir`'s open failure is one `CannotOpen` line. `perror`, `errno` and everything written to stderr are left out.
- The debug lines of `main` (main.c:174-176), the commented-out `printFileLength`, and the commented-out calls at main.c:187-198 are not modelled.
- `getAndPrintGroup` and `getAndPrintUserName` (main.c:18-40) are never called and are not modelled.
- `printf` number formatting is not modelled: numbers are kept as numbers in `Field` tokens.
- `isFlagArg` (validators.h:9) is declared but never defined, so there is nothing to model.
- The default path is `&defaultPath`, a pointer to a single `char` with no terminator. It is modelled as the string `.`.
- On a flag token alone, the path stays NULL and goes to `opendir(NULL)`. Both `Launch` and `LaunchAsWritten` stop there with the `Undefined` outcome, and nothing further is modelled.
- `main` opens the path once in `validatePath` and never closes that handle. The leak is not modelled.
- `Ls.Lister.Run`: it follows the corrected flow, because a method cannot reproduce `strlen(NULL)`. It skips `setSelectedFlags` when there is no flag token.
- `Walk.ChildPathAsWritten`: models only the case where `strlen(&slash)` reads 1, that is, where the byte after `slash` is zero. A larger count depends on memory next to `slash`, which the model does not capture; in that case the buffer is big enough and the path is not cut short.
- Strings are `seq<char>` with each `char` standing for one byte of the C string; lengths count bytes. Multi-byte encodings are not modelled: for a non-ASCII name, the buffer as written drops the last byte, not a whole character.
