/** One directory entry as main.c sees it: the `dirent` the directory read yields,
    the `stat` buffer filled for its path, and what that path opens onto. Also the
    entry filter, the permission string and the fields printed for one entry. */
module Entries {
  import opened CStrings
  import opened Options

  /** `d_type` is an `unsigned char`. */
  type Byte = x: int | 0 <= x < 256

  /** The `d_type` value the listing treats as a directory. */
  const DT_DIR: Byte := 4

  /** The fields of the `stat` buffer the listing prints. When `stat` fails the source still
      prints whatever the buffer holds; any value of these fields stands for that. */
  datatype Stat = Stat(mode: bv32, nlink: nat, size: int)

  /** What opening a path as a directory gives: failure, or the entries in the order the directory read yields them. */
  datatype Dir = Unopenable | Opened(entries: seq<Entry>)

  /** A directory entry: its name, `d_type`, `d_ino`, the `stat` of its path, and what
      the entry's path opens onto (looked at only when the listing descends into it). */
  datatype Entry = Entry(name: CString, dType: Byte, ino: nat, stat: Stat, sub: Dir)

  /** `isValidFile`: the name is not a prefix-match of `.` or `..` over its own length, and does not start with a dot. */
  predicate IsValidFile(name: CString) {
    !StrNEqual(name, ".", |name|) && !StrNEqual(name, "..", |name|) && CharAt(name, 0) != '.'
  }

  /** An entry is listed exactly when its name is non-empty and does not start with a dot;
      in particular `.` and `..` never are. */
  lemma IsValidFileCharacterised(name: CString)
    ensures IsValidFile(name) <==> |name| > 0 && name[0] != '.'
    ensures !IsValidFile(".") && !IsValidFile("..")
  {
    if |name| > 0 && name[0] != '.' {
      assert CharAt(name, 0) != CharAt(".", 0);
      assert CharAt(name, 0) != CharAt("..", 0);
    }
    assert CharAt(".", 0) == '.';
    assert CharAt("..", 0) == '.';
  }

  // Mode bits of <sys/stat.h>, octal 0170000, 0040000, 0400, 0200, ..., 01.
  const S_IFMT: bv32 := 0xF000
  const S_IFDIR: bv32 := 0x4000
  const S_IRUSR: bv32 := 0x100
  const S_IWUSR: bv32 := 0x80
  const S_IXUSR: bv32 := 0x40
  const S_IRGRP: bv32 := 0x20
  const S_IWGRP: bv32 := 0x10
  const S_IXGRP: bv32 := 0x8
  const S_IROTH: bv32 := 0x4
  const S_IWOTH: bv32 := 0x2
  const S_IXOTH: bv32 := 0x1

  /** `S_ISDIR(mode)`. */
  predicate IsDirMode(mode: bv32) {
    mode & S_IFMT == S_IFDIR
  }

  /** `letter` when `mode` has `mask` set, otherwise a dash. */
  function PermChar(mode: bv32, mask: bv32, letter: char): char {
    if mode & mask != 0 then letter else '-'
  }

  /** What `printPermissions` prints: nothing unless long format is on; otherwise
      the type character (only `d` or `-`) and the nine permission characters. */
  function PrintPermissions(longFormat: bool, mode: bv32): (out: string)
    ensures !longFormat ==> out == ""
    ensures longFormat ==> |out| == 10 && (out[0] == 'd' <==> IsDirMode(mode)) && (out[0] == 'd' || out[0] == '-')
  {
    if !longFormat then ""
    else
      [ if IsDirMode(mode) then 'd' else '-',
        PermChar(mode, S_IRUSR, 'r'), PermChar(mode, S_IWUSR, 'w'), PermChar(mode, S_IXUSR, 'x'),
        PermChar(mode, S_IRGRP, 'r'), PermChar(mode, S_IWGRP, 'w'), PermChar(mode, S_IXGRP, 'x'),
        PermChar(mode, S_IROTH, 'r'), PermChar(mode, S_IWOTH, 'w'), PermChar(mode, S_IXOTH, 'x') ]
  }

  /** Bit `j` of the mode word, counting from the least significant bit. */
  predicate ModeBit(mode: bv32, j: nat)
    requires j < 32
  {
    (mode >> j) & 1 == 1
  }

  /** Character `k` (1 to 9) of the permission string is the `k`-th letter of `rwxrwxrwx`
      exactly when bit `9 - k` of the mode (owner, group, other; read, write, execute) is set. */
  lemma PermissionLetters(mode: bv32)
    ensures var out := PrintPermissions(true, mode);
      && out[1] == (if ModeBit(mode, 8) then 'r' else '-')
      && out[2] == (if ModeBit(mode, 7) then 'w' else '-')
      && out[3] == (if ModeBit(mode, 6) then 'x' else '-')
      && out[4] == (if ModeBit(mode, 5) then 'r' else '-')
      && out[5] == (if ModeBit(mode, 4) then 'w' else '-')
      && out[6] == (if ModeBit(mode, 3) then 'x' else '-')
      && out[7] == (if ModeBit(mode, 2) then 'r' else '-')
      && out[8] == (if ModeBit(mode, 1) then 'w' else '-')
      && out[9] == (if ModeBit(mode, 0) then 'x' else '-')
  {
    PermBit(mode, S_IRUSR, 8, 'r');
    PermBit(mode, S_IWUSR, 7, 'w');
    PermBit(mode, S_IXUSR, 6, 'x');
    PermBit(mode, S_IRGRP, 5, 'r');
    PermBit(mode, S_IWGRP, 4, 'w');
    PermBit(mode, S_IXGRP, 3, 'x');
    PermBit(mode, S_IROTH, 2, 'r');
    PermBit(mode, S_IWOTH, 1, 'w');
    PermBit(mode, S_IXOTH, 0, 'x');
  }

  /** A single-bit mask tests the bit it stands for. */
  lemma PermBit(mode: bv32, mask: bv32, j: nat, letter: char)
    requires j < 9 && mask == 1 << j
    ensures PermChar(mode, mask, letter) == if ModeBit(mode, j) then letter else '-'
  {
  }

  /** Reads the nine permission bits back from a permission string. */
  function ParsePermissions(s: string): bv32
    requires |s| == 10
  {
    (if s[1] != '-' then S_IRUSR else 0) | (if s[2] != '-' then S_IWUSR else 0) | (if s[3] != '-' then S_IXUSR else 0) |
    (if s[4] != '-' then S_IRGRP else 0) | (if s[5] != '-' then S_IWGRP else 0) | (if s[6] != '-' then S_IXGRP else 0) |
    (if s[7] != '-' then S_IROTH else 0) | (if s[8] != '-' then S_IWOTH else 0) | (if s[9] != '-' then S_IXOTH else 0)
  }

  /** The permission string loses nothing of the nine permission bits: they can be read back from it. */
  lemma PermissionsRoundTrip(mode: bv32)
    ensures ParsePermissions(PrintPermissions(true, mode)) == mode & 0x1FF
  {
  }

  /** One printed field of an entry line; the numbers are printed by `printf` and are kept as numbers here. */
  datatype Field =
    | Inode(ino: nat)
    | Permissions(text: string)
    | HardLinks(count: nat)
    | FileType(dType: Byte)
    | Size(bytes: int)
    | Name(name: CString)

  /** The fields printed for one entry, in order: the inode number with `-i`, the permission
      string with `-l`, then always the link count, the `d_type`, the size and the name. */
  function EntryFields(e: Entry, o: DisplayOptions): (fields: seq<Field>)
    ensures |fields| == 4 + (if o.showInode then 1 else 0) + (if o.longFormat then 1 else 0)
    ensures fields[|fields| - 4..] == [HardLinks(e.stat.nlink), FileType(e.dType), Size(e.stat.size), Name(e.name)]
    ensures Inode(e.ino) in fields <==> o.showInode
    ensures o.showInode ==> fields[0] == Inode(e.ino)
    ensures o.longFormat ==> Permissions(PrintPermissions(true, e.stat.mode)) in fields
    ensures forall f :: f in fields && f.Permissions? ==> o.longFormat && f.text == PrintPermissions(true, e.stat.mode)
  {
    (if o.showInode then [Inode(e.ino)] else [])
    + (if o.longFormat then [Permissions(PrintPermissions(o.longFormat, e.stat.mode))] else [])
    + [HardLinks(e.stat.nlink), FileType(e.dType), Size(e.stat.size), Name(e.name)]
  }
}
