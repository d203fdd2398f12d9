/** The pieces of the C string library the listing code leans on. A C string is
    modelled by the characters before its terminating NUL, so it never holds one.
    Each `char` stands for one byte of the C string. */
module CStrings {

  datatype Option<+T> = None | Some(value: T)

  /** A NUL-terminated C string, without its terminator. */
  type CString = s: string | '\0' !in s

  /** The character C reads at index `k` of `s`: past the last character it is the terminator. */
  function CharAt(s: CString, k: nat): (c: char)
    ensures c == '\0' <==> |s| <= k
    ensures k < |s| ==> c == s[k]
  {
    if k < |s| then s[k] else '\0'
  }

  /** `strncmp(a, b, n) == 0`: compare at most `n` characters, stopping at a common terminator. */
  function StrNEqual(a: CString, b: CString, n: nat): (eq: bool)
    ensures eq <==> forall k :: 0 <= k < n ==> CharAt(a, k) == CharAt(b, k)
    decreases n
  {
    if n == 0 then true
    else if CharAt(a, 0) != CharAt(b, 0) then false
    else if CharAt(a, 0) == '\0' then true
    else
      var a', b' := a[1..], b[1..];
      assert forall k: nat :: CharAt(a', k) == CharAt(a, k + 1) && CharAt(b', k) == CharAt(b, k + 1);
      var rest := StrNEqual(a', b', n - 1);
      assert rest <==> forall k :: 1 <= k < n ==> CharAt(a, k) == CharAt(b, k) by {
        if rest {
          forall k | 1 <= k < n ensures CharAt(a, k) == CharAt(b, k) {
            assert CharAt(a', k - 1) == CharAt(b', k - 1);
          }
        }
      }
      rest
  }

  /** The string `snprintf(buf, size, ...)` leaves in `buf` when the formatted text is `s`:
      at most `size - 1` characters followed by the terminator, nothing at all when `size` is 0. */
  function Snprintf(s: CString, size: nat): (r: CString)
    ensures r <= s
    ensures size == 0 ==> r == []
    ensures 0 < size ==> |r| == if |s| < size then |s| else size - 1
  {
    if size == 0 then [] else if |s| < size then s else s[..size - 1]
  }
}
