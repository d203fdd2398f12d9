/** The flag validator of validators.c. Path validation opens a directory and is
    not part of this module: the directory tree is an input of the walk instead. */
module Validators {
  import opened CStrings

  /** The three option letters: `i` (inode), `l` (long format), `R` (recursive). */
  predicate IsFlagLetter(c: char) {
    c == 'i' || c == 'l' || c == 'R'
  }

  /** Reference description of the flag arguments the program accepts: no flag argument
      at all, or a dash followed by one to three option letters, repeats and any order allowed. */
  ghost predicate FlagTokenAccepted(flags: Option<CString>) {
    match flags
    case None => true
    case Some(s) => exists t: string :: s == "-" + t && 1 <= |t| <= 3 && forall c :: c in t ==> IsFlagLetter(c)
  }

  /** The same set of tokens described position by position. */
  lemma FlagTokenShape(s: CString)
    ensures FlagTokenAccepted(Some(s)) <==>
            2 <= |s| <= 4 && s[0] == '-' && forall j :: 1 <= j < |s| ==> IsFlagLetter(s[j])
  {
    if 2 <= |s| <= 4 && s[0] == '-' && forall j :: 1 <= j < |s| ==> IsFlagLetter(s[j]) {
      var t := s[1..];
      assert s == "-" + t;
      forall c | c in t ensures IsFlagLetter(c) {
        var j :| 0 <= j < |t| && t[j] == c;
        assert s[j + 1] == c;
      }
    }
    if FlagTokenAccepted(Some(s)) {
      var t :| s == "-" + t && 1 <= |t| <= 3 && forall c :: c in t ==> IsFlagLetter(c);
      forall j | 1 <= j < |s| ensures IsFlagLetter(s[j]) {
        assert s[j] == t[j - 1];
      }
    }
  }

  /** `validateFlags`: a missing flag argument is fine; otherwise the token must be at
      most four characters long, start with a dash, hold at least one more character,
      and every character after the dash must be an option letter. */
  method ValidateFlags(flags: Option<CString>) returns (ok: bool)
    ensures ok <==> FlagTokenAccepted(flags)
  {
    if flags.None? {
      return true;
    }
    var s := flags.value;
    FlagTokenShape(s);
    var len := |s|;
    if len > 4 {
      return false;
    }
    if !StrNEqual(s, "-", 1) || len < 2 {
      return false;
    }
    var i := 0;
    while i != len
      invariant 0 <= i <= len
      invariant forall j :: 1 <= j < i ==> IsFlagLetter(s[j])
    {
      if i != 0 && s[i] != 'i' && s[i] != 'l' && s[i] != 'R' {
        return false;
      }
      i := i + 1;
    }
    return true;
  }

  /** A missing flag argument passes validation. */
  lemma AcceptsMissingFlags()
    ensures FlagTokenAccepted(None)
  {
  }

  /** More than three option letters is too many. */
  lemma RejectsLongTokens(s: CString)
    requires |s| > 4
    ensures !FlagTokenAccepted(Some(s))
  {
    FlagTokenShape(s);
  }

  /** A token that does not start with a dash, or is a dash alone, is refused. */
  lemma RejectsTokensWithoutDashOrLetters(s: CString)
    requires |s| < 2 || s[0] != '-'
    ensures !FlagTokenAccepted(Some(s))
  {
    FlagTokenShape(s);
  }

  /** Any character after the dash other than `i`, `l` or `R` is refused. */
  lemma RejectsUnknownLetters(s: CString, j: nat)
    requires 1 <= j < |s| && !IsFlagLetter(s[j])
    ensures !FlagTokenAccepted(Some(s))
  {
    FlagTokenShape(s);
  }

  /** Acceptance depends only on the multiset of letters after the dash, so
      reordering the letters never changes the verdict. */
  lemma AcceptanceIgnoresOrder(t: CString, u: CString)
    requires multiset(t) == multiset(u)
    ensures FlagTokenAccepted(Some("-" + t)) <==> FlagTokenAccepted(Some("-" + u))
  {
    assert |t| == |multiset(t)| == |multiset(u)| == |u|;
    forall c | c in t ensures c in u {
      assert c in multiset(t);
    }
    forall c | c in u ensures c in t {
      assert c in multiset(u);
    }
    if FlagTokenAccepted(Some("-" + t)) {
      var t' :| "-" + t == "-" + t' && 1 <= |t'| <= 3 && forall c :: c in t' ==> IsFlagLetter(c);
      assert t' == ("-" + t)[1..] == t;
    }
    if FlagTokenAccepted(Some("-" + u)) {
      var u' :| "-" + u == "-" + u' && 1 <= |u'| <= 3 && forall c :: c in u' ==> IsFlagLetter(c);
      assert u' == ("-" + u)[1..] == u;
    }
  }

  /** Repeated letters are accepted: a dash followed by one option letter one to three times. */
  lemma AcceptsRepeatedLetters(c: char, n: nat)
    requires IsFlagLetter(c) && 1 <= n <= 3
    ensures var t := seq(n, _ => c); '\0' !in t && FlagTokenAccepted(Some("-" + t))
  {
    var t := seq(n, _ => c);
    assert forall d :: d in t ==> d == c;
  }
}
