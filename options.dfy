/** The three display switches of main.c (`SHOW_INODE`, `LONG_LIST_FORMAT`,
    `LIST_RECURSIVELY`) and how the characters of a flag token set them. */
module Options {
  import opened CStrings
  import opened Validators

  datatype DisplayOptions = DisplayOptions(showInode: bool, longFormat: bool, recursive: bool)

  /** The switches as the program starts: all off. */
  const NoFlags := DisplayOptions(false, false, false)

  /** The effect of one character of the flag token. */
  function SelectFlag(o: DisplayOptions, c: char): DisplayOptions {
    if c == 'i' then o.(showInode := true)
    else if c == 'l' then o.(longFormat := true)
    else if c == 'R' then o.(recursive := true)
    else o
  }

  /** The switches after the characters of `s` are taken one by one, left to right. */
  function ApplyFlags(o: DisplayOptions, s: string): DisplayOptions
    decreases |s|
  {
    if s == [] then o else SelectFlag(ApplyFlags(o, s[..|s| - 1]), s[|s| - 1])
  }

  /** Each switch ends up on exactly when it was on before or its letter occurs in the
      token; no switch is ever turned off, and no other character has an effect. */
  lemma {:induction false} ApplyFlagsSetsLetters(o: DisplayOptions, s: string)
    ensures ApplyFlags(o, s) == DisplayOptions(o.showInode || 'i' in s, o.longFormat || 'l' in s, o.recursive || 'R' in s)
  {
    if s != [] {
      var init := s[..|s| - 1];
      ApplyFlagsSetsLetters(o, init);
      assert s == init + [s[|s| - 1]];
      forall c ensures c in s <==> c in init || c == s[|s| - 1] {
        if c in s {
          var j :| 0 <= j < |s| && s[j] == c;
          if j < |s| - 1 { assert init[j] == c; }
        }
      }
    }
  }

  /** Taking the same token twice is the same as taking it once. */
  lemma ApplyFlagsIdempotent(o: DisplayOptions, s: string)
    ensures ApplyFlags(ApplyFlags(o, s), s) == ApplyFlags(o, s)
  {
    ApplyFlagsSetsLetters(o, s);
    ApplyFlagsSetsLetters(ApplyFlags(o, s), s);
  }

  /** The order of the characters in the token does not matter. */
  lemma ApplyFlagsIgnoresOrder(o: DisplayOptions, s: string, t: string)
    requires multiset(s) == multiset(t)
    ensures ApplyFlags(o, s) == ApplyFlags(o, t)
  {
    ApplyFlagsSetsLetters(o, s);
    ApplyFlagsSetsLetters(o, t);
    assert 'i' in s <==> 'i' in multiset(s);
    assert 'i' in t <==> 'i' in multiset(t);
    assert 'l' in s <==> 'l' in multiset(s);
    assert 'l' in t <==> 'l' in multiset(t);
    assert 'R' in s <==> 'R' in multiset(s);
    assert 'R' in t <==> 'R' in multiset(t);
  }

  /** A token without any option letter, such as a lone dash, changes nothing. */
  lemma ApplyFlagsIgnoresOtherCharacters(o: DisplayOptions, s: string)
    requires forall c :: c in s ==> !IsFlagLetter(c)
    ensures ApplyFlags(o, s) == o
  {
    ApplyFlagsSetsLetters(o, s);
  }

  /** For a token the validator accepts, starting from all switches off, a switch is on
      exactly when its letter occurs in the token, and every character after the dash
      turns some switch on: nothing in an accepted token is silently ignored. */
  lemma AcceptedTokenSelectsItsLetters(s: CString)
    requires FlagTokenAccepted(Some(s))
    ensures ApplyFlags(NoFlags, s) == DisplayOptions('i' in s, 'l' in s, 'R' in s)
    ensures forall j :: 1 <= j < |s| ==> SelectFlag(NoFlags, s[j]) != NoFlags
  {
    ApplyFlagsSetsLetters(NoFlags, s);
    FlagTokenShape(s);
  }
}
