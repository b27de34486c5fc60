/** Matching of a command's diagnostic text against the fixed patterns that
    the synchronizer treats as "already done". The source uses JavaScript
    regular expressions without flags; two forms occur: a literal text that
    must occur somewhere (`/No such remote: upstream/`), and a literal
    prefix, a `(.*)` group and a literal suffix
    (`/destination path (.*) already exists and is not an empty directory/`).
    An unanchored match may start anywhere, and `.` matches any character
    except a line terminator. */
module Patterns {

  datatype Pattern =
    | Literal(text: string)
    | Wildcard(prefix: string, suffix: string)   // prefix (.*) suffix

  /** The clone target folder is already there (application.ts). */
  const AlreadyCloned: Pattern :=
    Wildcard("destination path ", " already exists and is not an empty directory")
  /** `git remote remove upstream` on a repository without that remote (gitService.ts). */
  const NoSuchRemote: Pattern := Literal("No such remote: upstream")
  /** `git checkout <branch>` of a branch that exists locally already (gitService.ts). */
  const BranchExists: Pattern := Wildcard("A branch named '", "' already exists")

  /** The characters `.` does not match in a JavaScript regular expression. */
  predicate IsLineTerminator(c: char) {
    c == '\n' || c == '\r' || c == '\U{2028}' || c == '\U{2029}'
  }

  predicate OccursAt(s: string, p: string, i: int) {
    0 <= i && i + |p| <= |s| && s[i..i + |p|] == p
  }

  /** `prefix` occurs at `i`, `suffix` at `j`, and the text between them
      (what `(.*)` captures) holds no line terminator. */
  predicate WildcardAt(s: string, prefix: string, suffix: string, i: int, j: int) {
    OccursAt(s, prefix, i) && i + |prefix| <= j && OccursAt(s, suffix, j) &&
    forall k :: i + |prefix| <= k < j ==> !IsLineTerminator(s[k])
  }

  /** What `pattern.test(s)` means, stated by its witnesses. */
  ghost predicate MatchesSpec(p: Pattern, s: string) {
    match p
    case Literal(t) => exists i :: OccursAt(s, t, i)
    case Wildcard(pre, suf) => exists i, j :: WildcardAt(s, pre, suf, i, j)
  }

  predicate StartsWith(s: string, p: string) {
    |p| <= |s| && s[..|p|] == p
  }

  /** A left-to-right search for `t` in `s`. */
  function Contains(s: string, t: string): bool
    decreases |s|
  {
    if StartsWith(s, t) then true
    else if s == [] then false
    else Contains(s[1..], t)
  }

  /** Whether `suffix` occurs in `s` before the first line terminator. */
  function SuffixOnLine(s: string, suffix: string): bool
    decreases |s|
  {
    if StartsWith(s, suffix) then true
    else if s == [] || IsLineTerminator(s[0]) then false
    else SuffixOnLine(s[1..], suffix)
  }

  /** A left-to-right search for `prefix (.*) suffix` in `s`. */
  function ContainsWildcard(s: string, prefix: string, suffix: string): bool
    decreases |s|
  {
    if StartsWith(s, prefix) && SuffixOnLine(s[|prefix|..], suffix) then true
    else if s == [] then false
    else ContainsWildcard(s[1..], prefix, suffix)
  }

  /** The executable matcher used by the model. */
  function Matches(p: Pattern, s: string): bool {
    match p
    case Literal(t) => Contains(s, t)
    case Wildcard(pre, suf) => ContainsWildcard(s, pre, suf)
  }

  lemma OccursAtShift(s: string, p: string, i: int)
    requires s != [] && 0 <= i
    ensures OccursAt(s, p, i + 1) <==> OccursAt(s[1..], p, i)
  {
    if i + 1 + |p| <= |s| {
      assert s[i + 1..i + 1 + |p|] == s[1..][i..i + |p|];
    }
  }

  lemma {:induction false} ContainsCorrect(s: string, t: string)
    ensures Contains(s, t) <==> exists i :: OccursAt(s, t, i)
    decreases |s|
  {
    if StartsWith(s, t) {
      assert OccursAt(s, t, 0);
    } else if s != [] {
      ContainsCorrect(s[1..], t);
      if exists i :: OccursAt(s[1..], t, i) {
        var i :| OccursAt(s[1..], t, i);
        OccursAtShift(s, t, i);
      }
      if exists i :: OccursAt(s, t, i) {
        var i :| OccursAt(s, t, i);
        assert i != 0;
        OccursAtShift(s, t, i - 1);
      }
    }
  }

  lemma {:induction false} SuffixOnLineCorrect(s: string, suffix: string)
    ensures SuffixOnLine(s, suffix) <==>
            exists j :: WildcardAt(s, [], suffix, 0, j)
    decreases |s|
  {
    if StartsWith(s, suffix) {
      assert WildcardAt(s, [], suffix, 0, 0);
    } else if s == [] || IsLineTerminator(s[0]) {
      forall j ensures !WildcardAt(s, [], suffix, 0, j) {
        if s != [] && 0 < j {
          assert IsLineTerminator(s[0]);
        }
      }
    } else {
      SuffixOnLineCorrect(s[1..], suffix);
      if exists j :: WildcardAt(s[1..], [], suffix, 0, j) {
        var j :| WildcardAt(s[1..], [], suffix, 0, j);
        OccursAtShift(s, suffix, j);
        assert WildcardAt(s, [], suffix, 0, j + 1);
      }
      if exists j :: WildcardAt(s, [], suffix, 0, j) {
        var j :| WildcardAt(s, [], suffix, 0, j);
        assert j != 0;
        OccursAtShift(s, suffix, j - 1);
        assert WildcardAt(s[1..], [], suffix, 0, j - 1);
      }
    }
  }

  /** A wildcard match whose prefix starts at `i` is a match of the text that
      follows the prefix, with an empty prefix at position 0. */
  lemma WildcardAtSplit(s: string, prefix: string, suffix: string, i: int, j: int)
    requires OccursAt(s, prefix, i)
    ensures WildcardAt(s, prefix, suffix, i, j) <==>
            WildcardAt(s[i + |prefix|..], [], suffix, 0, j - i - |prefix|)
  {
    var n := i + |prefix|;
    var rest := s[n..];
    if WildcardAt(s, prefix, suffix, i, j) {
      assert rest[j - n..j - n + |suffix|] == s[j..j + |suffix|];
      forall k | 0 <= k < j - n ensures !IsLineTerminator(rest[k]) {
        assert rest[k] == s[n + k];
      }
    }
    if WildcardAt(rest, [], suffix, 0, j - n) {
      assert rest[j - n..j - n + |suffix|] == s[j..j + |suffix|];
      forall k | n <= k < j ensures !IsLineTerminator(s[k]) {
        assert rest[k - n] == s[k];
      }
    }
  }

  lemma WildcardAtShift(s: string, prefix: string, suffix: string, i: int, j: int)
    requires s != [] && 0 <= i
    ensures WildcardAt(s, prefix, suffix, i + 1, j + 1) <==>
            WildcardAt(s[1..], prefix, suffix, i, j)
  {
    OccursAtShift(s, prefix, i);
    if 0 <= j {
      OccursAtShift(s, suffix, j);
    }
    if WildcardAt(s, prefix, suffix, i + 1, j + 1) {
      forall k | i + |prefix| <= k < j ensures !IsLineTerminator(s[1..][k]) {
        assert s[1..][k] == s[k + 1];
      }
    }
    if WildcardAt(s[1..], prefix, suffix, i, j) {
      forall k | i + 1 + |prefix| <= k < j + 1 ensures !IsLineTerminator(s[k]) {
        assert s[k] == s[1..][k - 1];
      }
    }
  }

  lemma {:induction false} ContainsWildcardCorrect(s: string, prefix: string, suffix: string)
    ensures ContainsWildcard(s, prefix, suffix) <==>
            exists i, j :: WildcardAt(s, prefix, suffix, i, j)
    decreases |s|
  {
    var here := StartsWith(s, prefix) && SuffixOnLine(s[|prefix|..], suffix);
    if StartsWith(s, prefix) {
      assert OccursAt(s, prefix, 0);
      SuffixOnLineCorrect(s[|prefix|..], suffix);
      if here {
        var j :| WildcardAt(s[|prefix|..], [], suffix, 0, j);
        WildcardAtSplit(s, prefix, suffix, 0, j + |prefix|);
      }
    }
    if !here {
      NoWildcardAtStart(s, prefix, suffix);
      if s != [] {
        ContainsWildcardCorrect(s[1..], prefix, suffix);
        WildcardShiftBoth(s, prefix, suffix);
      }
    }
  }

  /** When the prefix does not start the text followed by the suffix on its
      line, no match starts at position 0. */
  lemma NoWildcardAtStart(s: string, prefix: string, suffix: string)
    requires !(StartsWith(s, prefix) && SuffixOnLine(s[|prefix|..], suffix))
    ensures forall j :: !WildcardAt(s, prefix, suffix, 0, j)
  {
    forall j ensures !WildcardAt(s, prefix, suffix, 0, j) {
      if OccursAt(s, prefix, 0) {
        WildcardAtSplit(s, prefix, suffix, 0, j);
        SuffixOnLineCorrect(s[|prefix|..], suffix);
      }
    }
  }

  /** Without a match at position 0, the text matches exactly when its tail
      does. */
  lemma WildcardShiftBoth(s: string, prefix: string, suffix: string)
    requires s != []
    requires forall j :: !WildcardAt(s, prefix, suffix, 0, j)
    ensures (exists i, j :: WildcardAt(s, prefix, suffix, i, j)) <==>
            (exists i, j :: WildcardAt(s[1..], prefix, suffix, i, j))
  {
    if exists i, j :: WildcardAt(s[1..], prefix, suffix, i, j) {
      var i, j :| WildcardAt(s[1..], prefix, suffix, i, j);
      WildcardAtShift(s, prefix, suffix, i, j);
    }
    if exists i, j :: WildcardAt(s, prefix, suffix, i, j) {
      var i, j :| WildcardAt(s, prefix, suffix, i, j);
      assert i != 0;
      WildcardAtShift(s, prefix, suffix, i - 1, j - 1);
    }
  }

  /** The executable matcher agrees with the meaning of the pattern. */
  lemma MatchesCorrect(p: Pattern, s: string)
    ensures Matches(p, s) <==> MatchesSpec(p, s)
  {
    match p
    case Literal(t) => ContainsCorrect(s, t);
    case Wildcard(pre, suf) => ContainsWildcardCorrect(s, pre, suf);
  }

  /** A text shorter than a pattern's literal parts cannot match it. */
  lemma ShortTextDoesNotMatch(p: Pattern, s: string)
    requires p.Literal? ==> |s| < |p.text|
    requires p.Wildcard? ==> |s| < |p.prefix| + |p.suffix|
    ensures !Matches(p, s)
  {
    MatchesCorrect(p, s);
  }

  /** A text that contains the literal matches it. */
  lemma LiteralMatchesWhenPresent(before: string, t: string, after: string)
    ensures Matches(Literal(t), before + t + after)
  {
    var s := before + t + after;
    assert s[|before|..|before| + |t|] == t;
    assert OccursAt(s, t, |before|);
    MatchesCorrect(Literal(t), s);
  }

  /** A text that contains prefix, then any one-line text, then suffix
      matches `prefix (.*) suffix`. */
  lemma WildcardMatchesWhenPresent(before: string, prefix: string, middle: string,
                                   suffix: string, after: string)
    requires forall k :: 0 <= k < |middle| ==> !IsLineTerminator(middle[k])
    ensures Matches(Wildcard(prefix, suffix), before + prefix + middle + suffix + after)
  {
    var s := before + prefix + middle + suffix + after;
    var i, j := |before|, |before| + |prefix| + |middle|;
    assert s[i..i + |prefix|] == prefix;
    assert s[j..j + |suffix|] == suffix;
    forall k | i + |prefix| <= k < j ensures !IsLineTerminator(s[k]) {
      assert s[k] == middle[k - i - |prefix|];
    }
    assert WildcardAt(s, prefix, suffix, i, j);
    MatchesCorrect(Wildcard(prefix, suffix), s);
  }
}
