/**
 * The shared part of the service layer (internal/service/service.go): the split of the sentinel errors
 * into client-side and internal ones, `internalError`, and the user-ID format check `isValidUUID`.
 */
module Service {
  import opened Errors

  /** The sentinels declared under "Client-side errors". */
  predicate IsClientError(err: Error) {
    err == ErrEmptyText || err == ErrEmptyUserID || err == ErrInvalidUserID
    || err == ErrQuestionNotExists || err == ErrAnswerNotExists
  }

  /** The sentinels declared under "Internal errors". */
  predicate IsInternalClass(err: Error) {
    err == ErrRepositoryFailure
  }

  /** The six sentinel values the service layer declares. */
  predicate IsServiceSentinel(err: Error) {
    IsClientError(err) || IsInternalClass(err)
  }

  /** The two groups split the six sentinels: none is in both, five are client-side, one is internal. */
  lemma SentinelTaxonomy()
    ensures forall e :: IsServiceSentinel(e) ==> (IsClientError(e) <==> !IsInternalClass(e))
    ensures |set e | e in [ErrEmptyText, ErrEmptyUserID, ErrInvalidUserID, ErrQuestionNotExists,
                            ErrAnswerNotExists, ErrRepositoryFailure] && IsClientError(e)| == 5
  {
    var s := set e | e in [ErrEmptyText, ErrEmptyUserID, ErrInvalidUserID, ErrQuestionNotExists,
                           ErrAnswerNotExists, ErrRepositoryFailure] && IsClientError(e);
    assert s == {ErrEmptyText, ErrEmptyUserID, ErrInvalidUserID, ErrQuestionNotExists, ErrAnswerNotExists};
  }

  /**
   * `internalError(err, errClass)`: tags a foreign error with its class by joining the two. The result
   * is both of class `errClass` and still `err`, for `errors.Is`, yet it is neither of them as a value.
   * The log line it writes is not modelled.
   */
  function InternalError(err: Error, errClass: Error): (r: Error)
    ensures Is(r, errClass) && Is(r, err)
    ensures r != errClass && r != err
    ensures !IsServiceSentinel(r)
  {
    Join(errClass, err)
  }

  // ---------------------------------------------------------------------------------------------
  // isValidUUID: the anchored pattern [a-fA-F0-9]{8}-[a-fA-F0-9]{4}-[a-fA-F0-9]{4}-[a-fA-F0-9]{4}-[a-fA-F0-9]{12}

  predicate IsHexDigit(c: char) {
    ('0' <= c <= '9') || ('a' <= c <= 'f') || ('A' <= c <= 'F')
  }

  /** `[a-fA-F0-9]*` matched against `s[lo..hi]`. */
  predicate HexBetween(s: string, lo: nat, hi: nat)
    requires lo <= hi <= |s|
    decreases hi - lo
  {
    lo == hi || (IsHexDigit(s[lo]) && HexBetween(s, lo + 1, hi))
  }

  /** The group lengths of the pattern, separated by '-'. */
  const UuidGroups: seq<nat> := [8, 4, 4, 4, 12]

  /** The groups, in order and separated by single hyphens, matched against `s[pos..]` up to its end (`$`). */
  predicate MatchFrom(s: string, pos: nat, groups: seq<nat>)
    requires pos <= |s|
    decreases |groups|
  {
    if |groups| == 0 then pos == |s|
    else if |groups| == 1 then pos + groups[0] == |s| && HexBetween(s, pos, |s|)
    else pos + groups[0] < |s| && HexBetween(s, pos, pos + groups[0]) && s[pos + groups[0]] == '-'
         && MatchFrom(s, pos + groups[0] + 1, groups[1..])
  }

  /** `isValidUUID(s)`: the pattern matched from the start of `s` (`^`) to its end. */
  function IsValidUUID(s: string): (r: bool)
    ensures r ==> |s| == 36 && s[8] == '-' && s[13] == '-' && s[18] == '-' && s[23] == '-'
  {
    MatchFrom(s, 0, UuidGroups)
  }

  // ---------------------------------------------------------------------------------------------
  // The same pattern, stated position by position.

  /** Length of a string that matches `groups`. */
  function Width(groups: seq<nat>): nat
    requires |groups| > 0
  {
    if |groups| == 1 then groups[0] else groups[0] + 1 + Width(groups[1..])
  }

  /** Whether offset `i` of a string matching `groups` holds a hyphen. */
  predicate IsSeparator(groups: seq<nat>, i: int)
    requires |groups| > 0
  {
    |groups| > 1 && (i == groups[0] || (i > groups[0] && IsSeparator(groups[1..], i - groups[0] - 1)))
  }

  /** `s[pos..]` has the width of `groups`, hyphens at their separators and hex digits everywhere else. */
  predicate FitsFrom(s: string, pos: nat, groups: seq<nat>)
    requires |groups| > 0
  {
    |s| == pos + Width(groups)
    && forall i | pos <= i < |s| :: if IsSeparator(groups, i - pos) then s[i] == '-' else IsHexDigit(s[i])
  }

  /** The characterisation a reader would give of a UUID string: 36 characters, hyphens at 8, 13, 18, 23, hex elsewhere. */
  predicate IsHyphenPosition(i: int) {
    i == 8 || i == 13 || i == 18 || i == 23
  }

  predicate UuidShape(s: string) {
    |s| == 36 && forall i | 0 <= i < 36 :: if IsHyphenPosition(i) then s[i] == '-' else IsHexDigit(s[i])
  }

  lemma {:induction false} HexBetweenAll(s: string, lo: nat, hi: nat)
    requires lo <= hi <= |s|
    ensures HexBetween(s, lo, hi) <==> forall i | lo <= i < hi :: IsHexDigit(s[i])
    decreases hi - lo
  {
    if lo < hi {
      HexBetweenAll(s, lo + 1, hi);
    }
  }

  /** Matching the groups one after the other is the same as the position-by-position shape. */
  lemma {:induction false} MatchFromFits(s: string, pos: nat, groups: seq<nat>)
    requires pos <= |s| && |groups| > 0
    ensures MatchFrom(s, pos, groups) <==> FitsFrom(s, pos, groups)
    decreases |groups|
  {
    var g := groups[0];
    if |groups| == 1 {
      HexBetweenAll(s, pos, |s|);
    } else if pos + g < |s| {
      var rest := groups[1..];
      var next := pos + g + 1;
      MatchFromFits(s, next, rest);
      HexBetweenAll(s, pos, pos + g);
      forall k | 0 <= k < |s| - next ensures IsSeparator(rest, k) == IsSeparator(groups, k + g + 1) {
      }
      if FitsFrom(s, pos, groups) {
        assert s[pos + g] == '-' by { assert IsSeparator(groups, pos + g - pos); }
        forall i | pos <= i < pos + g ensures IsHexDigit(s[i]) {
          assert !IsSeparator(groups, i - pos);
        }
      }
    } else {
      assert Width(groups) > g;
    }
  }

  lemma UuidSeparators(i: int)
    ensures IsSeparator(UuidGroups, i) <==> IsHyphenPosition(i)
  {
    var g1, g2, g3, g4 := [4, 4, 4, 12], [4, 4, 12], [4, 12], [12];
    assert UuidGroups[1..] == g1 && g1[1..] == g2 && g2[1..] == g3 && g3[1..] == g4;
    assert IsSeparator(UuidGroups, i) == (i == 8 || (i > 8 && IsSeparator(g1, i - 9)));
    assert IsSeparator(g1, i - 9) == (i == 13 || (i > 13 && IsSeparator(g2, i - 14)));
    assert IsSeparator(g2, i - 14) == (i == 18 || (i > 18 && IsSeparator(g3, i - 19)));
    assert IsSeparator(g3, i - 19) == (i == 23 || (i > 23 && IsSeparator(g4, i - 24)));
    assert !IsSeparator(g4, i - 24);
  }

  /** `isValidUUID(s)` holds exactly when `s` has 36 characters, hyphens at 8, 13, 18 and 23 and hex digits elsewhere. */
  lemma IsValidUUIDShape(s: string)
    ensures IsValidUUID(s) <==> UuidShape(s)
  {
    MatchFromFits(s, 0, UuidGroups);
    assert Width(UuidGroups) == 36 by {
      assert UuidGroups[1..] == [4, 4, 4, 12];
      assert UuidGroups[1..][1..] == [4, 4, 12];
      assert UuidGroups[1..][1..][1..] == [4, 12];
      assert UuidGroups[1..][1..][1..][1..] == [12];
    }
    forall i ensures IsSeparator(UuidGroups, i - 0) <==> IsHyphenPosition(i) {
      UuidSeparators(i);
    }
  }

  /** The anchors make every accepted string exactly 36 characters long; in particular "" is rejected. */
  lemma UuidLength(s: string)
    ensures IsValidUUID(s) ==> |s| == 36
  {
    IsValidUUIDShape(s);
  }

  /** ASCII lower-casing, the only case folding the pattern's character class cares about. */
  function ToLower(c: char): (l: char)
    ensures ('A' <= c <= 'Z') ==> l as int == c as int + 32
    ensures !('A' <= c <= 'Z') ==> l == c
  {
    if 'A' <= c <= 'Z' then (c as int + 32) as char else c
  }

  predicate EqualIgnoringCase(s: string, t: string) {
    |s| == |t| && forall i | 0 <= i < |s| :: ToLower(s[i]) == ToLower(t[i])
  }

  /** The check is case-insensitive: strings that differ only in letter case get the same verdict. */
  lemma UuidCaseInsensitive(s: string, t: string)
    requires EqualIgnoringCase(s, t)
    ensures IsValidUUID(s) == IsValidUUID(t)
  {
    IsValidUUIDShape(s);
    IsValidUUIDShape(t);
    forall i | 0 <= i < |s|
      ensures IsHexDigit(s[i]) == IsHexDigit(t[i]) && (s[i] == '-' <==> t[i] == '-')
    {
      assert ToLower(s[i]) == ToLower(t[i]);
    }
  }

  /** A 36-character string with hex runs of lengths 8, 4, 4, 4 and 12 between its four hyphens is accepted. */
  lemma UuidFromGroups(s: string)
    requires |s| == 36 && s[8] == '-' && s[13] == '-' && s[18] == '-' && s[23] == '-'
    requires HexBetween(s, 0, 8) && HexBetween(s, 9, 13) && HexBetween(s, 14, 18)
    requires HexBetween(s, 19, 23) && HexBetween(s, 24, 36)
    ensures IsValidUUID(s)
  {
    var g1, g2, g3, g4 := [4, 4, 4, 12], [4, 4, 12], [4, 12], [12];
    assert UuidGroups[1..] == g1 && g1[1..] == g2 && g2[1..] == g3 && g3[1..] == g4;
    assert MatchFrom(s, 24, g4);
    assert MatchFrom(s, 19, g3);
    assert MatchFrom(s, 14, g2);
    assert MatchFrom(s, 9, g1);
  }

  /** Two adjacent hex runs make one. */
  lemma HexBetweenJoin(s: string, lo: nat, mid: nat, hi: nat)
    requires lo <= mid <= hi <= |s|
    requires HexBetween(s, lo, mid) && HexBetween(s, mid, hi)
    ensures HexBetween(s, lo, hi)
  {
    HexBetweenAll(s, lo, mid);
    HexBetweenAll(s, mid, hi);
    HexBetweenAll(s, lo, hi);
  }

  /** Where the hyphens of the handler tests' user ID sit; the group lemmas below cover the hex runs. */
  lemma TestUserIDLayout()
    ensures |"123e4567-e89b-12d3-a456-426614174000"| == 36
    ensures "123e4567-e89b-12d3-a456-426614174000"[8] == '-' && "123e4567-e89b-12d3-a456-426614174000"[13] == '-'
    ensures "123e4567-e89b-12d3-a456-426614174000"[18] == '-' && "123e4567-e89b-12d3-a456-426614174000"[23] == '-'
  {
  }

  lemma TestUserIDGroup1()
    ensures HexBetween("123e4567-e89b-12d3-a456-426614174000", 0, 8)
  {
    TestUserIDGroup1Head();
    TestUserIDGroup1Tail();
    HexBetweenJoin("123e4567-e89b-12d3-a456-426614174000", 0, 4, 8);
  }

  lemma TestUserIDGroup1Head()
    ensures HexBetween("123e4567-e89b-12d3-a456-426614174000", 0, 4)
  {
  }

  lemma TestUserIDGroup1Tail()
    ensures HexBetween("123e4567-e89b-12d3-a456-426614174000", 4, 8)
  {
  }

  lemma TestUserIDGroup2()
    ensures HexBetween("123e4567-e89b-12d3-a456-426614174000", 9, 13)
  {
  }

  lemma TestUserIDGroup3()
    ensures HexBetween("123e4567-e89b-12d3-a456-426614174000", 14, 18)
  {
  }

  lemma TestUserIDGroup4()
    ensures HexBetween("123e4567-e89b-12d3-a456-426614174000", 19, 23)
  {
  }

  lemma TestUserIDGroup5()
    ensures HexBetween("123e4567-e89b-12d3-a456-426614174000", 24, 36)
  {
  }

  lemma UuidAcceptsTestUserID()
    ensures IsValidUUID("123e4567-e89b-12d3-a456-426614174000")
  {
    TestUserIDLayout();
    TestUserIDGroup1();
    TestUserIDGroup2();
    TestUserIDGroup3();
    TestUserIDGroup4();
    TestUserIDGroup5();
    UuidFromGroups("123e4567-e89b-12d3-a456-426614174000");
  }

  /** The malformed user ID of the handler tests, and the empty one, are rejected. */
  lemma UuidRejectsMalformed()
    ensures !IsValidUUID("invalid-uuid")
    ensures !IsValidUUID("")
  {
  }
}
