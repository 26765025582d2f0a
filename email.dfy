/** `FormValidator.EMAIL_PATTERN`,
    `^[A-Za-z0-9._%+-]+@[A-Za-z0-9.-]+\.[A-Za-z]{2,}$` matched against a whole
    string, written out by hand and proved equal to the pattern's meaning. */
module EmailPattern {
  import opened Text

  predicate IsLetter(c: char) {
    'A' <= c <= 'Z' || 'a' <= c <= 'z'
  }

  predicate IsDigitChar(c: char) {
    '0' <= c <= '9'
  }

  /** `[A-Za-z0-9._%+-]` */
  predicate IsLocalChar(c: char) {
    IsLetter(c) || IsDigitChar(c) || c == '.' || c == '_' || c == '%' || c == '+' || c == '-'
  }

  /** `[A-Za-z0-9.-]` */
  predicate IsDomainChar(c: char) {
    IsLetter(c) || IsDigitChar(c) || c == '.' || c == '-'
  }

  /** `s[lo..hi]` is all local-part characters. */
  predicate LocalBetween(s: string, lo: nat, hi: nat)
    requires lo <= hi <= |s|
  {
    forall i :: lo <= i < hi ==> IsLocalChar(s[i])
  }

  /** `s[lo..hi]` is all domain characters. */
  predicate DomainBetween(s: string, lo: nat, hi: nat)
    requires lo <= hi <= |s|
  {
    forall i :: lo <= i < hi ==> IsDomainChar(s[i])
  }

  /** `s[lo..hi]` is all letters. */
  predicate LettersBetween(s: string, lo: nat, hi: nat)
    requires lo <= hi <= |s|
  {
    forall i :: lo <= i < hi ==> IsLetter(s[i])
  }

  /** Position of the first `c` in `s` at or after `from`, or -1. */
  function IndexOfFrom(s: string, c: char, from: nat): (r: int)
    requires from <= |s|
    ensures r == -1 || (from <= r < |s| && s[r] == c)
    ensures forall j :: from <= j < |s| && (r < 0 || j < r) ==> s[j] != c
    decreases |s| - from
  {
    if from == |s| then -1
    else if s[from] == c then from
    else IndexOfFrom(s, c, from + 1)
  }

  /** Position of the last `c` in `s` before `end`, or -1. */
  function LastIndexBefore(s: string, c: char, end: nat): (r: int)
    requires end <= |s|
    ensures r == -1 || (0 <= r < end && s[r] == c)
    ensures forall j :: 0 <= j < end && r < j ==> s[j] != c
  {
    if end == 0 then -1
    else if s[end - 1] == c then end - 1
    else LastIndexBefore(s, c, end - 1)
  }

  /** The hand-coded check: a non-empty local part before the first `@`, a
      domain of `[A-Za-z0-9.-]` after it whose last `.` is not its first
      character and is followed by at least two letters up to the end. */
  predicate IsEmail(s: string) {
    var at := IndexOfFrom(s, '@', 0);
    0 < at && LocalBetween(s, 0, at) && DomainBetween(s, at + 1, |s|) &&
    var dot := LastIndexBefore(s, '.', |s|);
    at + 1 < dot && |s| - dot - 1 >= 2 && LettersBetween(s, dot + 1, |s|)
  }

  /** The regular expression matches `s` with the `@` at `i` and the escaped
      `\.` at `k`. */
  ghost predicate MatchesAt(s: string, i: int, k: int) {
    && 0 < i && i + 1 < k && k + 3 <= |s|
    && s[i] == '@' && s[k] == '.'
    && LocalBetween(s, 0, i) && DomainBetween(s, i + 1, k) && LettersBetween(s, k + 1, |s|)
  }

  /** The regular expression matches the whole of `s`. */
  ghost predicate MatchesPattern(s: string) {
    exists i, k :: MatchesAt(s, i, k)
  }

  /** Every string the hand-coded check accepts is matched by the pattern. */
  lemma IsEmailMatches(s: string)
    requires IsEmail(s)
    ensures MatchesPattern(s)
  {
    var at := IndexOfFrom(s, '@', 0);
    var dot := LastIndexBefore(s, '.', |s|);
    assert MatchesAt(s, at, dot);
  }

  /** The `@` of a match is the first `@` of the string. */
  lemma MatchAtFirstAt(s: string, i: int, k: int)
    requires MatchesAt(s, i, k)
    ensures IndexOfFrom(s, '@', 0) == i
  {
  }

  /** The escaped `.` of a match is the last `.` of the string, and what
      follows the `@` is all domain characters. */
  lemma MatchAtLastDot(s: string, i: int, k: int)
    requires MatchesAt(s, i, k)
    ensures DomainBetween(s, i + 1, |s|)
    ensures LastIndexBefore(s, '.', |s|) == k
  {
    forall j | i + 1 <= j < |s| ensures IsDomainChar(s[j]) {
      if j > k {
        assert IsLetter(s[j]);
      }
    }
  }

  /** Every string the pattern matches is accepted by the hand-coded check. */
  lemma MatchesIsEmail(s: string)
    requires MatchesPattern(s)
    ensures IsEmail(s)
  {
    var i, k :| MatchesAt(s, i, k);
    MatchAtFirstAt(s, i, k);
    MatchAtLastDot(s, i, k);
  }

  /** The hand-coded check accepts exactly the strings the pattern matches. */
  lemma IsEmailIffMatches(s: string)
    ensures IsEmail(s) <==> MatchesPattern(s)
  {
    if IsEmail(s) { IsEmailMatches(s); }
    if MatchesPattern(s) { MatchesIsEmail(s); }
  }

  /** A local part, `@`, a host, `.` and a top-level part of at least two
      letters form an accepted address. */
  lemma AddressParts(local: string, host: string, tld: string)
    requires local != [] && LocalBetween(local, 0, |local|)
    requires host != [] && DomainBetween(host, 0, |host|)
    requires |tld| >= 2 && LettersBetween(tld, 0, |tld|)
    ensures IsEmail(local + ['@'] + host + ['.'] + tld)
  {
    var s := local + ['@'] + host + ['.'] + tld;
    var i, k := |local|, |local| + 1 + |host|;
    forall j | 0 <= j < i ensures IsLocalChar(s[j]) {
      assert s[j] == local[j];
    }
    forall j | i + 1 <= j < k ensures IsDomainChar(s[j]) {
      assert s[j] == host[j - i - 1];
    }
    forall j | k + 1 <= j < |s| ensures IsLetter(s[j]) {
      assert s[j] == tld[j - k - 1];
    }
    assert MatchesAt(s, i, k);
    MatchesIsEmail(s);
  }

  // ---------------------------------------------------------------------
  // Comma-separated address lists (`@EmailList`)

  /** A trimmed candidate is acceptable: not empty and matching the pattern. */
  predicate Acceptable(email: string) {
    email != [] && IsEmail(email)
  }

  /** A candidate passes: trimmed, it is a non-empty address. */
  predicate AcceptableCandidate(candidate: string) {
    Acceptable(JavaTrim(candidate))
  }

  /** Every element of `xs` satisfies `ok`. */
  predicate Every(xs: seq<string>, ok: string -> bool) {
    forall i :: 0 <= i < |xs| ==> ok(xs[i])
  }

  /** Every piece of `value.split(",")` is acceptable once trimmed. */
  predicate EmailListOk(value: string) {
    Every(JavaSplit(value, ','), AcceptableCandidate)
  }

  /** The loop of `validateEmails`: every candidate, trimmed, must be a
      non-empty address; the walk stops at the first one that is not. */
  method CheckCandidates(candidates: seq<string>) returns (ok: bool)
    ensures ok <==> Every(candidates, AcceptableCandidate)
  {
    var i := 0;
    while i < |candidates|
      invariant 0 <= i <= |candidates|
      invariant Every(candidates[..i], AcceptableCandidate)
    {
      var email := JavaTrim(candidates[i]);
      if email == [] || !IsEmail(email) {
        NotEvery(candidates, i, AcceptableCandidate);
        return false;
      }
      EveryExtend(candidates, i, AcceptableCandidate);
      i := i + 1;
    }
    assert candidates[..i] == candidates;
    return true;
  }

  /** A prefix whose elements all pass grows by one passing element. */
  lemma EveryExtend(xs: seq<string>, i: nat, ok: string -> bool)
    requires i < |xs| && Every(xs[..i], ok) && ok(xs[i])
    ensures Every(xs[..i + 1], ok)
  {
    assert forall j :: 0 <= j < i ==> xs[..i + 1][j] == xs[..i][j];
  }

  /** One failing element is enough to fail. */
  lemma NotEvery(xs: seq<string>, i: nat, ok: string -> bool)
    requires i < |xs| && !ok(xs[i])
    ensures !Every(xs, ok)
  {
  }

  /** A comma at the end of a non-empty list is ignored. */
  lemma TrailingCommaIgnored(value: string)
    requires value != []
    ensures EmailListOk(value + [',']) <==> EmailListOk(value)
  {
    JavaSplitTrailingSeparator(value, ',');
  }

  /** A comma at the start leaves an empty first piece, which is rejected,
      unless nothing but empty pieces follows. */
  lemma LeadingCommaRejected(value: string)
    requires value != [] && JavaSplit(value, ',') != []
    ensures !EmailListOk([','] + value)
  {
    assert [] + [','] + value == [','] + value;
    JavaSplitCons([], ',', value);
    assert JavaSplit([','] + value, ',')[0] == [];
  }

  /** Two commas in a row leave an empty piece between them, which is
      rejected. */
  lemma DoubleCommaRejected(first: string, rest: string)
    requires ',' !in first
    requires rest != [] && JavaSplit(rest, ',') != []
    ensures !EmailListOk(first + [','] + ([','] + rest))
  {
    assert [] + [','] + rest == [','] + rest;
    JavaSplitCons([], ',', rest);
    JavaSplitCons(first, ',', [','] + rest);
    assert JavaSplit(first + [','] + ([','] + rest), ',')[1] == [];
  }

  /** A list of two pieces is accepted exactly when both pieces, trimmed, are
      non-empty addresses. */
  lemma TwoAddresses(first: string, second: string)
    requires ',' !in first && ',' !in second && second != []
    ensures EmailListOk(first + [','] + second) <==>
            Acceptable(JavaTrim(first)) && Acceptable(JavaTrim(second))
  {
    var pieces := JavaSplit(first + [','] + second, ',');
    assert pieces == [first, second] by {
      JavaSplitSingle(second, ',');
      JavaSplitCons(first, ',', second);
    }
    BothOfPair(pieces, first, second, AcceptableCandidate);
  }

  /** A two-element list has every element satisfying `ok` exactly when both
      elements do. */
  lemma BothOfPair(pieces: seq<string>, first: string, second: string, ok: string -> bool)
    requires pieces == [first, second]
    ensures Every(pieces, ok) <==> ok(first) && ok(second)
  {
    if Every(pieces, ok) {
      assert ok(pieces[0]) && ok(pieces[1]);
    }
    if ok(first) && ok(second) {
      forall i | 0 <= i < |pieces| ensures ok(pieces[i]) {
        assert pieces[i] == first || pieces[i] == second;
      }
    }
  }
}
