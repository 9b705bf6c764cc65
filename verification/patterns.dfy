/** The three regular expressions the CSV import applies with `re.match`:
    `^\d{10,12}$` for the INN, `^\+?\d{10,15}$` for the phone number and
    `^[\w\.-]+@[\w\.-]+\.\w+$` for the e-mail address. */
module Patterns {
  import opened Common
  import opened Text

  /** `^\d{10,12}$`: ten to twelve digits and nothing else. */
  predicate InnMatches(s: string) {
    10 <= |s| <= 12 && AllDigits(s)
  }

  /** `\d{10,15}`. */
  predicate PhoneDigits(s: string) {
    10 <= |s| <= 15 && AllDigits(s)
  }

  /** `^\+?\d{10,15}$`. Once a leading '+' is present only the reading that
      consumes it can succeed, since '+' is not a digit. */
  predicate PhoneMatches(s: string) {
    if |s| > 0 && s[0] == '+' then PhoneDigits(s[1..]) else PhoneDigits(s)
  }

  /** The phone pattern read as a regular expression: the input is an optional
      "+" followed by ten to fifteen digits. */
  lemma PhoneMatchesIffPattern(s: string)
    ensures PhoneMatches(s) <==> PhoneDigits(s) || (|s| > 0 && s[0] == '+' && PhoneDigits(s[1..]))
  {
    if |s| > 0 && s[0] == '+' {
      assert !IsDigit(s[0]);
    }
  }

  /** `[\w\.-]`. */
  predicate IsEmailChar(c: char) {
    IsWordChar(c) || c == '.' || c == '-'
  }

  predicate AllEmailChars(s: string) {
    forall i :: 0 <= i < |s| ==> IsEmailChar(s[i])
  }

  /** One way of reading s as `[\w\.-]+ @ [\w\.-]+ \. \w+`: the '@' at i and
      the '.' at j cut s into three non-empty pieces of the right classes. */
  predicate EmailSplit(s: string, i: int, j: int) {
    && 0 < i && i + 1 < j && j + 1 < |s|
    && s[i] == '@' && s[j] == '.'
    && AllEmailChars(s[..i]) && AllEmailChars(s[i + 1..j]) && AllWordChars(s[j + 1..])
  }

  /** The e-mail pattern: some reading of s succeeds. */
  ghost predicate EmailPattern(s: string) {
    exists i, j :: EmailSplit(s, i, j)
  }

  /** A backtracking-free matcher: the local part ends at the first '@', and
      the top-level suffix starts after the last '.' of what follows. */
  predicate EmailMatches(s: string) {
    match IndexOf(s, '@')
    case None => false
    case Some(i) =>
      var rest := s[i + 1..];
      match LastIndexOf(rest, '.')
      case None => false
      case Some(j) =>
        0 < i && 0 < j && j + 1 < |rest|
        && AllEmailChars(s[..i]) && AllEmailChars(rest[..j]) && AllWordChars(rest[j + 1..])
  }

  /** The matcher accepts exactly the strings the regular expression matches. */
  lemma EmailMatchesIffPattern(s: string)
    ensures EmailMatches(s) <==> EmailPattern(s)
  {
    if EmailMatches(s) {
      var i := IndexOf(s, '@').value;
      var rest := s[i + 1..];
      var j := LastIndexOf(rest, '.').value;
      assert rest[..j] == s[i + 1..i + 1 + j];
      assert rest[j + 1..] == s[i + 1 + j + 1..];
      assert EmailSplit(s, i, i + 1 + j);
    }
    if EmailPattern(s) {
      var i, j :| EmailSplit(s, i, j);
      EmailSplitIsFound(s, i, j);
    }
  }

  /** Any successful reading is the one the matcher finds. */
  lemma EmailSplitIsFound(s: string, i: int, j: int)
    requires EmailSplit(s, i, j)
    ensures EmailMatches(s)
  {
    FirstAtEndsLocalPart(s, i);
    var rest := s[i + 1..];
    var d := j - (i + 1);
    assert rest[d + 1..] == s[j + 1..];
    LastDotStartsSuffix(rest, d);
    assert rest[..d] == s[i + 1..j];
  }

  /** An '@' preceded only by e-mail characters is the first '@'. */
  lemma FirstAtEndsLocalPart(s: string, i: int)
    requires 0 <= i < |s| && s[i] == '@' && AllEmailChars(s[..i])
    ensures IndexOf(s, '@') == Some(i)
  {
    var i' := IndexOf(s, '@').value;
    assert forall k :: 0 <= k < i ==> s[k] != '@' by {
      forall k | 0 <= k < i ensures s[k] != '@' { assert s[k] == s[..i][k]; }
    }
    assert forall k :: 0 <= k < i' ==> s[k] != '@' by {
      forall k | 0 <= k < i' ensures s[k] != '@' { assert s[k] == s[..i'][k]; }
    }
  }

  /** A '.' followed only by word characters is the last '.'. */
  lemma LastDotStartsSuffix(r: string, d: int)
    requires 0 <= d < |r| && r[d] == '.' && AllWordChars(r[d + 1..])
    ensures LastIndexOf(r, '.') == Some(d)
  {
    var d' := LastIndexOf(r, '.').value;
    assert forall k :: d < k < |r| ==> r[k] != '.' by {
      forall k | d < k < |r| ensures r[k] != '.' { assert r[k] == r[d + 1..][k - d - 1]; }
    }
    assert forall k :: d' < k < |r| ==> r[k] != '.' by {
      forall k | d' < k < |r| ensures r[k] != '.' { assert r[k] == r[d' + 1..][k - d' - 1]; }
    }
  }

  /** A final newline, which Python's `$` lets a match stop in front of. */
  predicate EndsInNewline(s: string) {
    |s| > 0 && s[|s| - 1] == '\n'
  }

  /** s without its final newline. */
  function Chomp(s: string): string
    requires EndsInNewline(s)
  {
    s[..|s| - 1]
  }

  /** `re.match(r'^\d{10,12}$', s)`. */
  predicate InnRegex(s: string) {
    InnMatches(s) || (EndsInNewline(s) && InnMatches(Chomp(s)))
  }

  /** `re.match(r'^\+?\d{10,15}$', s)`. */
  predicate PhoneRegex(s: string) {
    PhoneMatches(s) || (EndsInNewline(s) && PhoneMatches(Chomp(s)))
  }

  /** `re.match(r'^[\w\.-]+@[\w\.-]+\.\w+$', s)`. */
  predicate EmailRegex(s: string) {
    EmailMatches(s) || (EndsInNewline(s) && EmailMatches(Chomp(s)))
  }

  /** On a stripped field the trailing-newline allowance of `$` never comes
      into play: each pattern matches the whole field or not at all. */
  lemma RegexOnTrimmed(s: string)
    requires Trimmed(s)
    ensures InnRegex(s) <==> InnMatches(s)
    ensures PhoneRegex(s) <==> PhoneMatches(s)
    ensures EmailRegex(s) <==> EmailMatches(s)
  {
    assert IsSpace('\n');
  }

  /** The allowance is real on unstripped input: each pattern accepts s
      followed by one newline exactly when it accepts s itself. */
  lemma FinalNewlineAllowed(s: string)
    ensures InnRegex(s + "\n") <==> InnMatches(s)
    ensures PhoneRegex(s + "\n") <==> PhoneMatches(s)
    ensures EmailRegex(s + "\n") <==> EmailMatches(s)
  {
    var t := s + "\n";
    assert Chomp(t) == s;
    assert t[|t| - 1] == '\n';
    assert !AllDigits(t);
    if |t| > 0 && t[0] == '+' {
      assert t[1..][|t[1..]| - 1] == '\n';
      assert !AllDigits(t[1..]);
    }
  }
}
