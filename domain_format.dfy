/**
 * The syntactic domain/URL check of the domain-safety service.
 *
 * The service accepts a string exactly when the whole string matches
 *
 *   ^(http[s]?://)?(www\.)?([a-zA-Z0-9-]+\.)+[a-zA-Z]{2,63}(\/[a-zA-Z0-9-._~:/?#\[\]@!$&'()*+,;=]*)?$
 *
 * `InDomainLanguage` states that language as a grammar (some split of the
 * string into the five parts exists); `IsValidDomain` is a deterministic
 * scanner, and `IsValidDomain` is proved to accept exactly that language.
 */
module DomainFormat {

  // ---------------------------------------------------------------------
  // Character classes
  // ---------------------------------------------------------------------

  predicate IsAsciiLetter(c: char) {
    'a' <= c <= 'z' || 'A' <= c <= 'Z'
  }

  predicate IsAsciiDigit(c: char) {
    '0' <= c <= '9'
  }

  /** `[a-zA-Z0-9-]`: a character of a host label. */
  predicate IsLabelChar(c: char) {
    IsAsciiLetter(c) || IsAsciiDigit(c) || c == '-'
  }

  /** A character that may appear in the host part: a label character or a dot. */
  predicate IsHostChar(c: char) {
    IsLabelChar(c) || c == '.'
  }

  /** `[a-zA-Z0-9-._~:/?#\[\]@!$&'()*+,;=]`: a character of the path/query/fragment suffix. */
  predicate IsSuffixChar(c: char) {
    IsAsciiLetter(c) || IsAsciiDigit(c) || c in "-._~:/?#[]@!$&'()*+,;="
  }

  // ---------------------------------------------------------------------
  // The grammar
  // ---------------------------------------------------------------------

  /** `(http[s]?://)?` */
  predicate IsScheme(w: string) {
    w == "" || w == "http://" || w == "https://"
  }

  /** `(www\.)?` */
  predicate IsWwwPrefix(w: string) {
    w == "" || w == "www."
  }

  /** `[a-zA-Z0-9-]+` */
  predicate IsLabel(w: string) {
    |w| >= 1 && forall m :: 0 <= m < |w| ==> IsLabelChar(w[m])
  }

  /** `[a-zA-Z]{2,63}` */
  predicate IsTopLevelLabel(w: string) {
    2 <= |w| <= 63 && forall m :: 0 <= m < |w| ==> IsAsciiLetter(w[m])
  }

  /** `(\/[...]*)?`: empty, or a slash followed by suffix characters. */
  predicate IsSuffix(w: string) {
    w == "" || (w[0] == '/' && forall m :: 1 <= m < |w| ==> IsSuffixChar(w[m]))
  }

  /** `([a-zA-Z0-9-]+\.)+`: `w` splits into one or more labels, each followed by a dot. */
  ghost predicate IsDottedLabels(w: string)
    decreases |w|, 1
  {
    exists i :: LabelThenDots(w, i)
  }

  /** `w` is a label of length `i`, a dot, and then nothing or further dotted labels. */
  ghost predicate LabelThenDots(w: string, i: int)
    decreases |w|, 0
  {
    1 <= i < |w| && IsLabel(w[..i]) && w[i] == '.' && (i + 1 == |w| || IsDottedLabels(w[i + 1..]))
  }

  /** `s` splits at `i <= j <= k <= l` into scheme, `www.`, dotted labels, top-level label and suffix. */
  ghost predicate SplitsAt(s: string, i: nat, j: nat, k: nat, l: nat) {
    && i <= j <= k <= l <= |s|
    && IsScheme(s[..i])
    && IsWwwPrefix(s[i..j])
    && IsDottedLabels(s[j..k])
    && IsTopLevelLabel(s[k..l])
    && IsSuffix(s[l..])
  }

  /** The language of the whole-string regular expression. */
  ghost predicate InDomainLanguage(s: string) {
    exists i: nat, j: nat, k: nat, l: nat :: SplitsAt(s, i, j, k, l)
  }

  // ---------------------------------------------------------------------
  // The scanner
  // ---------------------------------------------------------------------

  /** Length of the `http://` or `https://` prefix of `s`, or 0 when there is none. */
  function SchemeLength(s: string): (n: nat)
    ensures n <= |s| && IsScheme(s[..n])
  {
    if |s| >= 8 && s[..8] == "https://" then 8
    else if |s| >= 7 && s[..7] == "http://" then 7
    else 0
  }

  /** The index of the first `c` in `s`, or `|s|` when `s` has none. */
  function IndexOf(s: string, c: char): (n: nat)
    ensures n <= |s|
    ensures n < |s| ==> s[n] == c
    ensures forall m :: 0 <= m < n ==> s[m] != c
  {
    if s == [] || s[0] == c then 0 else 1 + IndexOf(s[1..], c)
  }

  /** Scans `h` as the host `([a-zA-Z0-9-]+\.)+[a-zA-Z]{2,63}`, one label at a time. */
  predicate ScanHost(h: string)
    decreases |h|
  {
    var d := IndexOf(h, '.');
    d < |h| && IsLabel(h[..d]) && (IsTopLevelLabel(h[d + 1..]) || ScanHost(h[d + 1..]))
  }

  /**
   * The validator: drop the scheme, cut the rest at its first slash, scan
   * the part before the slash as a host and the part from it as a suffix.
   */
  predicate IsValidDomain(s: string)
  {
    var rest := s[SchemeLength(s)..];
    var p := IndexOf(rest, '/');
    ScanHost(rest[..p]) && IsSuffix(rest[p..])
  }

  // ---------------------------------------------------------------------
  // The scanner accepts exactly the grammar's language
  // ---------------------------------------------------------------------

  /** The host part of the grammar, with the top-level label split off at `k`. */
  ghost predicate IsHost(h: string) {
    exists k :: HostSplitsAt(h, k)
  }

  /** `h` is dotted labels up to `k` and a top-level label from `k` on. */
  ghost predicate HostSplitsAt(h: string, k: int) {
    0 <= k <= |h| && IsDottedLabels(h[..k]) && IsTopLevelLabel(h[k..])
  }

  /** Dotted labels are made of host characters, end in a dot and are at least two long. */
  lemma {:induction false} DottedLabelsShape(w: string)
    requires IsDottedLabels(w)
    ensures |w| >= 2 && w[|w| - 1] == '.'
    ensures forall m :: 0 <= m < |w| ==> IsHostChar(w[m])
    decreases |w|
  {
    var i :| LabelThenDots(w, i);
    assert forall m :: 0 <= m < i ==> w[m] == w[..i][m];
    if i + 1 < |w| {
      DottedLabelsShape(w[i + 1..]);
      assert forall m :: i + 1 <= m < |w| ==> w[m] == w[i + 1..][m - i - 1];
    }
  }

  /** A label, a dot and (possibly empty) dotted labels make dotted labels. */
  lemma ConsLabel(lab: string, w: string)
    requires IsLabel(lab)
    requires w == "" || IsDottedLabels(w)
    ensures IsDottedLabels(lab + "." + w)
  {
    var v := lab + "." + w;
    assert v[..|lab|] == lab;
    assert v[|lab| + 1..] == w;
    assert LabelThenDots(v, |lab|);
  }

  /** Dotted labels split deterministically at their first dot. */
  lemma UnconsLabel(w: string)
    requires IsDottedLabels(w)
    ensures var d := IndexOf(w, '.');
      d < |w| && IsLabel(w[..d]) && (d + 1 == |w| || IsDottedLabels(w[d + 1..]))
  {
    var i :| LabelThenDots(w, i);
    forall m | 0 <= m < i
      ensures w[m] != '.'
    {
      assert w[..i][m] == w[m];
    }
    var d := IndexOf(w, '.');
    assert d == i;
  }

  /** A host accepted by the scanner is in the host language. */
  lemma {:induction false} ScanHostSound(h: string)
    requires ScanHost(h)
    ensures IsHost(h)
    decreases |h|
  {
    var d := IndexOf(h, '.');
    var rest := h[d + 1..];
    assert h == h[..d] + "." + rest;
    if IsTopLevelLabel(rest) {
      ConsLabel(h[..d], "");
      assert h[..d + 1] == h[..d] + "." + "";
      assert h[d + 1..] == rest;
      assert HostSplitsAt(h, d + 1);
    } else {
      ScanHostSound(rest);
      var k :| HostSplitsAt(rest, k);
      ConsLabel(h[..d], rest[..k]);
      assert h[..d + 1 + k] == h[..d] + "." + rest[..k];
      assert h[d + 1 + k..] == rest[k..];
      assert HostSplitsAt(h, d + 1 + k);
    }
  }

  /** A host in the host language is accepted by the scanner. */
  lemma {:induction false} ScanHostComplete(h: string)
    requires IsHost(h)
    ensures ScanHost(h)
    decreases |h|
  {
    var k :| HostSplitsAt(h, k);
    var w := h[..k];
    UnconsLabel(w);
    var d := IndexOf(w, '.');
    assert w[..d] == h[..d];
    assert IndexOf(h, '.') == d by {
      IndexOfPrefix(h, k, '.');
    }
    var rest := h[d + 1..];
    if d + 1 == |w| {
      assert rest == h[k..];
    } else {
      assert rest[..k - d - 1] == w[d + 1..];
      assert rest[k - d - 1..] == h[k..];
      assert HostSplitsAt(rest, k - d - 1);
      ScanHostComplete(rest);
    }
  }

  /** The first occurrence found in a prefix is the first occurrence in the whole string. */
  lemma IndexOfPrefix(s: string, k: nat, c: char)
    requires k <= |s|
    requires IndexOf(s[..k], c) < k
    ensures IndexOf(s, c) == IndexOf(s[..k], c)
  {
    var d := IndexOf(s[..k], c);
    assert s[d] == s[..k][d];
  }

  /** `ScanHost` accepts exactly the host language. */
  lemma ScanHostCorrect(h: string)
    ensures ScanHost(h) <==> IsHost(h)
  {
    if ScanHost(h) {
      ScanHostSound(h);
    }
    if IsHost(h) {
      ScanHostComplete(h);
    }
  }

  /** `www.` followed by dotted labels is itself dotted labels: the `www.` part adds nothing. */
  lemma WwwIsALabel(w: string)
    requires IsDottedLabels(w)
    ensures IsDottedLabels("www." + w)
  {
    var v := "www." + w;
    assert v[..3] == "www";
    assert v[4..] == w;
    assert LabelThenDots(v, 3);
  }

  /** In a split, the host part holds no `:` and no `/`, and cannot start with `http`. */
  lemma HostShape(s: string, i: nat, j: nat, k: nat, l: nat)
    requires SplitsAt(s, i, j, k, l)
    ensures l - i >= 4
    ensures forall m :: i <= m < l ==> IsHostChar(s[m])
    ensures l < |s| ==> s[l] == '/'
  {
    DottedLabelsShape(s[j..k]);
    assert forall m :: j <= m < k ==> s[m] == s[j..k][m - j];
    assert forall m :: k <= m < l ==> s[m] == s[k..l][m - k];
    assert forall m :: i <= m < j ==> s[m] == s[i..j][m - i];
    if l < |s| {
      assert s[l] == s[l..][0];
    }
  }

  /** The scheme of any split is the one the scanner strips. */
  lemma SchemeIsForced(s: string, i: nat, j: nat, k: nat, l: nat)
    requires SplitsAt(s, i, j, k, l)
    ensures SchemeLength(s) == i
  {
    HostShape(s, i, j, k, l);
    if i == 0 {
      // the host, at least four long, is followed by nothing or by a slash
      assert |s| < 7 || s[..7][4] != ':';
      assert |s| < 8 || s[..8][4] != 's' || s[..8][5] != ':';
    } else if i == 7 {
      assert |s| < 8 || s[..8][4] == s[..7][4];
    }
  }

  /** Slices of slices, in the forms the proofs below use. */
  lemma DropThenTake(s: string, n: nat, p: nat)
    requires n + p <= |s|
    ensures s[n..][..p] == s[n..n + p]
    ensures s[n..][p..] == s[n + p..]
  {
  }

  lemma SplitRange(s: string, a: nat, b: nat, c: nat)
    requires a <= b <= |s| && c <= b - a
    ensures s[a..b][..c] == s[a..a + c]
    ensures s[a..b][c..] == s[a + c..b]
  {
  }

  /** A string accepted by the scanner splits as the grammar demands. */
  lemma ValidDomainSound(s: string)
    requires IsValidDomain(s)
    ensures InDomainLanguage(s)
  {
    var n := SchemeLength(s);
    var p := IndexOf(s[n..], '/');
    DropThenTake(s, n, p);
    var host := s[n..n + p];
    ScanHostSound(host);
    var k :| HostSplitsAt(host, k);
    SplitRange(s, n, n + p, k);
    assert s[n..n] == "";
    assert SplitsAt(s, n, n, n + k, n + p);
  }

  /** The first slash after the scheme is where the suffix of any split begins. */
  lemma SuffixIsForced(s: string, i: nat, j: nat, k: nat, l: nat)
    requires SplitsAt(s, i, j, k, l)
    ensures IndexOf(s[i..], '/') == l - i
  {
    HostShape(s, i, j, k, l);
  }

  /** The part of a split between scheme and suffix is a host. */
  lemma HostOfSplit(s: string, i: nat, j: nat, k: nat, l: nat)
    requires SplitsAt(s, i, j, k, l)
    ensures IsHost(s[i..l])
  {
    var h := s[i..l];
    assert IsDottedLabels(s[i..k]) by {
      if s[i..j] == "www." {
        WwwIsALabel(s[j..k]);
        assert s[i..k] == "www." + s[j..k];
      } else {
        assert s[i..k] == s[j..k];
      }
    }
    SplitRange(s, i, l, k - i);
    assert HostSplitsAt(h, k - i);
  }

  /** A string in the grammar's language is accepted by the scanner. */
  lemma ValidDomainComplete(s: string)
    requires InDomainLanguage(s)
    ensures IsValidDomain(s)
  {
    var i: nat, j: nat, k: nat, l: nat :| SplitsAt(s, i, j, k, l);
    SchemeIsForced(s, i, j, k, l);
    SuffixIsForced(s, i, j, k, l);
    HostOfSplit(s, i, j, k, l);
    DropThenTake(s, i, l - i);
    ScanHostComplete(s[i..l]);
  }

  /** The scanner accepts exactly the strings of the regular expression's language. */
  lemma ValidDomainIsLanguage(s: string)
    ensures IsValidDomain(s) <==> InDomainLanguage(s)
  {
    if IsValidDomain(s) {
      ValidDomainSound(s);
    }
    if InDomainLanguage(s) {
      ValidDomainComplete(s);
    }
  }

  // ---------------------------------------------------------------------
  // Consequences
  // ---------------------------------------------------------------------

  /** Every character of an accepted string is drawn from the suffix character class. */
  lemma AcceptedCharacters(s: string)
    requires IsValidDomain(s)
    ensures forall m :: 0 <= m < |s| ==> IsSuffixChar(s[m])
  {
    ValidDomainSound(s);
    var i: nat, j: nat, k: nat, l: nat :| SplitsAt(s, i, j, k, l);
    HostShape(s, i, j, k, l);
    forall m | 0 <= m < |s|
      ensures IsSuffixChar(s[m])
    {
      if m < i {
        assert s[m] == s[..i][m];
      } else if l < m {
        assert s[m] == s[l..][m - l];
      }
    }
  }

  /** No string with a space in it is accepted. */
  lemma RejectsSpace(s: string)
    requires ' ' in s
    ensures !IsValidDomain(s)
  {
    if IsValidDomain(s) {
      AcceptedCharacters(s);
    }
  }

  /** Scheme, dotted labels, top-level label and suffix, put together, are accepted. */
  lemma ValidFromPieces(scheme: string, labels: string, tld: string, suffix: string)
    requires IsScheme(scheme) && IsDottedLabels(labels) && IsTopLevelLabel(tld) && IsSuffix(suffix)
    ensures IsValidDomain(scheme + labels + tld + suffix)
  {
    var s := scheme + labels + tld + suffix;
    var i, k, l := |scheme|, |scheme| + |labels|, |scheme| + |labels| + |tld|;
    assert s[..i] == scheme;
    assert s[i..i] == "";
    assert s[i..k] == labels;
    assert s[k..l] == tld;
    assert s[l..] == suffix;
    assert SplitsAt(s, i, i, k, l);
    ValidDomainComplete(s);
  }

  lemma ExampleCom()
    ensures IsValidDomain("example.com")
  {
    var s := "example.com";
    assert s[..0] == "" && s[0..0] == "";
    assert s[0..8] == "example." == "example" + "." + "";
    assert s[8..11] == "com" && s[11..] == "";
    ConsLabel("example", "");
    assert SplitsAt(s, 0, 0, 8, 11);
    ValidDomainComplete(s);
  }

  lemma SubdomainLabels()
    ensures IsDottedLabels("sub.example.co.")
  {
    assert "co." == "co" + "." + "";
    ConsLabel("co", "");
    assert "example.co." == "example" + "." + "co.";
    ConsLabel("example", "co.");
    assert "sub.example.co." == "sub" + "." + "example.co.";
    ConsLabel("sub", "example.co.");
  }

  lemma ExampleUrl()
    ensures IsValidDomain("http://sub.example.co.uk/path?q=1")
  {
    SubdomainLabels();
    ValidFromPieces("http://", "sub.example.co.", "uk", "/path?q=1");
    UrlPieces();
  }

  lemma UrlPieces()
    ensures "http://" + "sub.example.co." + "uk" + "/path?q=1" == "http://sub.example.co.uk/path?q=1"
  {
  }

  /** Without a scheme, every character of an accepted string before its first slash is a host character. */
  lemma HostCharsBeforeSlash(s: string, p: nat)
    requires IsValidDomain(s) && SchemeLength(s) == 0
    requires p <= |s| && '/' !in s[..p]
    ensures forall m :: 0 <= m < p ==> IsHostChar(s[m])
  {
    ValidDomainSound(s);
    var i: nat, j: nat, k: nat, l: nat :| SplitsAt(s, i, j, k, l);
    SchemeIsForced(s, i, j, k, l);
    HostShape(s, i, j, k, l);
    forall m | 0 <= m < p
      ensures s[m] != '/'
    {
      assert s[m] == s[..p][m];
    }
  }

  /** An accepted string without a slash ends in its top-level label, so in two letters at least. */
  lemma EndsInLetters(s: string)
    requires IsValidDomain(s) && '/' !in s
    ensures |s| >= 2 && IsAsciiLetter(s[|s| - 1]) && IsAsciiLetter(s[|s| - 2])
  {
    ValidDomainSound(s);
    var i: nat, j: nat, k: nat, l: nat :| SplitsAt(s, i, j, k, l);
    HostShape(s, i, j, k, l);
    assert l == |s|;
    assert s[|s| - 1] == s[k..l][l - k - 1] && s[|s| - 2] == s[k..l][l - k - 2];
  }

  /** A string not starting with `h` has no scheme, so a character outside the host class before its first slash is rejected. */
  lemma NonHostCharBeforeSlash(s: string, q: nat)
    requires q < |s| && s[0] != 'h' && !IsHostChar(s[q]) && '/' !in s[..q + 1]
    ensures !IsValidDomain(s)
  {
    if IsValidDomain(s) {
      assert SchemeLength(s) == 0 by {
        assert |s| < 7 || s[..7][0] == s[0];
        assert |s| < 8 || s[..8][0] == s[0];
      }
      HostCharsBeforeSlash(s, q + 1);
    }
  }

  /** With no slash, a string whose last two characters are not both letters is rejected. */
  lemma FinalLabelTooShort(s: string)
    requires '/' !in s && |s| >= 2 && !IsAsciiLetter(s[|s| - 2])
    ensures !IsValidDomain(s)
  {
    if IsValidDomain(s) {
      EndsInLetters(s);
    }
  }

  lemma ExampleShortTld()
    ensures !IsValidDomain("example.c")
  {
    var s := "example.c";
    assert '/' !in s && s[7] == '.';
    FinalLabelTooShort(s);
  }

  lemma ExampleFtp()
    ensures !IsValidDomain("ftp://example.com")
  {
    var s := "ftp://example.com";
    assert s[0] == 'f' && s[3] == ':' && '/' !in s[..4];
    NonHostCharBeforeSlash(s, 3);
  }

  lemma ExampleQuery()
    ensures !IsValidDomain("example.com?q=1")
  {
    var s := "example.com?q=1";
    assert s[0] == 'e' && s[11] == '?' && '/' !in s[..12];
    NonHostCharBeforeSlash(s, 11);
  }
}
