/**
 * The pure part of the resume upload handler: the PDF-extension check on the file
 * name, and the three regular-expression searches that pre-fill name, email and
 * phone from the text already extracted from the document. Each search is a
 * hand-written scanner whose contract is the JavaScript match semantics: the
 * leftmost start wins, and at that start the backtracking engine's first success.
 */
module Resume {
  import opened Wrappers
  import opened Chars
  import opened Validation

  // ---------------------------------------------------------------------------
  // The extension check: file.name.split(".").pop()?.toLowerCase() === "pdf"
  // ---------------------------------------------------------------------------

  /** Position of the last '.' in `s[..hi]`, if any. */
  function LastDot(s: string, hi: nat): (r: Option<nat>)
    requires hi <= |s|
    ensures r.Some? ==> r.value < hi && s[r.value] == '.' && '.' !in s[r.value + 1..hi]
    ensures r.None? ==> '.' !in s[..hi]
    decreases hi
  {
    if hi == 0 then None
    else if s[hi - 1] == '.' then Some(hi - 1)
    else
      var r := LastDot(s, hi - 1);
      assert r.Some? ==> s[r.value + 1..hi] == s[r.value + 1..hi - 1] + [s[hi - 1]];
      assert s[..hi] == s[..hi - 1] + [s[hi - 1]];
      r
  }

  /** The last piece of `name.split(".")`: the text after the last '.', or the whole name when it has none. */
  function Extension(name: string): (ext: string)
    ensures |ext| <= |name| && ext == name[|name| - |ext|..]
    ensures '.' !in ext
    ensures |ext| < |name| ==> name[|name| - |ext| - 1] == '.'
  {
    match LastDot(name, |name|)
    case None => assert name[..|name|] == name; name
    case Some(d) => name[d + 1..]
  }

  /** The upload handler's test: the extension, lower-cased, is "pdf". */
  predicate IsPdf(name: string) {
    Lower(Extension(name)) == "pdf"
  }

  /**
   * The upload is accepted exactly when the name ends in "pdf" in any letter case and
   * that ending is the whole name or follows a '.'.
   */
  lemma IsPdfMeaning(name: string)
    ensures IsPdf(name) <==>
      |name| >= 3 && Lower(name[|name| - 3..]) == "pdf"
      && (|name| == 3 || name[|name| - 4] == '.')
  {
    var ext := Extension(name);
    if |name| >= 3 && Lower(name[|name| - 3..]) == "pdf"
       && (|name| == 3 || name[|name| - 4] == '.') {
      var tail := name[|name| - 3..];
      assert '.' !in tail by {
        forall n | 0 <= n < 3 ensures tail[n] != '.' {
          assert Lower(tail)[n] == LowerChar(tail[n]);
        }
      }
      assert ext == tail;
    }
  }

  // ---------------------------------------------------------------------------
  // Email: /[a-zA-Z0-9._%+-]+@gmail\.com/  (unanchored, first match)
  // ---------------------------------------------------------------------------

  /** The unanchored email pattern matches the slice `s[i..e]` exactly when the anchored one accepts it. */
  predicate EmailMatch(s: string, i: nat, e: nat) {
    i <= e <= |s| && ValidateEmail(s[i..e])
  }

  /**
   * Inside a maximal run `s[i..j]` of local-part characters, a match can start anywhere
   * only by ending with the suffix placed right after the run.
   */
  lemma EmailMatchInRun(s: string, i: nat, j: nat, a: nat, e: nat)
    requires i <= a < j <= |s| && All(EmailLocal, s[i..j]) && (j == |s| || !In(EmailLocal, s[j]))
    requires EmailMatch(s, a, e)
    ensures e == j + |GmailSuffix| && s[j..e] == GmailSuffix
  {
    var t := s[a..e];
    var m := |t| - |GmailSuffix|;
    assert t[m] == t[m..][0] == '@';
    assert !In(EmailLocal, '@');
    assert forall q | i <= q < j :: In(EmailLocal, s[q]) by {
      forall q | i <= q < j ensures In(EmailLocal, s[q]) { assert s[i..j][q - i] == s[q]; }
    }
    assert forall q | a <= q < a + m :: In(EmailLocal, s[q]) by {
      forall q | a <= q < a + m ensures In(EmailLocal, s[q]) { assert t[..m][q - a] == s[q]; }
    }
    assert s[a + m] == t[m];
    assert a + m == j;
    assert s[j..e] == t[m..];
  }

  /** A match can only start at a local-part character. */
  lemma EmailMatchStart(s: string, a: nat, e: nat)
    requires EmailMatch(s, a, e)
    ensures a < |s| && In(EmailLocal, s[a])
  {
    var t := s[a..e];
    assert t[..|t| - |GmailSuffix|][0] == s[a];
  }

  /** No match starts at a position that does not hold a local-part character. */
  lemma NoEmailAt(s: string, a: nat)
    requires a == |s| || (a < |s| && !In(EmailLocal, s[a]))
    ensures forall e :: !EmailMatch(s, a, e)
  {
    forall e ensures !EmailMatch(s, a, e) {
      if EmailMatch(s, a, e) { EmailMatchStart(s, a, e); }
    }
  }

  /** No match starts inside a maximal run of local-part characters that the suffix does not follow. */
  lemma NoEmailInRun(s: string, i: nat, j: nat)
    requires i < j <= |s| && All(EmailLocal, s[i..j]) && (j == |s| || !In(EmailLocal, s[j]))
    requires !(j + |GmailSuffix| <= |s| && s[j..j + |GmailSuffix|] == GmailSuffix)
    ensures forall a, e | i <= a < j :: !EmailMatch(s, a, e)
  {
    forall a, e | i <= a < j ensures !EmailMatch(s, a, e) {
      if EmailMatch(s, a, e) { EmailMatchInRun(s, i, j, a, e); }
    }
  }

  /** A maximal run followed by the suffix is a match, and the only one from its start. */
  lemma EmailAtRun(s: string, i: nat, j: nat)
    requires i < j <= |s| && All(EmailLocal, s[i..j]) && (j == |s| || !In(EmailLocal, s[j]))
    requires j + |GmailSuffix| <= |s| && s[j..j + |GmailSuffix|] == GmailSuffix
    ensures EmailMatch(s, i, j + |GmailSuffix|)
    ensures forall e | EmailMatch(s, i, e) :: e == j + |GmailSuffix|
  {
    var n := |GmailSuffix|;
    assert s[i..j + n] == s[i..j] + GmailSuffix;
    EmailFromLocal(s[i..j]);
    forall e | EmailMatch(s, i, e) ensures e == j + n { EmailMatchInRun(s, i, j, i, e); }
  }

  /** Leftmost-first search for an email from position `i` on: the start and end of the match. */
  function FindEmailFrom(s: string, i: nat): (r: Option<(nat, nat)>)
    requires i <= |s|
    ensures r.Some? ==> i <= r.value.0 && EmailMatch(s, r.value.0, r.value.1)
    ensures r.Some? ==> forall e | EmailMatch(s, r.value.0, e) :: e == r.value.1
    ensures r.Some? ==> forall a, e | i <= a < r.value.0 :: !EmailMatch(s, a, e)
    ensures r.None? ==> forall a, e | i <= a :: !EmailMatch(s, a, e)
    decreases |s| - i
  {
    if i == |s| then
      NoEmailAt(s, i);
      None
    else if !In(EmailLocal, s[i]) then
      NoEmailAt(s, i);
      FindEmailFrom(s, i + 1)
    else
      var j := RunEnd(EmailLocal, s, i);
      if j + |GmailSuffix| <= |s| && s[j..j + |GmailSuffix|] == GmailSuffix then
        EmailAtRun(s, i, j);
        Some((i, j + |GmailSuffix|))
      else
        NoEmailInRun(s, i, j);
        FindEmailFrom(s, j)
  }

  // ---------------------------------------------------------------------------
  // Phone: /\b\d{10}\b/  (first match)
  // ---------------------------------------------------------------------------

  /** `\b` at position `p`: exactly one of the characters around `p` is a word character. */
  predicate WordBoundary(s: string, p: nat)
    requires p <= |s|
  {
    (0 < p && IsWordChar(s[p - 1])) != (p < |s| && IsWordChar(s[p]))
  }

  /** The phone pattern matches ten characters starting at `i`. */
  predicate PhoneMatch(s: string, i: nat) {
    i + 10 <= |s| && WordBoundary(s, i) && ValidatePhone(s[i..i + 10]) && WordBoundary(s, i + 10)
  }

  /** Leftmost search for a phone number from position `i` on; a run of digits is skipped whole. */
  function FindPhoneFrom(s: string, i: nat): (r: Option<nat>)
    requires i <= |s|
    ensures r.Some? ==> i <= r.value && PhoneMatch(s, r.value)
    ensures r.Some? ==> forall a | i <= a < r.value :: !PhoneMatch(s, a)
    ensures r.None? ==> forall a | i <= a :: !PhoneMatch(s, a)
    decreases |s| - i
  {
    if i + 10 > |s| then None
    else if !IsDigit(s[i]) then
      assert !PhoneMatch(s, i) by {
        assert s[i..i + 10][0] == s[i];
      }
      FindPhoneFrom(s, i + 1)
    else
      var j := RunEnd(Digit, s, i);
      if j == i + 10 && WordBoundary(s, i) && WordBoundary(s, j) then
        Some(i)
      else
        assert forall a | i <= a < j :: !PhoneMatch(s, a) by {
          forall a | i <= a < j ensures !PhoneMatch(s, a) {
            if a > i {
              assert s[i..j][a - 1 - i] == s[a - 1];
              assert s[i..j][a - i] == s[a];
            } else if j < i + 10 {
              assert s[i..i + 10][j - i] == s[j];
            } else if j > i + 10 {
              assert s[i..j][10] == s[i + 10];
            }
          }
        }
        FindPhoneFrom(s, j)
  }

  // ---------------------------------------------------------------------------
  // Name: /Name[:\s]+([A-Za-z\s]+)/i  (first match, capture group 1)
  // ---------------------------------------------------------------------------

  /** "Name" in any letter case at position `i`. */
  predicate NameKeyword(s: string, i: nat) {
    i + 4 <= |s| && Lower(s[i..i + 4]) == "name"
  }

  /**
   * The name pattern can match at `i` with its capture group starting at `g`: the keyword,
   * a non-empty run of separators `s[i+4..g]`, and a group of at least one letter or space.
   * Since the group comes last, whenever it can start it extends greedily to the end of its run.
   */
  predicate NameSplit(s: string, i: nat, g: nat) {
    NameKeyword(s, i) && i + 4 < g < |s| && All(NameSeparator, s[i + 4..g]) && In(NameLetter, s[g])
  }

  /** The last space in `s[lo..hi]`, if any. */
  function LastSpace(s: string, lo: nat, hi: nat): (r: Option<nat>)
    requires lo <= hi <= |s|
    ensures r.Some? ==> lo <= r.value < hi && IsSpace(s[r.value])
    ensures r.Some? ==> forall q | r.value < q < hi :: !IsSpace(s[q])
    ensures r.None? ==> forall q | lo <= q < hi :: !IsSpace(s[q])
    decreases hi
  {
    if hi == lo then None
    else if IsSpace(s[hi - 1]) then Some(hi - 1)
    else LastSpace(s, lo, hi - 1)
  }

  /**
   * Where the capture group starts for a match at `i`, as the backtracking engine finds it:
   * the separator run is first taken whole and then given back one character at a time, so
   * the group starts at the largest position that works.
   */
  function GroupStart(s: string, i: nat): (r: Option<nat>)
    ensures r.Some? ==> NameSplit(s, i, r.value)
    ensures r.Some? ==> forall g | r.value < g :: !NameSplit(s, i, g)
    ensures r.None? ==> forall g :: !NameSplit(s, i, g)
  {
    if !NameKeyword(s, i) then None
    else
      var j := RunEnd(NameSeparator, s, i + 4);
      if j == i + 4 then
        None
      else if j < |s| && In(NameLetter, s[j]) then
        Some(j)
      else
        var r := LastSpace(s, i + 5, j);
        // A group start g beyond the separator run would put s[j] among the separators; at or
        // before j it must be a separator that is also a group character, that is a space.
        assert forall g: nat | NameSplit(s, i, g) :: g < j && IsSpace(s[g]) by {
          forall g: nat | NameSplit(s, i, g) ensures g < j && IsSpace(s[g]) {
            if g < j { assert s[i + 4..j][g - i - 4] == s[g]; }
          }
        }
        if r.Some? then
          assert All(NameSeparator, s[i + 4..r.value]) by {
            forall q | i + 4 <= q < r.value ensures In(NameSeparator, s[q]) {
              assert s[i + 4..j][q - i - 4] == s[q];
            }
          }
          r
        else
          None
  }

  /** A name match: where it starts, where the capture group starts and where it ends. */
  datatype NameMatch = NameMatch(start: nat, group: nat, end: nat)

  /** Leftmost search for the name pattern from position `i` on. */
  function FindNameFrom(s: string, i: nat): (r: Option<NameMatch>)
    requires i <= |s|
    ensures r.Some? ==> i <= r.value.start && NameSplit(s, r.value.start, r.value.group)
    ensures r.Some? ==> forall g | r.value.group < g :: !NameSplit(s, r.value.start, g)
    ensures r.Some? ==> forall a, g | i <= a < r.value.start :: !NameSplit(s, a, g)
    ensures r.Some? ==>
      && r.value.group < r.value.end <= |s|
      && All(NameLetter, s[r.value.group..r.value.end])
      && (r.value.end == |s| || !In(NameLetter, s[r.value.end]))
    ensures r.None? ==> forall a, g | i <= a :: !NameSplit(s, a, g)
    decreases |s| - i
  {
    if i == |s| then None
    else
      match GroupStart(s, i)
      case Some(g) =>
        var e := RunEnd(NameLetter, s, g);
        assert s[g..e][0] == s[g];
        Some(NameMatch(i, g, e))
      case None => FindNameFrom(s, i + 1)
  }

  // ---------------------------------------------------------------------------
  // The fields the upload pre-fills
  // ---------------------------------------------------------------------------

  datatype Fields = Fields(name: string, email: string, phone: string)

  /** The first match of the email pattern, or "" when the text has none. */
  function ExtractEmail(text: string): (email: string)
    ensures email == "" || ValidateEmail(email)
    ensures email == "" <==> FindEmailFrom(text, 0).None?
    ensures email != "" ==> exists i, e | 0 <= i <= e <= |text| ::
      && email == text[i..e] && EmailMatch(text, i, e)
      && (forall a, e' | 0 <= a < i :: !EmailMatch(text, a, e'))
      && (forall e' | EmailMatch(text, i, e') :: e' == e)
  {
    match FindEmailFrom(text, 0)
    case None => ""
    case Some((i, e)) => text[i..e]
  }

  /** The first match of the phone pattern, or "" when the text has none. */
  function ExtractPhone(text: string): (phone: string)
    ensures phone == "" || ValidatePhone(phone)
    ensures phone == "" <==> FindPhoneFrom(text, 0).None?
    ensures phone != "" ==> exists i | 0 <= i <= |text| - 10 ::
      && phone == text[i..i + 10] && PhoneMatch(text, i)
      && (forall a | 0 <= a < i :: !PhoneMatch(text, a))
  {
    match FindPhoneFrom(text, 0)
    case None => ""
    case Some(i) => text[i..i + 10]
  }

  /** The trimmed capture group: letters and spaces only, and never starting or ending with a space. */
  function ExtractName(text: string): (name: string)
    ensures All(NameLetter, name)
    ensures name == "" || (IsAsciiLetter(name[0]) && IsAsciiLetter(name[|name| - 1]))
    ensures FindNameFrom(text, 0).None? ==> name == ""
    ensures FindNameFrom(text, 0).Some? ==>
      name == Trim(text[FindNameFrom(text, 0).value.group..FindNameFrom(text, 0).value.end])
  {
    match FindNameFrom(text, 0)
    case None => ""
    case Some(m) =>
      TrimKeepsClass(NameLetter, text[m.group..m.end]);
      Trim(text[m.group..m.end])
  }

  /**
   * The three regular-expression searches of the upload handler over the extracted text:
   * email and phone are empty exactly when their search finds nothing; which match each
   * field holds is stated by `ExtractName`, `ExtractEmail` and `ExtractPhone`.
   */
  function Extract(text: string): (f: Fields)
    ensures f.email == "" || ValidateEmail(f.email)
    ensures f.phone == "" || ValidatePhone(f.phone)
    ensures f.email == "" <==> forall a, e | 0 <= a :: !EmailMatch(text, a, e)
    ensures f.phone == "" <==> forall a | 0 <= a :: !PhoneMatch(text, a)
    ensures All(NameLetter, f.name) && (f.name == "" || (IsAsciiLetter(f.name[0]) && IsAsciiLetter(f.name[|f.name| - 1])))
  {
    Fields(ExtractName(text), ExtractEmail(text), ExtractPhone(text))
  }
}
