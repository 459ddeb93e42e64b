/**
 * The two input validators of the interview component: a Gmail address and a
 * ten-digit phone number. Each is an anchored regular expression in the source;
 * here each is a scanner, and the lemma beside it proves that it accepts exactly
 * the language the pattern denotes.
 */
module Validation {
  import opened Chars

  const GmailSuffix: string := "@gmail.com"

  /**
   * `validateEmail`: `^[a-zA-Z0-9._%+-]+@gmail\.com$`. The scanner reads the longest
   * run of local-part characters from the start and then wants exactly the suffix.
   */
  predicate ValidateEmail(s: string) {
    var j := RunEnd(EmailLocal, s, 0);
    0 < j && s[j..] == GmailSuffix
  }

  /**
   * The scanner accepts exactly a non-empty run of local-part characters followed by the
   * suffix. Since '@' is not a local-part character, that is also the pattern's only parse.
   */
  lemma ValidateEmailMeaning(s: string)
    ensures ValidateEmail(s) <==>
      |s| > |GmailSuffix|
      && s[|s| - |GmailSuffix|..] == GmailSuffix
      && All(EmailLocal, s[..|s| - |GmailSuffix|])
  {
    var j := RunEnd(EmailLocal, s, 0);
    assert s[..j] == s[0..j];
    if |s| > |GmailSuffix| && s[|s| - |GmailSuffix|..] == GmailSuffix
       && All(EmailLocal, s[..|s| - |GmailSuffix|]) {
      var m := |s| - |GmailSuffix|;
      assert s[m] == s[m..][0] == '@';
    }
  }

  /** `validatePhone`: `^\d{10}$`. */
  predicate ValidatePhone(s: string) {
    |s| == 10 && RunEnd(Digit, s, 0) == 10
  }

  /** The scanner accepts exactly the strings of ten ASCII digits. */
  lemma ValidatePhoneMeaning(s: string)
    ensures ValidatePhone(s) <==> |s| == 10 && All(Digit, s)
  {
    assert s[0..|s|] == s;
  }

  /** Any non-empty run of local-part characters followed by the suffix is valid. */
  lemma EmailFromLocal(local: string)
    requires |local| > 0 && All(EmailLocal, local)
    ensures ValidateEmail(local + GmailSuffix)
  {
    var s := local + GmailSuffix;
    assert s[..|s| - |GmailSuffix|] == local;
    assert s[|s| - |GmailSuffix|..] == GmailSuffix;
    ValidateEmailMeaning(s);
  }
}
