/**
 * deepseekooooo/auth.js, class `AuthManager`: the password is kept under
 * `portfolio_password` as `btoa` of the reversed text, `verifyPassword`
 * compares encryptions, and a security answer resets the stored password to
 * the encryption of `password`. The stored value is a parameter and the new
 * stored value a result; a thrown `InvalidCharacterError` is an outcome.
 */
module DeepseekAuth {
  import opened Wrappers
  import opened JsText
  import opened Base64

  const DefaultPassword: string := "password"
  const SecurityAnswer: string := "下巴上带着口罩"

  /** `text.split('').reverse().join('')`, one code unit at a time. */
  function Reverse(s: string): (r: string)
    ensures |r| == |s| && forall i :: 0 <= i < |s| ==> r[i] == s[|s| - 1 - i]
  {
    if s == [] then [] else Reverse(s[1..]) + [s[0]]
  }

  /** Reversing twice gives the text back. */
  lemma ReverseReverse(s: string)
    ensures Reverse(Reverse(s)) == s
  {
  }

  /** `encrypt`: `btoa` of the reversed text, which throws once a unit lies above 0xFF. */
  function Encrypt(text: string): (r: Option<string>)
    ensures r.Some? <==> Latin1(Units(text))
  {
    var rev := Reverse(text);
    assert Latin1(Units(rev)) <==> Latin1(Units(text)) by {
      assert forall i :: 0 <= i < |text| ==> Units(rev)[i] == Units(text)[|text| - 1 - i];
      assert forall i :: 0 <= i < |text| ==> Units(text)[i] == Units(rev)[|text| - 1 - i];
    }
    Btoa(rev)
  }

  /** `decrypt`: the reversed result of `atob`, or the empty string when `atob` throws. */
  function Decrypt(text: string): (r: string)
    ensures Atob(text).None? ==> r == ""
    ensures Atob(text).Some? ==> |r| == |Atob(text).value|
  {
    match Atob(text)
    case None => ""
    case Some(s) => Reverse(s)
  }

  /** `decrypt` undoes `encrypt` wherever `encrypt` does not throw. */
  lemma DecryptEncrypt(s: string)
    requires Latin1(Units(s))
    ensures Encrypt(s).Some? && Decrypt(Encrypt(s).value) == s
  {
    var rev := Reverse(s);
    assert Latin1(Units(rev)) by {
      assert forall i :: 0 <= i < |s| ==> Units(rev)[i] == Units(s)[|s| - 1 - i];
    }
    AtobBtoa(rev);
    ReverseReverse(s);
  }

  /** Two texts with the same encryption are the same text. */
  lemma EncryptInjective(a: string, b: string)
    requires Encrypt(a).Some? && Encrypt(a) == Encrypt(b)
    ensures a == b
  {
    DecryptEncrypt(a);
    DecryptEncrypt(b);
  }

  /** `loadPassword`: the new stored value; the default is written only when nothing (or nothing but `''`) is stored. */
  function LoadPassword(stored: Option<string>): (r: Option<string>)
    ensures stored.None? || stored == Some("") ==> r.Some? && Decrypt(r.value) == DefaultPassword
    ensures stored.Some? && stored != Some("") ==> r == stored
  {
    if stored.None? || stored.value == "" then
      DefaultEncrypted();
      Encrypt(DefaultPassword)
    else stored
  }

  /** The encryption of `password` exists and decrypts to `password`. */
  lemma DefaultEncrypted()
    ensures Encrypt(DefaultPassword).Some? && Decrypt(Encrypt(DefaultPassword).value) == DefaultPassword
  {
    DecryptEncrypt(DefaultPassword);
  }

  /** Loading twice writes no more than loading once. */
  lemma LoadPasswordIdempotent(stored: Option<string>)
    ensures LoadPassword(LoadPassword(stored)) == LoadPassword(stored)
  {
    if stored.None? || stored == Some("") {
      DefaultEncrypted();
      assert Encrypt(DefaultPassword).value != "";
    }
  }

  /** What a password check or a security check ends with. */
  datatype Outcome = Threw | Accepted | Rejected

  /** `verifyPassword`: accepted exactly when the encryption of the input equals the stored value. */
  function VerifyPassword(password: string, saved: Option<string>): (r: Outcome)
    ensures r == Threw <==> !Latin1(Units(password))
    ensures r == Accepted <==> Encrypt(password).Some? && saved == Encrypt(password)
  {
    var mine := Encrypt(password);
    if mine.None? then Threw
    else if saved == mine then Accepted
    else Rejected
  }

  /**
   * After the first load, `password` is accepted and every other password
   * that can be encrypted is rejected.
   */
  lemma OnlyDefaultAfterLoad(password: string)
    requires Latin1(Units(password))
    ensures VerifyPassword(password, LoadPassword(None)) == (if password == DefaultPassword then Accepted else Rejected)
  {
    DefaultEncrypted();
    if Encrypt(password) == Encrypt(DefaultPassword) {
      EncryptInjective(password, DefaultPassword);
    }
  }

  /** A stored value is accepted for at most one password. */
  lemma AtMostOnePassword(a: string, b: string, saved: Option<string>)
    requires VerifyPassword(a, saved) == Accepted && VerifyPassword(b, saved) == Accepted
    ensures a == b
  {
    EncryptInjective(a, b);
  }

  /** The stored security answer is Chinese text, so its encryption throws. */
  lemma SecurityAnswerUnencodable()
    ensures Encrypt(SecurityAnswer).None?
  {
    assert Units(SecurityAnswer)[0] > 255;
  }

  /**
   * `verifySecurityAnswer` as written: the outcome and the new stored value.
   * The trimmed answer is encrypted first, which throws on non-Latin-1
   * text; otherwise the stored answer is encrypted, which always throws. So
   * every call throws and the password is never reset.
   */
  function VerifySecurityAnswer(input: string, saved: Option<string>): (r: (Outcome, Option<string>))
    ensures r == (Threw, saved)
  {
    var answer := Trim(input);
    if Encrypt(answer).None? then (Threw, saved)
    else
      SecurityAnswerUnencodable();
      if Encrypt(SecurityAnswer).None? then (Threw, saved)
      else if Encrypt(answer) == Encrypt(SecurityAnswer) then (Accepted, Encrypt(DefaultPassword))
      else (Rejected, saved)
  }

  /**
   * The reset as evidently intended: the trimmed answer is compared with
   * the stored one, and the right answer stores the encryption of
   * `password`.
   */
  function VerifySecurityAnswerAsIntended(input: string, saved: Option<string>): (r: (Outcome, Option<string>))
    ensures r.0 == Accepted <==> Trim(input) == SecurityAnswer
    ensures r.0 != Threw
    ensures r.0 == Rejected ==> r.1 == saved
  {
    if Trim(input) == SecurityAnswer then (Accepted, Encrypt(DefaultPassword)) else (Rejected, saved)
  }

  /** After the intended reset, `password` is the one password accepted. */
  lemma ResetRestoresDefault(input: string, saved: Option<string>, password: string)
    requires VerifySecurityAnswerAsIntended(input, saved).0 == Accepted
    requires Latin1(Units(password))
    ensures VerifyPassword(password, VerifySecurityAnswerAsIntended(input, saved).1)
      == (if password == DefaultPassword then Accepted else Rejected)
  {
    DefaultEncrypted();
    if Encrypt(password) == Encrypt(DefaultPassword) {
      EncryptInjective(password, DefaultPassword);
    }
  }
}
