/**
 * myonly/auth.js, class `AuthSystem`: three quick clicks open the password
 * dialog, the right password enters edit mode (remembered under
 * `portfolioEditMode`), and a security answer can reset the password to
 * `password`. Strings are compared and encoded as UTF-16 code units; the
 * clock is a parameter.
 */
module MyonlyAuth {
  import opened Wrappers
  import opened JsText
  import opened Base64

  const DefaultPassword: string := "password"
  const SecurityAnswer: string := "下巴上带着口罩"
  /** Clicks further apart than this start a new count. */
  const ClickWindow: int := 500

  /**
   * The triple-click counter for a click at `now`: the new count, the new
   * time of the last click, and whether the dialog is asked for.
   */
  function Click(count: int, last: int, now: int): (r: (int, int, bool))
    ensures r.1 == now
    ensures r.2 <==> (if now - last > ClickWindow then 1 else count + 1) == 3
    ensures r.0 == if r.2 then 0 else if now - last > ClickWindow then 1 else count + 1
  {
    var c := if now - last > ClickWindow then 1 else count + 1;
    if c == 3 then (0, now, true) else (c, now, false)
  }

  /** Between clicks the count stays within 0..2. */
  lemma ClickCountBounded(count: int, last: int, now: int)
    requires 0 <= count <= 2
    ensures 0 <= Click(count, last, now).0 <= 2
  {
  }

  /**
   * Three clicks, the second and third within 500 ms of the one before,
   * ask for the dialog on the third and not before, whatever the count
   * was when the first came more than 500 ms after the last click.
   */
  lemma ThreeQuickClicks(count: int, last: int, t1: int, t2: int, t3: int)
    requires t1 - last > ClickWindow && t2 - t1 <= ClickWindow && t3 - t2 <= ClickWindow
    ensures var c1 := Click(count, last, t1);
      var c2 := Click(c1.0, c1.1, t2);
      var c3 := Click(c2.0, c2.1, t3);
      !c1.2 && !c2.2 && c3.2 && c3.0 == 0
  {
  }

  /** A slow click starts the count again, so it never asks for the dialog. */
  lemma SlowClickRestarts(count: int, last: int, now: int)
    requires now - last > ClickWindow
    ensures Click(count, last, now) == (1, now, false)
  {
  }

  /** `String.fromCharCode(code + 1)` for each UTF-16 code unit. */
  function Shifted(units: seq<int>): (r: seq<int>)
    ensures |r| == |units| && forall i :: 0 <= i < |units| ==> r[i] == (units[i] + 1) % 0x10000
  {
    seq(|units|, i requires 0 <= i < |units| => (units[i] + 1) % 0x10000)
  }

  /** `simpleEncrypt`: the shifted units, built up one at a time, then `btoa`, which fails past 0xFF. */
  method SimpleEncrypt(text: seq<int>) returns (r: Option<string>)
    ensures r == BtoaUnits(Shifted(text))
  {
    var result: seq<int> := [];
    var i := 0;
    while i < |text|
      invariant 0 <= i <= |text|
      invariant result == Shifted(text[..i])
    {
      result := result + [(text[i] + 1) % 0x10000];
      i := i + 1;
    }
    assert text[..i] == text;
    r := BtoaUnits(result);
  }

  predicate CodeUnits(units: seq<int>) { forall i :: 0 <= i < |units| ==> 0 <= units[i] < 0x10000 }

  /** Base64 of Latin-1 units loses nothing: different units give different text. */
  lemma BtoaInjective(a: seq<int>, b: seq<int>)
    requires Latin1(a) && Latin1(b) && BtoaUnits(a) == BtoaUnits(b)
    ensures a == b
  {
    var ba := seq(|a|, i requires 0 <= i < |a| && Latin1(a) => a[i] as Byte);
    var bb := seq(|b|, i requires 0 <= i < |b| && Latin1(b) => b[i] as Byte);
    DecodeEncode(ba);
    DecodeEncode(bb);
    assert ba == bb;
    assert |a| == |b|;
    forall i | 0 <= i < |a| ensures a[i] == b[i] {
      assert ba[i] == bb[i];
    }
  }

  /**
   * Where `btoa` accepts both results, `simpleEncrypt` tells different texts
   * apart, so comparing encryptions compares the texts.
   */
  lemma SimpleEncryptInjective(a: seq<int>, b: seq<int>)
    requires CodeUnits(a) && CodeUnits(b)
    requires BtoaUnits(Shifted(a)).Some? && BtoaUnits(Shifted(a)) == BtoaUnits(Shifted(b))
    ensures a == b
  {
    var sa, sb := Shifted(a), Shifted(b);
    assert Latin1(sa) && Latin1(sb);
    BtoaInjective(sa, sb);
    assert |a| == |b|;
    forall i | 0 <= i < |a| ensures a[i] == b[i] {
      assert sa[i] == sb[i];
      ShiftInjective(a[i], b[i], sa[i]);
    }
  }

  lemma ShiftInjective(x: int, y: int, z: int)
    requires 0 <= x < 0x10000 && 0 <= y < 0x10000
    requires z == (x + 1) % 0x10000 && z == (y + 1) % 0x10000
    ensures x == y
  {
  }

  /** The stored security answer is Chinese text, so `btoa` rejects its encryption. */
  lemma SecurityAnswerUnencodable()
    ensures BtoaUnits(Shifted(Units(SecurityAnswer))).None?
  {
    assert Shifted(Units(SecurityAnswer))[0] > 255;
  }

  /** What `verifySecurityAnswer` ends with. */
  datatype Verdict = Blank | Threw | Accepted | Rejected

  class AuthSystem {
    var defaultPassword: string
    var isEditMode: bool
    /** `portfolioPassword` and `portfolioEditMode` in `localStorage`. */
    var storedPassword: Option<string>
    var editModeFlag: Option<string>
    var authModalOpen: bool
    var securityModalOpen: bool
    /** The click handler's `clickCount` and `lastClickTime`. */
    var clickCount: int
    var lastClickTime: int

    /** The constructor with `checkEditMode`: a stored empty password counts as none. */
    constructor (storedPassword: Option<string>, editModeFlag: Option<string>)
      ensures defaultPassword == (if storedPassword.Some? && storedPassword.value != "" then storedPassword.value else DefaultPassword)
      ensures isEditMode <==> editModeFlag == Some("true")
      ensures this.storedPassword == storedPassword && this.editModeFlag == editModeFlag
      ensures !authModalOpen && !securityModalOpen && clickCount == 0 && lastClickTime == 0
    {
      defaultPassword := if storedPassword.Some? && storedPassword.value != "" then storedPassword.value else DefaultPassword;
      this.storedPassword := storedPassword;
      this.editModeFlag := editModeFlag;
      isEditMode := editModeFlag == Some("true");
      authModalOpen := false;
      securityModalOpen := false;
      clickCount := 0;
      lastClickTime := 0;
    }

    /** `showAuthModal`: nothing happens in edit mode. */
    method ShowAuthModal()
      modifies this`authModalOpen
      ensures authModalOpen == (old(authModalOpen) || !isEditMode)
    {
      if isEditMode {
        return;
      }
      authModalOpen := true;
    }

    /** The document click handler at time `now`; clicks on interactive elements are ignored. */
    method HandleClick(now: int, onInteractive: bool)
      modifies this`clickCount, this`lastClickTime, this`authModalOpen
      ensures onInteractive ==> clickCount == old(clickCount) && lastClickTime == old(lastClickTime)
                                && authModalOpen == old(authModalOpen)
      ensures !onInteractive ==>
        var c := Click(old(clickCount), old(lastClickTime), now);
        clickCount == c.0 && lastClickTime == c.1 && authModalOpen == (old(authModalOpen) || (c.2 && !isEditMode))
    {
      if onInteractive {
        return;
      }
      var c := Click(clickCount, lastClickTime, now);
      clickCount, lastClickTime := c.0, c.1;
      if c.2 {
        ShowAuthModal();
      }
    }

    /**
     * `authenticate`: an empty trimmed password changes nothing; the right
     * one enters edit mode and closes the dialog; a wrong one changes
     * nothing either.
     */
    method Authenticate(input: string) returns (ok: bool)
      modifies this`isEditMode, this`editModeFlag, this`authModalOpen
      ensures ok <==> Trim(input) != "" && Trim(input) == defaultPassword
      ensures ok ==> isEditMode && editModeFlag == Some("true") && !authModalOpen
      ensures !ok ==> isEditMode == old(isEditMode) && editModeFlag == old(editModeFlag) && authModalOpen == old(authModalOpen)
    {
      var password := Trim(input);
      if password == "" {
        return false;
      }
      ok := password == defaultPassword;
      if ok {
        EnterEditMode();
        authModalOpen := false;
      }
    }

    method EnterEditMode()
      modifies this`isEditMode, this`editModeFlag
      ensures isEditMode && editModeFlag == Some("true")
    {
      isEditMode := true;
      editModeFlag := Some("true");
    }

    method ExitEditMode()
      modifies this`isEditMode, this`editModeFlag
      ensures !isEditMode && editModeFlag.None?
    {
      isEditMode := false;
      editModeFlag := None;
    }

    /** `toggleEditMode`: leaves edit mode, or else only opens the password dialog. */
    method ToggleEditMode()
      modifies this`isEditMode, this`editModeFlag, this`authModalOpen
      ensures old(isEditMode) ==> !isEditMode && editModeFlag.None? && authModalOpen == old(authModalOpen)
      ensures !old(isEditMode) ==> !isEditMode && editModeFlag == old(editModeFlag) && authModalOpen
    {
      if isEditMode {
        ExitEditMode();
      } else {
        ShowAuthModal();
      }
    }

    /**
     * `verifySecurityAnswer` as written: it compares the encryptions of
     * the answer and of the stored answer, and `btoa` throws on the
     * latter, so once the answer is not blank the call always throws and
     * the password is never reset.
     */
    method VerifySecurityAnswer(input: string) returns (verdict: Verdict)
      modifies this`defaultPassword, this`storedPassword, this`securityModalOpen, this`authModalOpen
      ensures verdict == if Trim(input) == "" then Blank else Threw
      ensures defaultPassword == old(defaultPassword) && storedPassword == old(storedPassword)
      ensures securityModalOpen == old(securityModalOpen) && authModalOpen == old(authModalOpen)
    {
      var answer := Trim(input);
      if answer == "" {
        return Blank;
      }
      var mine := SimpleEncrypt(Units(answer));
      if mine.None? {
        return Threw;
      }
      var stored := SimpleEncrypt(Units(SecurityAnswer));
      SecurityAnswerUnencodable();
      if stored.None? {
        return Threw;
      }
      assert false;
    }

    /**
     * The security check as evidently intended: the trimmed answer is
     * compared with the stored one, and the right answer resets the
     * password to `password`, closes this dialog and opens the password
     * dialog.
     */
    method VerifySecurityAnswerAsIntended(input: string) returns (verdict: Verdict)
      modifies this`defaultPassword, this`storedPassword, this`securityModalOpen, this`authModalOpen
      ensures verdict == if Trim(input) == "" then Blank else if Trim(input) == SecurityAnswer then Accepted else Rejected
      ensures verdict == Accepted ==>
        defaultPassword == DefaultPassword && storedPassword == Some(DefaultPassword)
        && !securityModalOpen && authModalOpen == (old(authModalOpen) || !isEditMode)
      ensures verdict != Accepted ==>
        defaultPassword == old(defaultPassword) && storedPassword == old(storedPassword)
        && securityModalOpen == old(securityModalOpen) && authModalOpen == old(authModalOpen)
    {
      var answer := Trim(input);
      if answer == "" {
        return Blank;
      }
      if answer != SecurityAnswer {
        return Rejected;
      }
      ResetPassword();
      verdict := Accepted;
    }

    /** The reset a right answer performs: back to `password`, and on to the password dialog. */
    method ResetPassword()
      modifies this`defaultPassword, this`storedPassword, this`securityModalOpen, this`authModalOpen
      ensures defaultPassword == DefaultPassword && storedPassword == Some(DefaultPassword)
      ensures !securityModalOpen && authModalOpen == (old(authModalOpen) || !isEditMode)
    {
      defaultPassword := DefaultPassword;
      storedPassword := Some(DefaultPassword);
      securityModalOpen := false;
      ShowAuthModal();
    }
  }
}
