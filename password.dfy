/** The password rule of `validatePassword`, which the user schema's `match`
    on `password` repeats:
    /^(?=.*[a-z])(?=.*[A-Z])(?=.*\d)(?=.*[@$!%*?&])[A-Za-z\d@$!%*?&]{8,}$/
    written as a predicate over characters rather than through a regular
    expression engine. */
module Password {
  import opened JsText

  /** The special characters the pattern accepts. */
  const Specials: string := "@$!%*?&"

  predicate IsSpecial(c: char) { c in Specials }

  /** The character class `[A-Za-z\d@$!%*?&]`. */
  predicate IsAllowed(c: char) {
    IsLower(c) || IsUpper(c) || IsDigit(c) || IsSpecial(c)
  }

  /** A look-ahead `(?=.*[…])` at the start of `s`: some character is in the
      class, and `.*` can reach it, so no line terminator comes before it. */
  predicate LooksAhead(s: string, inClass: char -> bool) {
    exists i | 0 <= i < |s| :: inClass(s[i]) && NoLineTerminator(s[..i])
  }

  /** `passwordRegex.test(password)`: the four look-aheads, then the whole
      string (`^…$`) made of at least eight characters of the class. */
  predicate ValidatePassword(password: string) {
    && LooksAhead(password, IsLower)
    && LooksAhead(password, IsUpper)
    && LooksAhead(password, IsDigit)
    && LooksAhead(password, IsSpecial)
    && |password| >= 8
    && forall i | 0 <= i < |password| :: IsAllowed(password[i])
  }

  predicate Has(s: string, inClass: char -> bool) {
    exists i | 0 <= i < |s| :: inClass(s[i])
  }

  /** The rule as the function's documentation states it: at least eight
      characters, each a letter, a digit or one of @$!%*?&, with at least one
      lower-case letter, one upper-case letter, one digit and one special. */
  predicate PasswordPolicy(password: string) {
    && |password| >= 8
    && (forall i | 0 <= i < |password| :: IsAllowed(password[i]))
    && Has(password, IsLower)
    && Has(password, IsUpper)
    && Has(password, IsDigit)
    && Has(password, IsSpecial)
  }

  lemma AllowedIsNotLineTerminator(c: char)
    requires IsAllowed(c)
    ensures !IsLineTerminator(c)
  {
  }

  lemma LooksAheadIffHas(s: string, inClass: char -> bool)
    requires forall i | 0 <= i < |s| :: IsAllowed(s[i])
    ensures LooksAhead(s, inClass) <==> Has(s, inClass)
  {
    if Has(s, inClass) {
      var i :| 0 <= i < |s| && inClass(s[i]);
      forall j | 0 <= j < i
        ensures !IsLineTerminator(s[..i][j])
      {
        AllowedIsNotLineTerminator(s[j]);
      }
      assert inClass(s[i]) && NoLineTerminator(s[..i]);
    }
  }

  /** The regular expression accepts exactly the passwords of the documented policy. */
  lemma ValidatePasswordIsPolicy(password: string)
    ensures ValidatePassword(password) <==> PasswordPolicy(password)
  {
    if forall i | 0 <= i < |password| :: IsAllowed(password[i]) {
      LooksAheadIffHas(password, IsLower);
      LooksAheadIffHas(password, IsUpper);
      LooksAheadIffHas(password, IsDigit);
      LooksAheadIffHas(password, IsSpecial);
    }
  }

  /** Fewer than eight characters never pass. */
  lemma ShortPasswordFails(password: string)
    requires |password| < 8
    ensures !ValidatePassword(password)
  {
  }

  /** One character outside the class (a space, '#', '-') makes the password fail. */
  lemma ForeignCharacterFails(password: string, i: nat)
    requires i < |password| && !IsAllowed(password[i])
    ensures !ValidatePassword(password)
  {
  }

  /** Adding an allowed character at the end keeps a password valid. */
  lemma AppendKeepsValid(password: string, c: char)
    requires ValidatePassword(password) && IsAllowed(c)
    ensures ValidatePassword(password + [c])
  {
    var p := password + [c];
    ValidatePasswordIsPolicy(password);
    forall inClass: char -> bool | Has(password, inClass)
      ensures Has(p, inClass)
    {
      var i :| 0 <= i < |password| && inClass(password[i]);
      assert p[i] == password[i];
    }
    assert forall i | 0 <= i < |p| :: IsAllowed(p[i]) by {
      forall i | 0 <= i < |p| ensures IsAllowed(p[i]) {
        if i < |password| { assert p[i] == password[i]; }
      }
    }
    ValidatePasswordIsPolicy(p);
  }

  function Repeat(c: char, n: nat): (s: string)
    ensures |s| == n && forall i | 0 <= i < n :: s[i] == c
  {
    if n == 0 then [] else Repeat(c, n - 1) + [c]
  }

  /** No upper length bound: any valid password stays valid however many
      allowed characters are appended. */
  lemma {:induction false} PaddingKeepsValid(password: string, c: char, n: nat)
    requires ValidatePassword(password) && IsAllowed(c)
    ensures ValidatePassword(password + Repeat(c, n))
  {
    if n > 0 {
      PaddingKeepsValid(password, c, n - 1);
      AppendKeepsValid(password + Repeat(c, n - 1), c);
      assert password + Repeat(c, n - 1) + [c] == password + Repeat(c, n);
    } else {
      assert password + Repeat(c, n) == password;
    }
  }

  lemma PolicyByWitnesses(p: string, lower: nat, upper: nat, digit: nat, special: nat)
    requires |p| >= 8 && forall i | 0 <= i < |p| :: IsAllowed(p[i])
    requires lower < |p| && IsLower(p[lower]) && upper < |p| && IsUpper(p[upper])
    requires digit < |p| && IsDigit(p[digit]) && special < |p| && IsSpecial(p[special])
    ensures ValidatePassword(p)
  {
    ValidatePasswordIsPolicy(p);
  }

  /** The password of the seed data passes. */
  lemma SeedPasswordPasses()
    ensures ValidatePassword("Pass123!")
  {
    var p := "Pass123!";
    assert p == ['P', 'a', 's', 's', '1', '2', '3', '!'];
    assert forall i | 0 <= i < |p| :: IsAllowed(p[i]);
    PolicyByWitnesses(p, 1, 0, 4, 7);
  }

  /** The password of the API documentation's example passes. */
  lemma DocumentedPasswordPasses()
    ensures ValidatePassword("Password123!")
  {
    var p := "Password123!";
    assert p == ['P', 'a', 's', 's', 'w', 'o', 'r', 'd', '1', '2', '3', '!'];
    assert forall i | 0 <= i < |p| :: IsAllowed(p[i]);
    PolicyByWitnesses(p, 1, 0, 8, 11);
  }

  /** Passwords missing a class, or holding a character outside it, fail. */
  lemma WeakPasswordsFail()
    ensures !ValidatePassword("password123!")
    ensures !ValidatePassword("Pass 123!")
    ensures !ValidatePassword("Pass#1234")
  {
    NoUpperCaseFails("password123!");
    ForeignCharacterFails("Pass 123!", 4);
    ForeignCharacterFails("Pass#1234", 4);
  }

  /** A password without an upper-case letter fails. */
  lemma NoUpperCaseFails(password: string)
    requires forall i | 0 <= i < |password| :: !IsUpper(password[i])
    ensures !ValidatePassword(password)
  {
    ValidatePasswordIsPolicy(password);
  }
}
