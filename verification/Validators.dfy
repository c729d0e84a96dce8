/** The format validators: a length range and a content pattern for each kind of text. */
module Validators {

  predicate InRange(s: string, least: nat, most: nat) {
    least <= |s| <= most
  }

  predicate IsDigit(c: char) {
    '0' <= c <= '9'
  }

  predicate IsAlphanumeric(c: char) {
    IsDigit(c) || 'A' <= c <= 'Z' || 'a' <= c <= 'z'
  }

  predicate IsSpecial(c: char) {
    c in ".,;!?&^@#$%*()[]{}"
  }

  // What the pattern's dot matches
  predicate IsInLine(c: char) {
    c != '\n' && c != '\r'
  }

  predicate IsLogin(s: string) {
    InRange(s, 5, 32) && forall c :: c in s ==> IsAlphanumeric(c)
  }

  predicate IsPassword(s: string) {
    && InRange(s, 7, 32)
    && (forall c :: c in s ==> IsInLine(c))
    && exists c :: c in s && IsSpecial(c)
  }

  predicate IsName(s: string) {
    InRange(s, 1, 50) && forall c :: c in s ==> !IsSpecial(c)
  }

  predicate IsPhone(s: string) {
    s == "" || (|s| == 12 && s[0] == '+' && forall i :: 1 <= i < 12 ==> IsDigit(s[i]))
  }

  predicate IsEmailSplit(s: string, at: nat, dot: nat) {
    && 0 < at && at + 1 < dot < |s| - 1
    && s[at] == '@' && s[dot] == '.'
    && (forall i :: 0 <= i < dot ==> IsInLine(s[i]))
    && (forall i :: dot < i < |s| ==> IsAlphanumeric(s[i]) || s[i] == '_')
  }

  predicate IsEmail(s: string) {
    s == "" || (|s| <= 50 && exists at, dot :: 0 <= at < |s| && 0 <= dot < |s| && IsEmailSplit(s, at, dot))
  }

  predicate IsSelf(s: string) {
    InRange(s, 0, 100) && forall c :: c in s ==> IsInLine(c)
  }

  predicate IsChatName(s: string) {
    InRange(s, 5, 32) && forall c :: c in s ==> !IsSpecial(c)
  }

  /** Every login is acceptable as a name, which is why signing up may store it as one. */
  lemma LoginIsName(s: string)
    requires IsLogin(s)
    ensures IsName(s)
  {
    forall c | c in s ensures !IsSpecial(c) {
      assert IsAlphanumeric(c);
    }
  }
}
