/**
 * The field rules applied at every write boundary (registration, admin
 * creation of users and stores, password change): name and address length,
 * the password pattern, and the order in which the checks reject.
 */
module Validation {
  import opened Tables

  /** Why a write was refused with status 400. */
  datatype Why =
    | InvalidRole
    | NameLength
    | InvalidEmail
    | WeakPassword
    | AddressLength
    | EmailTaken
    | InvalidOwner
    | WrongOldPassword

  /** The UTF-16 code units JavaScript stores for a character: two above U+FFFF. */
  function Utf16Units(c: char): nat {
    if c as int >= 0x1_0000 then 2 else 1
  }

  /** `s.length` in JavaScript: the number of UTF-16 code units. */
  function JsLength(s: string): (n: nat)
    ensures |s| <= n <= 2 * |s|
    ensures n == 0 <==> s == []
  {
    if s == [] then 0 else Utf16Units(s[0]) + JsLength(s[1..])
  }

  /** A string of characters below U+10000 has one code unit per character. */
  lemma {:induction false} BmpLength(s: string)
    requires forall i :: 0 <= i < |s| ==> s[i] as int < 0x1_0000
    ensures JsLength(s) == |s|
  {
    if s != [] {
      assert forall i :: 0 <= i < |s[1..]| ==> s[1..][i] == s[i + 1];
      BmpLength(s[1..]);
    }
  }

  /** A string of characters above U+FFFF (emoji, say) has two code units per character. */
  lemma {:induction false} AstralLength(s: string)
    requires forall i :: 0 <= i < |s| ==> s[i] as int >= 0x1_0000
    ensures JsLength(s) == 2 * |s|
  {
    if s != [] {
      assert forall i :: 0 <= i < |s[1..]| ==> s[1..][i] == s[i + 1];
      AstralLength(s[1..]);
    }
  }

  /** `!name || name.length < 20 || name.length > 60` rejects. */
  predicate ValidName(name: string) {
    20 <= JsLength(name) <= 60
  }

  /** `!address || address.length > 400` rejects. */
  predicate ValidAddress(address: string) {
    0 < JsLength(address) <= 400
  }

  /** `["admin", "owner", "user"].includes(role)`. */
  predicate KnownRole(role: string) {
    role == AdminRole || role == OwnerRole || role == UserRole
  }

  predicate IsUpper(c: char) { 'A' <= c <= 'Z' }

  predicate IsSpecial(c: char) { c in "!@#$%^&*" }

  /** The character class `[A-Za-z\d!@#$%^&*]` (`\d` is ASCII 0-9 in a non-Unicode pattern). */
  predicate PasswordChar(c: char) {
    IsUpper(c) || 'a' <= c <= 'z' || '0' <= c <= '9' || IsSpecial(c)
  }

  predicate AllPasswordChars(p: string) {
    p == [] || (PasswordChar(p[0]) && AllPasswordChars(p[1..]))
  }

  predicate HasUpper(p: string) {
    p != [] && (IsUpper(p[0]) || HasUpper(p[1..]))
  }

  predicate HasSpecial(p: string) {
    p != [] && (IsSpecial(p[0]) || HasSpecial(p[1..]))
  }

  /**
   * `/^(?=.*[A-Z])(?=.*[!@#$%^&*])[A-Za-z\d!@#$%^&*]{8,16}$/.test(p)`, as a
   * scan: the body `{8,16}` fixes the length and the class of every character;
   * as the class admits no line terminator, each look-ahead `.*X` amounts to
   * "some character is an X".
   */
  predicate PasswordAccepted(p: string) {
    8 <= |p| <= 16 && AllPasswordChars(p) && HasUpper(p) && HasSpecial(p)
  }

  /** The password rule stated over character positions. */
  ghost predicate PasswordRule(p: string) {
    && 8 <= |p| <= 16
    && (forall i :: 0 <= i < |p| ==> PasswordChar(p[i]))
    && (exists i :: 0 <= i < |p| && IsUpper(p[i]))
    && (exists i :: 0 <= i < |p| && IsSpecial(p[i]))
  }

  lemma {:induction false} AllPasswordCharsIff(p: string)
    ensures AllPasswordChars(p) <==> forall i :: 0 <= i < |p| ==> PasswordChar(p[i])
  {
    if p != [] {
      AllPasswordCharsIff(p[1..]);
      assert forall i :: 1 <= i < |p| ==> p[i] == p[1..][i - 1];
    }
  }

  lemma {:induction false} HasUpperIff(p: string)
    ensures HasUpper(p) <==> exists i :: 0 <= i < |p| && IsUpper(p[i])
  {
    if p != [] {
      HasUpperIff(p[1..]);
      if exists i :: 0 <= i < |p| && IsUpper(p[i]) {
        var i :| 0 <= i < |p| && IsUpper(p[i]);
        if i > 0 { assert IsUpper(p[1..][i - 1]); }
      }
      if exists i :: 0 <= i < |p[1..]| && IsUpper(p[1..][i]) {
        var i :| 0 <= i < |p[1..]| && IsUpper(p[1..][i]);
        assert IsUpper(p[i + 1]);
      }
    }
  }

  lemma {:induction false} HasSpecialIff(p: string)
    ensures HasSpecial(p) <==> exists i :: 0 <= i < |p| && IsSpecial(p[i])
  {
    if p != [] {
      HasSpecialIff(p[1..]);
      if exists i :: 0 <= i < |p| && IsSpecial(p[i]) {
        var i :| 0 <= i < |p| && IsSpecial(p[i]);
        if i > 0 { assert IsSpecial(p[1..][i - 1]); }
      }
      if exists i :: 0 <= i < |p[1..]| && IsSpecial(p[1..][i]) {
        var i :| 0 <= i < |p[1..]| && IsSpecial(p[1..][i]);
        assert IsSpecial(p[i + 1]);
      }
    }
  }

  /** The scan accepts exactly the passwords the positional rule describes. */
  lemma PasswordAcceptedIff(p: string)
    ensures PasswordAccepted(p) <==> PasswordRule(p)
  {
    AllPasswordCharsIff(p);
    HasUpperIff(p);
    HasSpecialIff(p);
  }

  /** A password of only lower-case letters and digits is refused, whatever its length. */
  lemma {:induction false} NoUpperRefused(p: string)
    requires forall i :: 0 <= i < |p| ==> 'a' <= p[i] <= 'z' || '0' <= p[i] <= '9'
    ensures !PasswordAccepted(p)
  {
    HasUpperIff(p);
  }

  /** A password of only letters and digits is refused, whatever its length. */
  lemma {:induction false} NoSpecialRefused(p: string)
    requires forall i :: 0 <= i < |p| ==> 'a' <= p[i] <= 'z' || 'A' <= p[i] <= 'Z' || '0' <= p[i] <= '9'
    ensures !PasswordAccepted(p)
  {
    HasSpecialIff(p);
  }

  /**
   * The checks shared by registration and admin user creation, in source
   * order: name, email, password, address. The first that fails is reported.
   */
  function UserFieldsCheck(name: string, email: string, password: string, address: string,
                           isEmail: string -> bool): (r: Option<Why>)
    ensures r == None <==> ValidName(name) && isEmail(email) && PasswordAccepted(password)
                           && ValidAddress(address)
    ensures !ValidName(name) ==> r == Some(NameLength)
    ensures ValidName(name) && !isEmail(email) ==> r == Some(InvalidEmail)
    ensures ValidName(name) && isEmail(email) && !PasswordAccepted(password) ==> r == Some(WeakPassword)
    ensures ValidName(name) && isEmail(email) && PasswordAccepted(password) && !ValidAddress(address) ==>
              r == Some(AddressLength)
    ensures r.Some? ==> r.value in {NameLength, InvalidEmail, WeakPassword, AddressLength}
  {
    if !ValidName(name) then Some(NameLength)
    else if !isEmail(email) then Some(InvalidEmail)
    else if !PasswordAccepted(password) then Some(WeakPassword)
    else if !ValidAddress(address) then Some(AddressLength)
    else None
  }

  /** The checks of admin store creation, in source order: name, email, address. */
  function StoreFieldsCheck(name: string, email: string, address: string,
                            isEmail: string -> bool): (r: Option<Why>)
    ensures r == None <==> ValidName(name) && isEmail(email) && ValidAddress(address)
    ensures !ValidName(name) ==> r == Some(NameLength)
    ensures ValidName(name) && !isEmail(email) ==> r == Some(InvalidEmail)
    ensures ValidName(name) && isEmail(email) && !ValidAddress(address) ==> r == Some(AddressLength)
    ensures r.Some? ==> r.value in {NameLength, InvalidEmail, AddressLength}
  {
    if !ValidName(name) then Some(NameLength)
    else if !isEmail(email) then Some(InvalidEmail)
    else if !ValidAddress(address) then Some(AddressLength)
    else None
  }

  /** The boundaries of the length rules, in code units: 19 and 61 are too few
      and too many for a name, 400 is the longest address, 401 too long. */
  lemma LengthBoundaries(s19: string, s20: string, s60: string, s61: string,
                         a400: string, a401: string)
    requires JsLength(s19) == 19 && JsLength(s20) == 20 && JsLength(s60) == 60 && JsLength(s61) == 61
    requires JsLength(a400) == 400 && JsLength(a401) == 401
    ensures !ValidName(s19) && ValidName(s20) && ValidName(s60) && !ValidName(s61)
    ensures ValidAddress(a400) && !ValidAddress(a401) && !ValidAddress("")
  {
  }

  /** For text below U+10000 the bounds are character counts: 20..60 for a
      name, 1..400 for an address. */
  lemma BmpBoundaries(name: string, address: string)
    requires forall i :: 0 <= i < |name| ==> name[i] as int < 0x1_0000
    requires forall i :: 0 <= i < |address| ==> address[i] as int < 0x1_0000
    ensures ValidName(name) <==> 20 <= |name| <= 60
    ensures ValidAddress(address) <==> 0 < |address| <= 400
  {
    BmpLength(name);
    BmpLength(address);
  }

  /** Characters above U+FFFF count twice: a name of 10..30 emoji is accepted,
      and an address of 201 emoji is already too long. */
  lemma AstralBoundaries(name: string, address: string)
    requires forall i :: 0 <= i < |name| ==> name[i] as int >= 0x1_0000
    requires forall i :: 0 <= i < |address| ==> address[i] as int >= 0x1_0000
    ensures ValidName(name) <==> 10 <= |name| <= 30
    ensures ValidAddress(address) <==> 0 < |address| <= 200
  {
    AstralLength(name);
    AstralLength(address);
  }

  /** Samples: "Secret#123" passes the pattern; "Sec#1" is too short. */
  lemma PasswordSamples()
    ensures PasswordAccepted("Secret#123")
    ensures !PasswordAccepted("Sec#1")
  {
    assert HasUpper("Secret#123");
    assert HasSpecial("Secret#123"[6..]);
  }
}
