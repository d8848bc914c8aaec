/**
 * Member accounts: phone normalisation, the sign-up and sign-in validation chains, and the
 * stored member list that sign-up appends to.
 */
module Accounts {
  import opened Wrappers
  import opened Sequences

  /** A member; `plan` is the plan id remembered at sign-up, if any. */
  datatype User = User(id: string, name: string, phone: string, email: string, password: string, plan: Option<string>)

  /** The reasons sign-up and sign-in refuse, in the order they are checked. */
  datatype AuthError =
    | MissingField        // some sign-up field is empty
    | ShortPassword       // sign-up password under 6 UTF-16 code units
    | MalformedEmail      // sign-up address does not match the e-mail pattern
    | MalformedPhone      // normalised phone is not 11 digits starting with 010
    | EmailTaken          // a member already has this address
    | BadSignInInput      // sign-in address or password empty, or password under 6 UTF-16 code units
    | UnknownOrWrongPassword

  predicate IsAsciiDigit(c: char) {
    '0' <= c <= '9'
  }

  /** The phone number with every character other than 0-9 removed. */
  function NormalizePhone(p: string): (r: string)
    ensures forall i :: 0 <= i < |r| ==> IsAsciiDigit(r[i])
    ensures IsSubsequence(r, p)
    ensures forall i :: 0 <= i < |p| && IsAsciiDigit(p[i]) ==> p[i] in r
    ensures |r| == Count(p, IsAsciiDigit)
  {
    FilterIsSubsequence(p, IsAsciiDigit);
    Filter(p, IsAsciiDigit)
  }

  /** Normalising twice is normalising once; a string of digits is already normal. */
  lemma NormalizePhoneIdempotent(p: string)
    ensures NormalizePhone(NormalizePhone(p)) == NormalizePhone(p)
    ensures (forall i :: 0 <= i < |p| ==> IsAsciiDigit(p[i])) ==> NormalizePhone(p) == p
  {
    FilterKeepsAll(NormalizePhone(p), IsAsciiDigit);
    if forall i :: 0 <= i < |p| ==> IsAsciiDigit(p[i]) {
      FilterKeepsAll(p, IsAsciiDigit);
    }
  }

  /** A mobile number: 11 digits starting with 010. */
  predicate IsMobileNumber(p: string) {
    |p| == 11 && p[..3] == "010"
  }

  /** startsWith('010') on an 11-character number: its first three characters are '0', '1', '0'. */
  lemma MobileNumberShape(p: string)
    ensures IsMobileNumber(p) <==> |p| == 11 && p[0] == '0' && p[1] == '1' && p[2] == '0'
  {
    if |p| == 11 && p[0] == '0' && p[1] == '1' && p[2] == '0' {
      assert p[..3] == "010";
    }
  }

  /** The characters the JavaScript regular-expression class \s matches. */
  predicate IsJsSpace(c: char) {
    var n := c as int;
    (9 <= n <= 13) || n == 0x20 || n == 0xA0 || n == 0x1680 || (0x2000 <= n <= 0x200A) ||
    n == 0x2028 || n == 0x2029 || n == 0x202F || n == 0x205F || n == 0x3000 || n == 0xFEFF
  }

  /** The class \s holds the ASCII blanks and none of the characters an address is made of. */
  lemma JsSpaceClass(c: char)
    ensures c == ' ' || c as int == 9 || c as int == 10 || c as int == 13 ==> IsJsSpace(c)
    ensures IsAsciiDigit(c) || 'a' <= c <= 'z' || 'A' <= c <= 'Z' || c == '@' || c == '.' ==> !IsJsSpace(c)
  {
  }

  /** Every character is neither '@' nor white space: the class [^@\s]. */
  predicate Plain(s: string) {
    forall i :: 0 <= i < |s| ==> s[i] != '@' && !IsJsSpace(s[i])
  }

  /**
   * The sign-up e-mail pattern: a plain part, '@', a plain part, '.', a plain part, each
   * part non-empty and filling the whole string.
   */
  predicate MatchesEmailPattern(e: string): (b: bool)
    ensures b ==> |e| >= 5 && '@' in e && '.' in e
  {
    exists at, dot | 0 < at < |e| && at + 1 < dot < |e| - 1 ::
      e[at] == '@' && e[dot] == '.' && Plain(e[..at]) && Plain(e[at + 1..dot]) && Plain(e[dot + 1..])
  }

  /** A matching address has exactly one '@', not at either end, and no white space. */
  lemma EmailPatternShape(e: string)
    requires MatchesEmailPattern(e)
    ensures exists at :: 0 < at < |e| - 1 && e[at] == '@' && forall i :: 0 <= i < |e| && i != at ==> e[i] != '@'
    ensures forall i :: 0 <= i < |e| ==> !IsJsSpace(e[i])
  {
    var at, dot :| 0 < at < |e| && at + 1 < dot < |e| - 1 &&
      e[at] == '@' && e[dot] == '.' && Plain(e[..at]) && Plain(e[at + 1..dot]) && Plain(e[dot + 1..]);
    forall i | 0 <= i < |e| && i != at ensures e[i] != '@' && !IsJsSpace(e[i]) {
      if i < at {
        assert e[..at][i] == e[i];
      } else if i < dot {
        assert e[at + 1..dot][i - at - 1] == e[i];
      } else if i > dot {
        assert e[dot + 1..][i - dot - 1] == e[i];
      }
    }
  }

  lemma EmailAccepted()
    ensures MatchesEmailPattern("kim@wins.law")
  {
    var e := "kim@wins.law";
    assert e[3] == '@' && e[8] == '.' && Plain(e[..3]) && Plain(e[4..8]) && Plain(e[9..]);
  }

  lemma EmailWithoutDotRejected()
    ensures !MatchesEmailPattern("kim@wins")
  {
    var e := "kim@wins";
    assert forall i | 0 <= i < |e| :: e[i] != '.';
  }

  lemma EmailWithSpaceRejected()
    ensures !MatchesEmailPattern("kim lee@wins.law")
  {
    var g := "kim lee@wins.law";
    assert IsJsSpace(g[3]);
    if MatchesEmailPattern(g) {
      EmailPatternShape(g);
    }
  }

  /** Sample addresses: a well-formed one passes; one without a dot or with a space does not. */
  lemma EmailPatternExamples()
    ensures MatchesEmailPattern("kim@wins.law")
    ensures !MatchesEmailPattern("kim@wins")
    ensures !MatchesEmailPattern("kim lee@wins.law")
  {
    EmailAccepted();
    EmailWithoutDotRejected();
    EmailWithSpaceRejected();
  }

  /** The first member with this address. */
  function FindUser(users: seq<User>, email: string): (found: Option<User>)
    ensures found.None? <==> forall u :: u in users ==> u.email != email
    ensures found.Some? ==> found.value in users && found.value.email == email
    ensures found.Some? ==> exists i :: 0 <= i < |users| && users[i] == found.value &&
                              forall j :: 0 <= j < i ==> users[j].email != email
  {
    if users == [] then None
    else if users[0].email == email then Some(users[0])
    else
      var rest := FindUser(users[1..], email);
      if rest.Some? then
        var i :| 0 <= i < |users[1..]| && users[1..][i] == rest.value &&
                 forall j :: 0 <= j < i ==> users[1..][j].email != email;
        assert users[i + 1] == rest.value;
        rest
      else rest
  }

  /**
   * The length JavaScript reports for a string: its UTF-16 code units, two for a character
   * beyond U+FFFF and one for any other.
   */
  function Utf16Length(s: string): (n: nat)
    ensures |s| <= n <= 2 * |s|
    ensures (forall i :: 0 <= i < |s| ==> s[i] as int <= 0xFFFF) ==> n == |s|
  {
    if s == [] then 0 else (if s[0] as int > 0xFFFF then 2 else 1) + Utf16Length(s[1..])
  }

  /** Three emoji are three characters but have JavaScript length 6: enough for a password. */
  lemma AstralPasswordLength()
    ensures |"\U{1F600}\U{1F600}\U{1F600}"| == 3
    ensures Utf16Length("\U{1F600}\U{1F600}\U{1F600}") == 6
  {
    var s := "\U{1F600}\U{1F600}\U{1F600}";
    assert s[1..][1..][1..] == [];
  }

  /**
   * The sign-up checks, in order; the first that fails gives the error. The password
   * length is JavaScript's, in UTF-16 code units.
   */
  function RegisterCheck(users: seq<User>, name: string, phone: string, email: string, password: string): (e: Option<AuthError>)
    ensures e.None? <==>
              name != "" && phone != "" && email != "" && Utf16Length(password) >= 6 &&
              MatchesEmailPattern(email) && IsMobileNumber(NormalizePhone(phone)) &&
              forall u :: u in users ==> u.email != email
    ensures !AllFilled(name, phone, email, password) ==> e == Some(MissingField)
    ensures AllFilled(name, phone, email, password) && Utf16Length(password) < 6 ==> e == Some(ShortPassword)
    ensures (AllFilled(name, phone, email, password) && Utf16Length(password) >= 6 &&
             !MatchesEmailPattern(email)) ==> e == Some(MalformedEmail)
    ensures (AllFilled(name, phone, email, password) && Utf16Length(password) >= 6 &&
             MatchesEmailPattern(email) && !IsMobileNumber(NormalizePhone(phone))) ==> e == Some(MalformedPhone)
    ensures (AllFilled(name, phone, email, password) && Utf16Length(password) >= 6 &&
             MatchesEmailPattern(email) && IsMobileNumber(NormalizePhone(phone)) &&
             FindUser(users, email).Some?) ==> e == Some(EmailTaken)
  {
    if !AllFilled(name, phone, email, password) then Some(MissingField)
    else if Utf16Length(password) < 6 then Some(ShortPassword)
    else if !MatchesEmailPattern(email) then Some(MalformedEmail)
    else if !IsMobileNumber(NormalizePhone(phone)) then Some(MalformedPhone)
    else if FindUser(users, email).Some? then Some(EmailTaken)
    else None
  }

  /** Every sign-up field is non-empty. */
  predicate AllFilled(name: string, phone: string, email: string, password: string) {
    name != "" && phone != "" && email != "" && password != ""
  }

  /** The member a successful sign-up stores, with the phone number normalised. */
  function NewUser(id: string, name: string, phone: string, email: string, password: string, storedPlan: Option<string>): (u: User)
    ensures u.id == id && u.name == name && u.email == email && u.password == password && u.plan == storedPlan
    ensures u.phone == NormalizePhone(phone)
    ensures forall i :: 0 <= i < |u.phone| ==> IsAsciiDigit(u.phone[i])
    ensures IsSubsequence(u.phone, phone)
  {
    User(id, name, NormalizePhone(phone), email, password, storedPlan)
  }

  /** The sign-in checks: well-formed input, then a member with this address and password. */
  function LoginCheck(users: seq<User>, email: string, password: string): (r: Result<User, AuthError>)
    ensures r.Success? <==> email != "" && Utf16Length(password) >= 6 && FindUser(users, email).Some? &&
                              FindUser(users, email).value.password == password
    ensures r.Success? ==> r.value in users && r.value.email == email && r.value.password == password
    ensures r.Success? ==> r.value == FindUser(users, email).value
    ensures r == Failure(BadSignInInput) <==> email == "" || Utf16Length(password) < 6
    ensures r.Failure? && email != "" && Utf16Length(password) >= 6 ==> r == Failure(UnknownOrWrongPassword)
  {
    if email == "" || password == "" || Utf16Length(password) < 6 then Failure(BadSignInInput)
    else match FindUser(users, email)
      case None => Failure(UnknownOrWrongPassword)
      case Some(u) => if u.password != password then Failure(UnknownOrWrongPassword) else Success(u)
  }

  /** No two members share an address. */
  predicate DistinctEmails(users: seq<User>) {
    forall i, j :: 0 <= i < j < |users| ==> users[i].email != users[j].email
  }

  lemma {:induction false} FindUserAppendNew(users: seq<User>, u: User)
    requires forall v :: v in users ==> v.email != u.email
    ensures FindUser(users + [u], u.email) == Some(u)
  {
    if users == [] {
    } else {
      assert users[0] in users;
      assert (users + [u])[1..] == users[1..] + [u];
      FindUserAppendNew(users[1..], u);
    }
  }

  /**
   * Sign-up keeps addresses distinct, stores a normalised mobile number, and the new member
   * can then sign in with the address and password given.
   */
  lemma RegisterThenLogin(users: seq<User>, id: string, name: string, phone: string, email: string,
                          password: string, storedPlan: Option<string>)
    requires DistinctEmails(users)
    requires RegisterCheck(users, name, phone, email, password).None?
    ensures var u := NewUser(id, name, phone, email, password, storedPlan);
      && DistinctEmails(users + [u])
      && IsMobileNumber(u.phone)
      && (forall i :: 0 <= i < |u.phone| ==> IsAsciiDigit(u.phone[i]))
      && LoginCheck(users + [u], email, password) == Success(u)
  {
    var u := NewUser(id, name, phone, email, password, storedPlan);
    forall i | 0 <= i < |users| ensures users[i].email != email {
      assert users[i] in users;
    }
    FindUserAppendNew(users, u);
  }

  /** The stored member list and the signed-in member. */
  class Directory {
    var users: seq<User>
    var session: Option<User>

    ghost predicate Valid()
      reads this
    {
      DistinctEmails(users)
    }

    constructor ()
      ensures Valid() && users == [] && session == None
    {
      users := [];
      session := None;
    }

    /** Sign-up: validate, then append the new member; `id` and `storedPlan` come from the caller. */
    method Register(name: string, phone: string, email: string, password: string, id: string, storedPlan: Option<string>)
      returns (result: Result<User, AuthError>)
      requires Valid()
      modifies this
      ensures Valid() && session == old(session)
      ensures var check := RegisterCheck(old(users), name, phone, email, password);
        && (check.Some? ==> result == Failure(check.value) && users == old(users))
        && (check.None? ==> result == Success(NewUser(id, name, phone, email, password, storedPlan)) &&
                            users == old(users) + [result.value])
    {
      var check := RegisterCheck(users, name, phone, email, password);
      if check.Some? {
        return Failure(check.value);
      }
      var u := NewUser(id, name, phone, email, password, storedPlan);
      RegisterThenLogin(users, id, name, phone, email, password, storedPlan);
      users := users + [u];
      result := Success(u);
    }

    /** Sign-in: on success the member becomes the session user. */
    method Login(email: string, password: string) returns (result: Result<User, AuthError>)
      requires Valid()
      modifies this
      ensures Valid() && users == old(users)
      ensures result == LoginCheck(users, email, password)
      ensures session == if result.Success? then Some(result.value) else old(session)
    {
      result := LoginCheck(users, email, password);
      if result.Success? {
        session := Some(result.value);
      }
    }

    /** Sign-out: no session user. */
    method Logout()
      modifies this
      ensures users == old(users) && session == None
    {
      session := None;
    }
  }
}
