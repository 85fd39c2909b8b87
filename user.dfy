/** The User value object of back-end/model/user.ts: a constructor that copies
    six fields, a `validate` that runs an ordered chain of guards and throws the
    first failure's message, and an `equals` over all six fields. */
module UserModel {
  import opened Wrappers

  /** The two roles the application uses ('admin' and 'user'). */
  datatype Role = Admin | Regular

  /** The plain record the constructor and `equals` take. The id is optional
      (it is assigned by the database); the role is optional so that the
      "Role is required" case of `validate` exists. */
  datatype UserInput = UserInput(
    id: Option<string>,
    firstName: string,
    lastName: string,
    email: string,
    password: string,
    role: Option<Role>)

  /** A constructed User: its fields are readonly, so it is a value. */
  datatype User = User(
    id: Option<string>,
    firstName: string,
    lastName: string,
    email: string,
    password: string,
    role: Option<Role>)

  /** The constructor: it copies the six fields and does not call `validate`,
      so blank names and a missing role construct too. */
  function New(input: UserInput): (u: User)
    ensures AsInput(u) == input
  {
    User(input.id, input.firstName, input.lastName, input.email, input.password, input.role)
  }

  /** The six fields of a User read back as a plain record. */
  function AsInput(u: User): (r: UserInput)
  {
    UserInput(u.id, u.firstName, u.lastName, u.email, u.password, u.role)
  }

  /** The characters `String.prototype.trim` removes: the ECMAScript WhiteSpace
      code points (tab, vertical tab, form feed, space, no-break space, the byte
      order mark and the other space separators of Unicode category Zs) and the
      LineTerminator code points (line feed, carriage return, line and paragraph
      separators). */
  predicate IsWhitespace(c: char)
  {
    c in WhitespaceChars
  }

  const WhitespaceChars: set<char> := {
    '\U{0009}', '\U{000B}', '\U{000C}', '\U{0020}', '\U{00A0}', '\U{FEFF}',
    '\U{1680}', '\U{2000}', '\U{2001}', '\U{2002}', '\U{2003}', '\U{2004}',
    '\U{2005}', '\U{2006}', '\U{2007}', '\U{2008}', '\U{2009}', '\U{200A}',
    '\U{202F}', '\U{205F}', '\U{3000}',
    '\U{000A}', '\U{000D}', '\U{2028}', '\U{2029}'
  }

  /** True when every character of `t` is whitespace (the empty string included). */
  predicate AllWhitespace(t: string)
  {
    forall i :: 0 <= i < |t| ==> IsWhitespace(t[i])
  }

  /** True when `s` holds at least one character that is not whitespace. */
  predicate HasVisibleChar(s: string)
  {
    exists i :: 0 <= i < |s| && !IsWhitespace(s[i])
  }

  /** `s` with its leading whitespace removed. */
  function TrimStart(s: string): (r: string)
    ensures |r| <= |s| && r == s[|s| - |r|..]
    ensures AllWhitespace(s[..|s| - |r|])
    ensures r != [] ==> !IsWhitespace(r[0])
  {
    if s != [] && IsWhitespace(s[0]) then
      var r := TrimStart(s[1..]);
      assert s[..|s| - |r|] == [s[0]] + s[1..][..|s| - 1 - |r|];
      r
    else
      s
  }

  /** `s` with its trailing whitespace removed. */
  function TrimEnd(s: string): (r: string)
    ensures |r| <= |s| && r == s[..|r|]
    ensures AllWhitespace(s[|r|..])
    ensures r != [] ==> !IsWhitespace(r[|r| - 1])
  {
    if s != [] && IsWhitespace(s[|s| - 1]) then
      var r := TrimEnd(s[..|s| - 1]);
      assert s[|r|..] == s[..|s| - 1][|r|..] + [s[|s| - 1]];
      r
    else
      s
  }

  /** `String.prototype.trim`: `s` with exactly its leading and trailing
      whitespace removed, so what is left neither starts nor ends with
      whitespace, and is empty exactly when `s` is all whitespace. */
  function Trim(s: string): (r: string)
    ensures exists a :: 0 <= a <= |s| - |r| && r == s[a..][..|r|] &&
                        AllWhitespace(s[..a]) && AllWhitespace(s[a..][|r|..])
    ensures r != [] ==> !IsWhitespace(r[0]) && !IsWhitespace(r[|r| - 1])
    ensures r == [] <==> !HasVisibleChar(s)
  {
    var front := TrimStart(s);
    var r := TrimEnd(front);
    assert r == s[|s| - |front|..][..|r|];
    assert s[|s| - |front|..] == front;
    if r == [] then
      assert front == [];
      assert s[..|s|] == s;
      r
    else
      assert !IsWhitespace(s[|s| - |front|]);
      r
  }

  /** The guard `!x || typeof x !== 'string' || x.trim().length === 0`. */
  predicate Blank(s: string)
    ensures Blank(s) <==> AllWhitespace(s)
  {
    |Trim(s)| == 0
  }

  /** The result of `validate`: it returns normally, or throws an Error whose
      message is carried here. */
  datatype Outcome = Pass | Fail(message: string)

  const FirstNameRequired := "First name is required and cannot be empty."
  const LastNameRequired := "Last name is required and cannot be empty."
  const EmailRequired := "Email is required and cannot be empty."
  const PasswordRequired := "Password is required and cannot be empty."
  const RoleRequired := "Role is required"

  /** `validate`: the guards run in the order first name, last name, email,
      password, role, and the first that fails decides the message. It passes
      exactly when each of the four strings has a visible character and a role
      is present. */
  function Validate(u: UserInput): (r: Outcome)
    ensures r == Pass <==>
      HasVisibleChar(u.firstName) && HasVisibleChar(u.lastName) &&
      HasVisibleChar(u.email) && HasVisibleChar(u.password) && u.role.Some?
  {
    if Blank(u.firstName) then Fail(FirstNameRequired)
    else if Blank(u.lastName) then Fail(LastNameRequired)
    else if Blank(u.email) then Fail(EmailRequired)
    else if Blank(u.password) then Fail(PasswordRequired)
    else if u.role.None? then Fail(RoleRequired)
    else Pass
  }

  /** The first field that fails decides the error, whatever the later fields hold. */
  lemma ValidateFirstFailureWins(u: UserInput)
    ensures !HasVisibleChar(u.firstName) ==>
      Validate(u) == Fail(FirstNameRequired)
    ensures HasVisibleChar(u.firstName) && !HasVisibleChar(u.lastName) ==>
      Validate(u) == Fail(LastNameRequired)
    ensures HasVisibleChar(u.firstName) && HasVisibleChar(u.lastName) &&
            !HasVisibleChar(u.email) ==>
      Validate(u) == Fail(EmailRequired)
    ensures HasVisibleChar(u.firstName) && HasVisibleChar(u.lastName) &&
            HasVisibleChar(u.email) && !HasVisibleChar(u.password) ==>
      Validate(u) == Fail(PasswordRequired)
    ensures HasVisibleChar(u.firstName) && HasVisibleChar(u.lastName) &&
            HasVisibleChar(u.email) && HasVisibleChar(u.password) && u.role.None? ==>
      Validate(u) == Fail(RoleRequired)
  {
  }

  /** The first clause of `ValidateFirstFailureWins`, stated for callers in
      terms of `AllWhitespace`: the empty string and a whitespace-only string
      are both rejected with the first name's message. */
  lemma ValidateRejectsBlankFirstName(u: UserInput)
    requires AllWhitespace(u.firstName)
    ensures Validate(u) == Fail(FirstNameRequired)
  {
  }

  /** `equals`: true exactly when the user built from `r` is `u`, that is when
      all six fields, the id included, agree. */
  function Equals(u: User, r: UserInput): (b: bool)
    ensures b <==> New(r) == u
    ensures b <==> AsInput(u) == r
  {
    u.id == r.id &&
    u.firstName == r.firstName &&
    u.lastName == r.lastName &&
    u.email == r.email &&
    u.password == r.password &&
    u.role == r.role
  }

  /** Reading the fields back and constructing again gives the same user. */
  lemma NewAsInput(u: User)
    ensures New(AsInput(u)) == u
  {
  }

  /** A user equals the record it was built from. */
  lemma EqualsBuiltFrom(r: UserInput)
    ensures Equals(New(r), r)
  {
  }

  /** A single differing field, the id included, makes `equals` false. */
  lemma EqualsDetectsEachField(r: UserInput, id: Option<string>, t: string, role: Option<Role>)
    ensures id != r.id ==> !Equals(New(r), r.(id := id))
    ensures t != r.firstName ==> !Equals(New(r), r.(firstName := t))
    ensures t != r.lastName ==> !Equals(New(r), r.(lastName := t))
    ensures t != r.email ==> !Equals(New(r), r.(email := t))
    ensures t != r.password ==> !Equals(New(r), r.(password := t))
    ensures role != r.role ==> !Equals(New(r), r.(role := role))
  {
  }
}
