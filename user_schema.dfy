/** The User model: the schema's field rules, the password-hashing pre-save hook and
    `comparePassword`. bcrypt is abstract: a hash is a `Digest` of what was hashed, so two
    hashes are equal exactly when their inputs are (an ideal, salt-free view of bcrypt). */
module UserSchema {
  import opened Optional
  import opened Text
  import opened TaskSchema

  datatype Credential = Plain(text: string) | Digest(of: Credential)

  /** The length of every bcrypt hash string. */
  const BcryptHashLength: nat := 60

  const MinUsernameLength: nat := 3
  const MinPasswordLength: nat := 6

  /** What the schema's `minlength` sees of a password: the text itself, or a stored hash. */
  function CredentialLength(c: Credential): nat {
    match c
    case Plain(p) => Utf16Length(p)
    case Digest(_) => BcryptHashLength
  }

  /** A user document. `auth0Id` is the external identity subject the controllers look users
      up by; the resolvers fill it with a random id. */
  datatype User = User(
    id: UserId,
    name: string,
    email: string,
    username: string,
    password: Option<Credential>,
    auth0Id: Option<string>)

  /** The projection every response shows: never the password. */
  datatype PublicUser = PublicUser(id: UserId, name: string, email: string, username: string)

  function Public(u: User): (r: PublicUser)
    ensures r.id == u.id && r.name == u.name && r.email == u.email && r.username == u.username
  {
    PublicUser(u.id, u.name, u.email, u.username)
  }

  /** Trimming a lower-case string leaves it lower-case. */
  lemma TrimKeepsLower(s: string)
    requires IsLower(s)
    ensures IsLower(Trim(s))
  {
    var t := Trim(s);
    var a := LeadingSpace(s);
    assert t == s[a..a + |t|];
    SliceKeepsLower(s, a, a + |t|);
  }

  lemma SliceKeepsLower(s: string, i: nat, j: nat)
    requires IsLower(s) && i <= j <= |s|
    ensures IsLower(s[i..j])
  {
    forall k | 0 <= k < j - i ensures !('A' <= s[i..j][k] <= 'Z') {
      assert s[i..j][k] == s[i + k];
    }
  }

  /** The e-mail path's `lowercase` and `trim` setters. Mongoose runs them on every value
      assigned to the path and on every query value compared with it; which one runs first
      does not matter (`Text.TrimLowerCommute`). */
  function CastEmail(e: string): (r: string)
    ensures IsTrimmed(r) && IsLower(r)
  {
    TrimKeepsLower(ToLower(e));
    Trim(ToLower(e))
  }

  /** The username path's `trim` and `lowercase` setters, on assignment and in queries; like
      the e-mail path's, they give the same string in either order. */
  function CastUsername(n: string): (r: string)
    ensures IsTrimmed(r) && IsLower(r)
  {
    LowerKeepsTrimmed(Trim(n));
    ToLower(Trim(n))
  }

  /** The two paths cast alike: the order of `trim` and `lowercase` makes no difference. */
  lemma CastsAgree(s: string)
    ensures CastEmail(s) == CastUsername(s)
  {
    TrimLowerCommute(s);
  }

  /** The schema's setters: `trim` on name, and the e-mail and username setters. Only those three
      fields change. */
  function CastUser(u: User): (r: User)
    ensures IsTrimmed(r.name)
    ensures IsTrimmed(r.email) && IsLower(r.email)
    ensures IsTrimmed(r.username) && IsLower(r.username)
    ensures r.(name := u.name, email := u.email, username := u.username) == u
  {
    u.(name := Trim(u.name), email := CastEmail(u.email), username := CastUsername(u.username))
  }

  /** The validators shared by both readings of the password rule: `required` name, email and
      username, the e-mail `match`, and `minlength` 3 on username. */
  predicate PassesFieldValidators(u: User) {
    && u.name != ""
    && SchemaEmailShape(u.email)
    && Utf16Length(u.username) >= MinUsernameLength
  }

  /** The password rule as the schema declares it: `required`, `minlength` 6. */
  function PasswordRuleAsWritten(u: User): (r: bool)
    ensures r ==> u.password.Some? && PasswordRule(u)
  {
    u.password.Some? && CredentialLength(u.password.value) >= MinPasswordLength
  }

  /** The password rule this model stores users under: `minlength` 6 when there is a password;
      a user without one must come from the external identity provider. */
  function PasswordRule(u: User): (r: bool)
    ensures u.auth0Id.None? ==> (r <==> u.password.Some? && CredentialLength(u.password.value) >= MinPasswordLength)
  {
    if u.password.Some? then CredentialLength(u.password.value) >= MinPasswordLength else u.auth0Id.Some?
  }

  /** The two readings of the password rule disagree exactly on a user with no password who
      comes from the external identity provider: the declared rule refuses that user. */
  lemma PasswordRulesDiffer(u: User)
    ensures PasswordRule(u) != PasswordRuleAsWritten(u) <==> u.password.None? && u.auth0Id.Some?
  {
  }

  /** The setters' normal form. */
  predicate IsCast(u: User) {
    IsTrimmed(u.name) && IsTrimmed(u.email) && IsLower(u.email) && IsTrimmed(u.username) && IsLower(u.username)
  }

  /** What every stored user satisfies. */
  predicate ValidUser(u: User) {
    IsCast(u) && PassesFieldValidators(u) && PasswordRule(u)
  }

  /** Validation as the User schema is written: a document without a password is refused. */
  function ValidateUserAsWritten(u: User): (r: Option<User>)
    ensures r.Some? <==> PassesFieldValidators(CastUser(u)) && PasswordRuleAsWritten(u)
    ensures u.password.None? ==> r.None?
  {
    var c := CastUser(u);
    if PassesFieldValidators(c) && PasswordRuleAsWritten(c) then Some(c) else None
  }

  /** Validation with the corrected password rule: `None` is a ValidationError. */
  function ValidateUser(u: User): (r: Option<User>)
    ensures r.Some? <==> PassesFieldValidators(CastUser(u)) && PasswordRule(u)
    ensures r.Some? ==> ValidUser(r.value) && r.value == CastUser(u)
    ensures u.password.Some? ==> r == ValidateUserAsWritten(u)
  {
    var c := CastUser(u);
    if PassesFieldValidators(c) && PasswordRule(c) then Some(c) else None
  }

  /** The pre-save hook: the password is hashed when, and only when, the save modified it. */
  function PasswordOnSave(p: Option<Credential>, modified: bool): (r: Option<Credential>)
    ensures !modified ==> r == p
    ensures modified && p.Some? ==> r == Some(Digest(p.value))
  {
    if modified && p.Some? then Some(Digest(p.value)) else p
  }

  /** `comparePassword(candidate)`: `bcrypt.compare(candidate, this.password)`. `None` is the
      error bcrypt raises when the document has no password. */
  function ComparePassword(stored: Option<Credential>, candidate: string): (r: Option<bool>)
    ensures r.Some? <==> stored.Some?
    ensures r == Some(true) <==> stored == Some(Digest(Plain(candidate)))
  {
    if stored.None? then None else Some(stored.value == Digest(Plain(candidate)))
  }

  /** Hashing keeps a valid user valid: a bcrypt hash is 60 characters long. */
  lemma HashKeepsValid(u: User, modified: bool)
    requires ValidUser(u)
    ensures ValidUser(u.(password := PasswordOnSave(u.password, modified)))
  {
  }

  /** What `save()` writes for a new user document: the setters and validators run (`None` is
      a ValidationError), then the pre-save hook hashes the password, which a new document
      always counts as modified. */
  function SaveNewUser(u: User): (r: Option<User>)
    ensures r.Some? <==> ValidateUser(u).Some?
    ensures r.Some? ==> ValidUser(r.value) && r.value.(password := u.password) == CastUser(u)
    ensures r.Some? ==> r.value.password == if u.password.Some? then Some(Digest(u.password.value)) else None
  {
    var v := ValidateUser(u);
    if v.None? then None
    else
      HashKeepsValid(v.value, u.password.Some?);
      Some(v.value.(password := PasswordOnSave(v.value.password, u.password.Some?)))
  }

  /** The password the last of a series of saves assigned, if any did. */
  function LastAssigned(edits: seq<Option<string>>): (r: Option<string>)
    ensures r.Some? <==> exists i | 0 <= i < |edits| :: edits[i].Some?
    ensures r.Some? ==> exists i | 0 <= i < |edits| :: edits[i] == r && forall j | i < j < |edits| :: edits[j].None?
  {
    if edits == [] then None
    else
      var rest := LastAssigned(edits[1..]);
      if rest.Some? then
        var i :| 0 <= i < |edits[1..]| && edits[1..][i] == rest && forall j | i < j < |edits[1..]| :: edits[1..][j].None?;
        assert edits[i + 1] == rest;
        rest
      else
        assert forall i | 1 <= i < |edits| :: edits[i] == edits[1..][i - 1];
        edits[0]
  }

  /** The stored password after a series of saves of one document; `edits[k]` is `Some(p)`
      when the k-th save follows `user.password = p`, and `None` when it modified other fields. */
  function AfterSaves(p: Option<Credential>, edits: seq<Option<string>>): Option<Credential>
    decreases |edits|
  {
    if edits == [] then p
    else if edits[0].Some? then AfterSaves(PasswordOnSave(Some(Plain(edits[0].value)), true), edits[1..])
    else AfterSaves(PasswordOnSave(p, false), edits[1..])
  }

  /** Because the hook hashes only a modified password, the stored value is always the single
      hash of the last password assigned (never a hash of a hash), and saves that do not touch
      the password keep it as it was. */
  lemma {:induction false} StoredIsHashOfLastAssigned(p: Option<Credential>, edits: seq<Option<string>>)
    ensures AfterSaves(p, edits) ==
      if LastAssigned(edits).Some? then Some(Digest(Plain(LastAssigned(edits).value))) else p
    decreases |edits|
  {
    if edits != [] {
      if edits[0].Some? {
        StoredIsHashOfLastAssigned(Some(Digest(Plain(edits[0].value))), edits[1..]);
      } else {
        StoredIsHashOfLastAssigned(p, edits[1..]);
      }
    }
  }

  /** Hence, after any series of saves that assigned a password, exactly the last password
      assigned passes `comparePassword`. */
  lemma OnlyLastPasswordVerifies(p: Option<Credential>, edits: seq<Option<string>>, candidate: string)
    requires LastAssigned(edits).Some?
    ensures ComparePassword(AfterSaves(p, edits), candidate) == Some(candidate == LastAssigned(edits).value)
  {
    StoredIsHashOfLastAssigned(p, edits);
  }

  /** One user document in memory, as the pre-save hook sees it. */
  class UserDocument {
    var password: Option<Credential>
    var passwordModified: bool

    /** `new User({... password})`: a path given to a new document counts as modified. */
    constructor (password: Option<Credential>)
      ensures this.password == password && passwordModified == password.Some?
    {
      this.password := password;
      passwordModified := password.Some?;
    }

    /** `user.password = p` */
    method SetPassword(p: string)
      modifies this
      ensures password == Some(Plain(p)) && passwordModified
    {
      password := Some(Plain(p));
      passwordModified := true;
    }

    /** `UserSchema.pre('save')`: returns at once unless `isModified('password')`, else
        replaces the password by its hash. */
    method PreSave()
      modifies this
      ensures password == PasswordOnSave(old(password), old(passwordModified))
      ensures passwordModified == old(passwordModified)
    {
      if !passwordModified {
        return;
      }
      if password.Some? {
        password := Some(Digest(password.value));
      }
    }

    /** After a successful save the document has no modified paths. */
    method MarkSaved()
      modifies this
      ensures password == old(password) && !passwordModified
    {
      passwordModified := false;
    }

    method Compare(candidate: string) returns (r: Option<bool>)
      ensures r == ComparePassword(password, candidate)
    {
      if password.None? {
        r := None;
      } else {
        r := Some(password.value == Digest(Plain(candidate)));
      }
    }
  }

  /** Runs the pre-save hook on a fresh document holding `p`, as `save()` does for a new user. */
  method HashForNewDocument(p: Option<Credential>) returns (q: Option<Credential>)
    ensures q == PasswordOnSave(p, p.Some?)
  {
    var doc := new UserDocument(p);
    doc.PreSave();
    q := doc.password;
  }
}
