/**
 * The `/register` route of app.py: the form check `validate_input`, the field checks in
 * their order, the username lookup and the insert of the new user.
 */
module Accounts {
  import opened Base
  import opened RoomStore

  /** What `validate_input` ends with: the form, or the 400 abort naming a field. */
  datatype FormCheck = FormOk | MissingField(field: string) | EmptyField(field: string)

  /** The form has the field and its value is not empty. */
  predicate Filled(form: map<string, string>, field: string)
  {
    field in form && |form[field]| > 0
  }

  /**
   * `validate_input`: the form passes exactly when every listed field is there and
   * non-empty; otherwise the abort names the first field in the list that is not, as
   * missing when it is absent and as empty when its value is the empty string.
   */
  method ValidateInput(form: map<string, string>, fields: seq<string>) returns (r: FormCheck)
    ensures r.FormOk? <==> forall i :: 0 <= i < |fields| ==> Filled(form, fields[i])
    ensures !r.FormOk? ==>
      exists k ::
        && 0 <= k < |fields| && fields[k] == r.field
        && (forall j :: 0 <= j < k ==> Filled(form, fields[j]))
        && (r.MissingField? ==> fields[k] !in form)
        && (r.EmptyField? ==> fields[k] in form && form[fields[k]] == [])
  {
    for i := 0 to |fields|
      invariant forall j :: 0 <= j < i ==> Filled(form, fields[j])
    {
      if fields[i] !in form {
        return MissingField(fields[i]);
      }
      if |form[fields[i]]| == 0 {
        return EmptyField(fields[i]);
      }
    }
    return FormOk;
  }

  /** Why a registration is refused. */
  datatype RegError = BadUsernameLength | PasswordMismatch | PasswordTooShort | UsernameTaken

  /**
   * The field checks of `register`, first failure wins: a username of 4 to 10 characters,
   * matching passwords, a password of at least 8 characters (8 itself is accepted).
   */
  function FieldError(username: string, password: string, confirm: string): (e: Option<RegError>)
    ensures e == Some(BadUsernameLength) <==> !(4 <= |username| <= 10)
    ensures e == Some(PasswordMismatch) <==> 4 <= |username| <= 10 && password != confirm
    ensures e == Some(PasswordTooShort) <==> 4 <= |username| <= 10 && password == confirm && |password| < 8
    ensures e.None? <==> 4 <= |username| <= 10 && password == confirm && |password| >= 8
  {
    if |username| < 4 || |username| > 10 then Some(BadUsernameLength)
    else if password != confirm then Some(PasswordMismatch)
    else if |password| < 8 then Some(PasswordTooShort)
    else None
  }

  datatype Registration = Registered(username: Username) | Rejected(reason: RegError) | BadRequest(check: FormCheck)

  /** The three fields `register` asks `validate_input` for, all present and non-empty. */
  predicate FormFilled(form: map<string, string>)
  {
    Filled(form, "username") && Filled(form, "password") && Filled(form, "confirm_password")
  }

  /**
   * `register`: validates the form, runs the field checks, refuses a taken username, and
   * only then inserts the user with `digest`, the bcrypt hash of the password.
   */
  method Register(db: Store, form: map<string, string>, digest: Hash) returns (out: Registration)
    requires db.Valid()
    modifies db
    ensures db.Valid()
    ensures !FormFilled(form) ==> out.BadRequest? && !out.check.FormOk? && unchanged(db)
    ensures FormFilled(form) ==>
      && var username, password := form["username"], form["password"];
      && var fieldError := FieldError(username, password, form["confirm_password"]);
      && (fieldError.Some? ==> out == Rejected(fieldError.value) && unchanged(db))
      && (fieldError.None? && username in old(db.users) ==> out == Rejected(UsernameTaken) && unchanged(db))
      && (fieldError.None? && username !in old(db.users) ==>
            && out == Registered(username)
            && db.users == old(db.users)[username := User(username, digest)]
            && db.rooms == old(db.rooms) && db.order == old(db.order) && db.nextId == old(db.nextId))
  {
    var check := ValidateInput(form, ["username", "password", "confirm_password"]);
    if !check.FormOk? {
      assert !FormFilled(form) by {
        var k :| 0 <= k < 3 && ["username", "password", "confirm_password"][k] == check.field
          && (check.MissingField? ==> check.field !in form)
          && (check.EmptyField? ==> check.field in form && form[check.field] == []);
      }
      return BadRequest(check);
    }
    assert Filled(form, ["username", "password", "confirm_password"][0]);
    assert Filled(form, ["username", "password", "confirm_password"][1]);
    assert Filled(form, ["username", "password", "confirm_password"][2]);
    var username, password, confirm := form["username"], form["password"], form["confirm_password"];
    var fieldError := FieldError(username, password, confirm);
    if fieldError.Some? {
      return Rejected(fieldError.value);
    }
    if db.GetUser(username).Some? {
      return Rejected(UsernameTaken);
    }
    db.InsertUser(username, digest);
    out := Registered(username);
  }
}
