/** The pure rules of apps/user/models.py: where an avatar is stored, the
    2 MB limit on it, the flags `create_user` and `create_superuser` give a
    new account, and how a user is named and printed. */
module UserModels {
  import opened Wrappers
  import opened Text
  import CoreModels
  import UserValidators

  /** `filename.rsplit(".", 1)[1]`: the text after the last '.'; `None` is
      the IndexError of a name without one. */
  function Extension(filename: string): (ext: Option<string>)
    ensures ext.Some? <==> '.' in filename
    ensures ext.Some? ==> '.' !in ext.value && |ext.value| < |filename|
    ensures ext.Some? ==> filename[|filename| - |ext.value|..] == ext.value
                          && filename[|filename| - |ext.value| - 1] == '.'
  {
    if '.' in filename then Some(filename[LastIndexOf(filename, '.') + 1..]) else None
  }

  /** Any name that is a stem, a '.' and a text without '.' has that text
      as its extension. */
  lemma ExtensionOfStem(stem: string, ext: string)
    requires '.' !in ext
    ensures Extension(stem + "." + ext) == Some(ext)
  {
    var f := stem + "." + ext;
    assert f[|stem|] == '.';
    assert LastIndexOf(f, '.') == |stem|;
    assert f[|stem| + 1..] == ext;
  }

  /** `user_avator_upload_path`: "user/avators/<pk>-<username>.<ext>". */
  function AvatarUploadPath(pk: Option<int>, username: string, filename: string): (r: Option<string>)
    ensures r.Some? <==> '.' in filename
  {
    match Extension(filename)
    case None => None
    case Some(ext) => Some("user/avators/" + CoreModels.PkText(pk) + "-" + username + "." + ext)
  }

  /** The stored name keeps the extension of the upload, whatever dots its
      stem holds: "a.b.png" is stored as a ".png". */
  lemma AvatarKeepsExtension(pk: Option<int>, username: string, stem: string, ext: string)
    requires '.' !in ext
    ensures AvatarUploadPath(pk, username, stem + "." + ext)
            == Some("user/avators/" + CoreModels.PkText(pk) + "-" + username + "." + ext)
  {
    ExtensionOfStem(stem, ext);
  }

  /** `User.avator_validator`: uploads of up to 2 MiB. */
  lemma AvatarLimit()
    ensures UserValidators.NewFileSizeValidator(UserValidators.SizeText("2MB"))
            == Ok(UserValidators.FileSizeValidator(UserValidators.SizeText("2MB"), 2097152.0))
  {
    assert "2MB"[0..1] == "2";
    UserValidators.SizeOfDigitsAndUnit("2MB", 0, 1, UserValidators.MiB);
  }

  /** A keyword argument as Python passes it; only `True` itself passes an
      `is True` test. */
  datatype PyValue = PyBool(b: bool) | PyOther(repr: string)

  /** What stops an account from being created: the ValueErrors of the
      manager. */
  datatype UserError = EmptyUsername | NotStaff | NotSuperuser

  /** The username and the fields the model is built with. */
  datatype NewUser = NewUser(username: string, fields: map<string, PyValue>)

  /** `dict.setdefault(key, value)`. */
  function SetDefault(fields: map<string, PyValue>, key: string, value: PyValue): (r: map<string, PyValue>)
    ensures key in r && r.Keys == fields.Keys + {key}
    ensures key in fields ==> r == fields
    ensures key !in fields ==> r[key] == value
    ensures forall k | k in fields :: r[k] == fields[k]
  {
    if key in fields then fields else fields[key := value]
  }

  /** `UserManager._create_user`: an empty username is refused. */
  function CreateAccount(username: string, fields: map<string, PyValue>): (r: Result<NewUser, UserError>)
    ensures r.Err? <==> username == ""
    ensures r.Err? ==> r.error == EmptyUsername
    ensures r.Ok? ==> r.value == NewUser(username, fields)
  {
    if username == "" then Err(EmptyUsername) else Ok(NewUser(username, fields))
  }

  /** `UserManager.create_user`: both flags default to False. */
  function CreateUser(username: string, fields: map<string, PyValue>): (r: Result<NewUser, UserError>)
    ensures r.Err? <==> username == ""
    ensures r.Ok? ==> r.value.username == username
  {
    var withStaff := SetDefault(fields, "is_staff", PyBool(false));
    CreateAccount(username, SetDefault(withStaff, "is_superuser", PyBool(false)))
  }

  /** `UserManager.create_superuser`: both flags default to True, and each
      must then be exactly True; those checks come before the username
      one. */
  function CreateSuperuser(username: string, fields: map<string, PyValue>): (r: Result<NewUser, UserError>)
    ensures r.Ok? ==> "is_staff" in r.value.fields && r.value.fields["is_staff"] == PyBool(true)
    ensures r.Ok? ==> "is_superuser" in r.value.fields && r.value.fields["is_superuser"] == PyBool(true)
    ensures r.Ok? ==> r.value.username == username
  {
    var withStaff := SetDefault(fields, "is_staff", PyBool(true));
    var withBoth := SetDefault(withStaff, "is_superuser", PyBool(true));
    if withBoth["is_staff"] != PyBool(true) then Err(NotStaff)
    else if withBoth["is_superuser"] != PyBool(true) then Err(NotSuperuser)
    else CreateAccount(username, withBoth)
  }

  /** The flags of a plain account: what the caller gave, else False; no
      other field changes. */
  lemma CreateUserFlags(username: string, fields: map<string, PyValue>)
    requires username != ""
    ensures var u := CreateUser(username, fields).value;
            && u.fields.Keys == fields.Keys + {"is_staff", "is_superuser"}
            && u.fields["is_staff"] == (if "is_staff" in fields then fields["is_staff"] else PyBool(false))
            && u.fields["is_superuser"] == (if "is_superuser" in fields then fields["is_superuser"] else PyBool(false))
            && forall k | k in fields :: u.fields[k] == fields[k]
  {
  }

  /** A superuser is refused exactly when a flag was given as anything but
      True, staff first, and otherwise only for an empty username. */
  lemma CreateSuperuserOutcome(username: string, fields: map<string, PyValue>)
    ensures var staffBad := "is_staff" in fields && fields["is_staff"] != PyBool(true);
            var superBad := "is_superuser" in fields && fields["is_superuser"] != PyBool(true);
            var r := CreateSuperuser(username, fields);
            && (staffBad ==> r == Err(NotStaff))
            && (!staffBad && superBad ==> r == Err(NotSuperuser))
            && (!staffBad && !superBad ==> (r.Err? <==> username == ""))
  {
  }

  /** A truthy value that is not True itself, such as 1, is still
      refused. */
  lemma SuperuserNeedsTrueItself(username: string)
    ensures CreateSuperuser(username, map["is_staff" := PyOther("1")]) == Err(NotStaff)
    ensures CreateSuperuser(username, map["is_superuser" := PyOther("1")]) == Err(NotSuperuser)
  {
  }

  /** The parts of a user these helpers read. */
  datatype Account = Account(username: string, nickname: string)

  /** `User.name`: the nickname, or the username when it is empty. */
  function Name(u: Account): (n: string)
    ensures u.nickname != "" ==> n == u.nickname
    ensures u.nickname == "" ==> n == u.username
  {
    if u.nickname != "" then u.nickname else u.username
  }

  /** `str(user)`: the username, ':' and the nickname, or "--" without
      one. */
  function AccountText(u: Account): (s: string)
    ensures |s| > |u.username| && s[..|u.username| + 1] == u.username + ":"
  {
    u.username + ":" + (if u.nickname != "" then u.nickname else "--")
  }

  /** The printed form ends with the user's name when there is a
      nickname, and with "--" otherwise, never with the username again. */
  lemma AccountTextAndName(u: Account)
    ensures u.nickname != "" ==> AccountText(u) == u.username + ":" + Name(u)
    ensures u.nickname == "" ==> AccountText(u) == u.username + ":--"
    ensures Name(u) == "" <==> u.nickname == "" && u.username == ""
  {
  }
}
