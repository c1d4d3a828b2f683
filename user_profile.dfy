/**
 * The profile page's edit form: which fields a save sends to the server, what the page state
 * becomes for each outcome, and how avatar paths are turned into image addresses.
 */
module UserProfileComponent {
  import opened Wrappers
  import opened FrontendTypes
  import opened Text

  const ServerOrigin: string := "http://localhost:8000"

  /**
   * `getAvatarUrl`: no path (or an empty one) gives no image, a path already starting with
   * `http` is used as it is, and anything else is resolved against the backend's origin.
   */
  function AvatarUrl(path: Option<string>): (r: Option<string>)
    ensures r.None? <==> path.None? || path.value == ""
    ensures r.Some? ==> StartsWith(r.value, "http") && EndsWith(r.value, path.value)
    ensures r.Some? && StartsWith(path.value, "http") ==> r == path
    ensures r.Some? && !StartsWith(path.value, "http") ==> r.value == ServerOrigin + path.value
  {
    if path.None? || path.value == "" then None
    else if StartsWith(path.value, "http") then path
    else
      var url := ServerOrigin + path.value;
      assert url[..4] == ServerOrigin[..4];
      assert url[|url| - |path.value|..] == path.value;
      Some(url)
  }

  /** Resolving an address a second time changes nothing. */
  lemma AvatarUrlIdempotent(path: Option<string>)
    ensures AvatarUrl(AvatarUrl(path)) == AvatarUrl(path)
  {
    var r := AvatarUrl(path);
    if r.Some? {
      assert StartsWith(r.value, "http");
    }
  }

  /**
   * The edit preview (`avatarPreview`) always prepends the origin, unlike `getAvatarUrl`.
   */
  function PreviewUrl(avatar: Option<string>): (r: Option<string>)
    ensures r.None? <==> avatar.None? || avatar.value == ""
  {
    if avatar.None? || avatar.value == "" then None else Some(ServerOrigin + avatar.value)
  }

  /** The two agree on relative paths and disagree on absolute ones. */
  lemma PreviewAgreesOnRelativePaths(path: string)
    requires path != ""
    ensures !StartsWith(path, "http") ==> PreviewUrl(Some(path)) == AvatarUrl(Some(path))
    ensures StartsWith(path, "http") ==> PreviewUrl(Some(path)) != AvatarUrl(Some(path))
  {
    if StartsWith(path, "http") {
      assert |PreviewUrl(Some(path)).value| > |path|;
    }
  }

  /** One `FormData` entry. */
  datatype Entry = Entry(key: string, value: string)

  /** The form's text fields. */
  datatype FormFields = FormFields(firstName: string, email: string, password: string)

  /**
   * The entries `handleSubmit` appends, in order: the name and email when they differ from the
   * user's, the password when it is non-empty, and the avatar when a file was chosen.
   */
  function Changes(form: FormFields, user: User, avatarFile: Option<string>): seq<Entry> {
    (if form.firstName != user.name then [Entry("first_name", form.firstName)] else [])
    + (if form.email != user.email then [Entry("email", form.email)] else [])
    + (if form.password != "" then [Entry("password", form.password)] else [])
    + (if avatarFile.Some? then [Entry("avatar", avatarFile.value)] else [])
  }

  function Keys(entries: seq<Entry>): set<string> {
    set e | e in entries :: e.key
  }

  lemma KeysAppend(a: seq<Entry>, b: seq<Entry>)
    ensures Keys(a + b) == Keys(a) + Keys(b)
  {
    forall k | k in Keys(a + b) ensures k in Keys(a) + Keys(b) {
      var e :| e in a + b && e.key == k;
    }
    forall k | k in Keys(a) + Keys(b) ensures k in Keys(a + b) {
      if k in Keys(a) {
        var e :| e in a && e.key == k;
        assert e in a + b;
      } else {
        var e :| e in b && e.key == k;
        assert e in a + b;
      }
    }
  }

  /** The keys of one optional entry. */
  function KeyIf(present: bool, key: string): set<string> {
    if present then {key} else {}
  }

  lemma KeysOfOptional(present: bool, key: string, value: string)
    ensures Keys(if present then [Entry(key, value)] else []) == KeyIf(present, key)
  {
    if present {
      assert Entry(key, value) in [Entry(key, value)];
    }
  }

  /** The keys sent, field by field. */
  lemma KeysOfChanges(form: FormFields, user: User, avatarFile: Option<string>)
    ensures Keys(Changes(form, user, avatarFile)) ==
      KeyIf(form.firstName != user.name, "first_name") + KeyIf(form.email != user.email, "email")
      + KeyIf(form.password != "", "password") + KeyIf(avatarFile.Some?, "avatar")
  {
    var n := if form.firstName != user.name then [Entry("first_name", form.firstName)] else [];
    var e := if form.email != user.email then [Entry("email", form.email)] else [];
    var p := if form.password != "" then [Entry("password", form.password)] else [];
    var f := if avatarFile.Some? then [Entry("avatar", avatarFile.value)] else [];
    KeysOfOptional(form.firstName != user.name, "first_name", form.firstName);
    KeysOfOptional(form.email != user.email, "email", form.email);
    KeysOfOptional(form.password != "", "password", form.password);
    KeysOfOptional(avatarFile.Some?, "avatar", if avatarFile.Some? then avatarFile.value else "");
    assert f == if avatarFile.Some? then [Entry("avatar", if avatarFile.Some? then avatarFile.value else "")] else [];
    KeysAppend(n, e);
    KeysAppend(n + e, p);
    KeysAppend(n + e + p, f);
  }

  /** A key is sent exactly when its field changed, and nothing else is sent. */
  lemma ChangesKeysIff(form: FormFields, user: User, avatarFile: Option<string>)
    ensures "first_name" in Keys(Changes(form, user, avatarFile)) <==> form.firstName != user.name
    ensures "email" in Keys(Changes(form, user, avatarFile)) <==> form.email != user.email
    ensures "password" in Keys(Changes(form, user, avatarFile)) <==> form.password != ""
    ensures "avatar" in Keys(Changes(form, user, avatarFile)) <==> avatarFile.Some?
    ensures Keys(Changes(form, user, avatarFile)) <= {"first_name", "email", "password", "avatar"}
  {
    KeysOfChanges(form, user, avatarFile);
    assert |"first_name"| == 10 && |"email"| == 5 && |"password"| == 8 && |"avatar"| == 6;
  }

  lemma ChangesHead(form: FormFields, user: User, avatarFile: Option<string>)
    ensures form.firstName != user.name ==> Entry("first_name", form.firstName) in Changes(form, user, avatarFile)
    ensures form.email != user.email ==> Entry("email", form.email) in Changes(form, user, avatarFile)
    ensures form.password != "" ==> Entry("password", form.password) in Changes(form, user, avatarFile)
    ensures avatarFile.Some? ==> Entry("avatar", avatarFile.value) in Changes(form, user, avatarFile)
  {
  }

  /** Nothing is sent exactly when nothing changed. */
  lemma NoChangesIff(form: FormFields, user: User, avatarFile: Option<string>)
    ensures Changes(form, user, avatarFile) == [] <==>
      form.firstName == user.name && form.email == user.email && form.password == "" && avatarFile.None?
  {
    ChangesHead(form, user, avatarFile);
  }

  /** The server's reply to a profile update. */
  datatype ApiUser = ApiUser(id: string, name: string, email: string, avatar: Option<string>, isAdmin: bool)

  /** The user `handleSubmit` hands to `onUpdateUser`: the reply's fields over the old user. */
  function Merged(user: User, reply: ApiUser): (r: User)
    ensures r.id == reply.id && r.name == reply.name && r.email == reply.email && r.avatar == reply.avatar
    ensures r.role == (if reply.isAdmin then AdminRole else UserRole)
    ensures r.password == user.password && r.history == user.history
  {
    user.(id := reply.id, name := reply.name, email := reply.email, avatar := reply.avatar,
          role := if reply.isAdmin then AdminRole else UserRole)
  }

  const DefaultUpdateError: string := "Failed to update profile"

  /** The page state the edit form works on. */
  class ProfileEditor {
    var isEditing: bool
    var isLoading: bool
    var error: Option<string>
    var form: FormFields
    var avatarFile: Option<string>
    var avatarPreview: Option<string>

    /** The form opens on the user's own name and email and an empty password. */
    constructor (user: User)
      ensures !isEditing && !isLoading && error == None
      ensures form == FormFields(user.name, user.email, "")
      ensures avatarFile == None && avatarPreview == PreviewUrl(user.avatar)
    {
      isEditing := false;
      isLoading := false;
      error := None;
      form := FormFields(user.name, user.email, "");
      avatarFile := None;
      avatarPreview := PreviewUrl(user.avatar);
    }

    /** The `FormData` appends of `handleSubmit`, one conditional `append` per field. */
    method CollectChanges(user: User) returns (data: seq<Entry>)
      ensures data == Changes(form, user, avatarFile)
    {
      data := [];
      if form.firstName != user.name {
        data := data + [Entry("first_name", form.firstName)];
      }
      if form.email != user.email {
        data := data + [Entry("email", form.email)];
      }
      if form.password != "" {
        data := data + [Entry("password", form.password)];
      }
      if avatarFile.Some? {
        data := data + [Entry("avatar", avatarFile.value)];
      }
    }

    /**
     * `handleSubmit`. With no changes it closes the editor without a request. Otherwise it
     * sends the changes, and `reply` stands for the server's answer: a user, or an error
     * message. Returns the request sent, if any, and the user passed to `onUpdateUser`, if any.
     */
    method Submit(user: User, reply: Result<ApiUser, string>)
      returns (request: Option<seq<Entry>>, updated: Option<User>)
      modifies this
      ensures var changes := Changes(old(form), user, old(avatarFile));
        request == if changes == [] then None else Some(changes)
      ensures !isLoading
      ensures request.None? ==>
        && !isEditing && error == None && updated == None
        && form == old(form) && avatarFile == old(avatarFile) && avatarPreview == old(avatarPreview)
      ensures request.Some? && reply.Success? ==>
        && updated == Some(Merged(user, reply.value))
        && !isEditing && error == None
        && form == old(form).(password := "")
        && avatarFile == None
        && avatarPreview == PreviewUrl(reply.value.avatar)
      ensures request.Some? && reply.Failure? ==>
        && updated == None
        && error == Some(if reply.error == "" then DefaultUpdateError else reply.error)
        && isEditing == old(isEditing)
        && form == old(form) && avatarFile == old(avatarFile) && avatarPreview == old(avatarPreview)
    {
      isLoading := true;
      error := None;
      var data := CollectChanges(user);
      if |data| == 0 {
        isEditing := false;
        isLoading := false;
        return None, None;
      }
      request := Some(data);
      match reply {
        case Success(response) =>
          updated := Some(Merged(user, response));
          avatarFile := None;
          avatarPreview := PreviewUrl(response.avatar);
          isEditing := false;
          form := form.(password := "");
        case Failure(message) =>
          error := Some(if message == "" then DefaultUpdateError else message);
          updated := None;
      }
      isLoading := false;
    }
  }
}
