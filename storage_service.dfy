/**
 * The browser-side account store: a list of users and a separately stored copy of the user who
 * is logged in, both kept in local storage as JSON.
 */
module StorageService {
  import opened Wrappers
  import opened FrontendTypes

  /** `Array.prototype.findIndex`: the first position whose element satisfies `p`. */
  function FirstIndex<T>(s: seq<T>, p: T -> bool): (r: Option<nat>)
    ensures r.Some? ==> r.value < |s| && p(s[r.value])
    ensures r.Some? ==> forall j :: 0 <= j < r.value ==> !p(s[j])
    ensures r.None? ==> forall j :: 0 <= j < |s| ==> !p(s[j])
  {
    if s == [] then None
    else if p(s[0]) then Some(0)
    else
      match FirstIndex(s[1..], p)
      case None => None
      case Some(i) => Some(i + 1)
  }

  /** The position of the first user with this id. */
  function IndexOfId(users: seq<User>, id: string): Option<nat> {
    FirstIndex(users, (u: User) => u.id == id)
  }

  /** The position of the first user with these credentials. */
  function IndexOfCredentials(users: seq<User>, email: string, password: string): Option<nat> {
    FirstIndex(users, (u: User) => u.email == email && u.password == password)
  }

  lemma IndexOfIdMeans(users: seq<User>, id: string)
    ensures IndexOfId(users, id).Some? ==>
      var i := IndexOfId(users, id).value;
      i < |users| && users[i].id == id && forall j :: 0 <= j < i ==> users[j].id != id
    ensures IndexOfId(users, id).None? ==> forall j :: 0 <= j < |users| ==> users[j].id != id
  {
    var p := (u: User) => u.id == id;
    var r := FirstIndex(users, p);
    if r.Some? {
      assert p(users[r.value]);
      forall j | 0 <= j < r.value ensures users[j].id != id {
        assert !p(users[j]);
      }
    } else {
      forall j | 0 <= j < |users| ensures users[j].id != id {
        assert !p(users[j]);
      }
    }
  }

  lemma IndexOfCredentialsMeans(users: seq<User>, email: string, password: string)
    ensures IndexOfCredentials(users, email, password).Some? ==>
      var i := IndexOfCredentials(users, email, password).value;
      && i < |users| && users[i].email == email && users[i].password == password
      && forall j :: 0 <= j < i ==> !(users[j].email == email && users[j].password == password)
    ensures IndexOfCredentials(users, email, password).None? ==>
      forall j :: 0 <= j < |users| ==> !(users[j].email == email && users[j].password == password)
  {
    var p := (u: User) => u.email == email && u.password == password;
    var r := FirstIndex(users, p);
    if r.Some? {
      assert p(users[r.value]);
      forall j | 0 <= j < r.value ensures !(users[j].email == email && users[j].password == password) {
        assert !p(users[j]);
      }
    } else {
      forall j | 0 <= j < |users| ensures !(users[j].email == email && users[j].password == password) {
        assert !p(users[j]);
      }
    }
  }

  /** `updateUser` on the stored list: replace the first user with the same id, if any. */
  function ReplacedById(users: seq<User>, updated: User): (r: seq<User>)
    ensures |r| == |users|
    ensures forall j :: 0 <= j < |users| && IndexOfId(users, updated.id) != Some(j) ==> r[j] == users[j]
    ensures IndexOfId(users, updated.id).Some? ==> r[IndexOfId(users, updated.id).value] == updated
  {
    match IndexOfId(users, updated.id)
    case None => users
    case Some(i) => users[i := updated]
  }

  /** A user with one more result at the front of the history. */
  function WithResult(user: User, result: QuizResult): (r: User)
    ensures r.history == [result] + user.history
  {
    user.(history := [result] + user.history)
  }

  /** Replacing twice with the same user is replacing once. */
  lemma ReplacedByIdIdempotent(users: seq<User>, updated: User)
    ensures ReplacedById(ReplacedById(users, updated), updated) == ReplacedById(users, updated)
  {
    IndexOfIdMeans(users, updated.id);
    var once := ReplacedById(users, updated);
    IndexOfIdMeans(once, updated.id);
    if IndexOfId(users, updated.id).Some? {
      var i := IndexOfId(users, updated.id).value;
      assert once[i].id == updated.id;
      forall j | 0 <= j < i ensures once[j].id != updated.id {
        assert once[j] == users[j];
      }
      assert IndexOfId(once, updated.id) == Some(i);
    }
  }

  /** After a replacement the first user with that id is the new record, when the id was known. */
  lemma ReplacedByIdFinds(users: seq<User>, updated: User)
    requires IndexOfId(users, updated.id).Some?
    ensures var after := ReplacedById(users, updated);
      IndexOfId(after, updated.id) == IndexOfId(users, updated.id)
      && after[IndexOfId(users, updated.id).value] == updated
  {
    IndexOfIdMeans(users, updated.id);
    var i := IndexOfId(users, updated.id).value;
    var after := ReplacedById(users, updated);
    IndexOfIdMeans(after, updated.id);
    assert after[i] == updated;
    forall j | 0 <= j < i ensures after[j].id != updated.id {
      assert after[j] == users[j];
    }
    var k := IndexOfId(after, updated.id).value;
    assert k <= i && !(k < i);
  }

  /** Appending a user makes their credentials admit a login, though an earlier match wins. */
  lemma SavedUserCanLogIn(users: seq<User>, user: User)
    ensures IndexOfCredentials(users + [user], user.email, user.password).Some?
    ensures IndexOfCredentials(users, user.email, user.password).None? ==>
      IndexOfCredentials(users + [user], user.email, user.password) == Some(|users|)
  {
    var all := users + [user];
    IndexOfCredentialsMeans(all, user.email, user.password);
    IndexOfCredentialsMeans(users, user.email, user.password);
    assert all[|users|] == user;
    assert forall k :: 0 <= k < |users| ==> all[k] == users[k];
  }

  /** The store: `mindspark_users` and `mindspark_current_user`. */
  class LocalStore {
    var users: seq<User>
    var current: Option<User>

    /** An empty browser store: no users list and no session. */
    constructor ()
      ensures users == [] && current == None
    {
      users := [];
      current := None;
    }

    /** `saveUser`: append without any check for an existing id or email. */
    method SaveUser(user: User)
      modifies this
      ensures users == old(users) + [user]
      ensures current == old(current)
    {
      users := users + [user];
    }

    /**
     * `updateUser`: replace the first user with the same id; the session copy is replaced too
     * when it belongs to that id. An unknown id changes nothing.
     */
    method UpdateUser(updated: User)
      modifies this
      ensures users == ReplacedById(old(users), updated)
      ensures IndexOfId(old(users), updated.id).None? ==> users == old(users) && current == old(current)
      ensures current ==
        if IndexOfId(old(users), updated.id).Some? && old(current).Some? && old(current).value.id == updated.id
        then Some(updated) else old(current)
    {
      var index := IndexOfId(users, updated.id);
      if index.Some? {
        users := users[index.value := updated];
        if current.Some? && current.value.id == updated.id {
          current := Some(updated);
        }
      }
    }

    /**
     * `login`: the first user with this email and password becomes the session user. A failed
     * login returns nothing and leaves any earlier session in place.
     */
    method Login(email: string, password: string) returns (r: Option<User>)
      modifies this
      ensures users == old(users)
      ensures r.Some? <==> exists i :: 0 <= i < |users| && users[i].email == email && users[i].password == password
      ensures r.Some? ==> r == Some(users[IndexOfCredentials(users, email, password).value]) && current == r
      ensures r.None? ==> current == old(current)
    {
      IndexOfCredentialsMeans(users, email, password);
      var index := IndexOfCredentials(users, email, password);
      if index.Some? {
        current := Some(users[index.value]);
        return current;
      }
      return None;
    }

    /** `logout`: forget the session user. */
    method Logout()
      modifies this
      ensures current == None && users == old(users)
    {
      current := None;
    }

    /**
     * `addQuizResult`: put the result at the front of the first matching user's history. The
     * updated user is returned, and copied into the session, only when that user is logged in.
     */
    method AddQuizResult(userId: string, result: QuizResult) returns (r: Option<User>)
      modifies this
      ensures IndexOfId(old(users), userId).None? ==>
        users == old(users) && current == old(current) && r == None
      ensures IndexOfId(old(users), userId).Some? ==>
        var i := IndexOfId(old(users), userId).value;
        var updated := WithResult(old(users)[i], result);
        && users == old(users)[i := updated]
        && (old(current).Some? && old(current).value.id == userId ==> current == Some(updated) && r == Some(updated))
        && (!(old(current).Some? && old(current).value.id == userId) ==> current == old(current) && r == None)
    {
      var index := IndexOfId(users, userId);
      r := None;
      if index.Some? {
        var updated := WithResult(users[index.value], result);
        users := users[index.value := updated];
        if current.Some? && current.value.id == userId {
          current := Some(updated);
          r := Some(updated);
        }
      }
    }
  }

  /** A recorded result leaves every other user and the list's length as they were. */
  lemma AddQuizResultTouchesOneUser(users: seq<User>, userId: string, result: QuizResult)
    requires IndexOfId(users, userId).Some?
    ensures var i := IndexOfId(users, userId).value;
      var after := users[i := WithResult(users[i], result)];
      && |after| == |users|
      && after[i].id == userId
      && after[i].history[0] == result
      && after[i].history[1..] == users[i].history
      && forall j :: 0 <= j < |users| && j != i ==> after[j] == users[j]
  {
    IndexOfIdMeans(users, userId);
  }
}
