/**
 * The persisted session store: the token, the user's profile and the
 * login flag, with the store's setter actions.  Each action is a pure
 * transition on `UserState`; the `UserStore` class holds the three fields
 * and its methods overwrite them as the transition says.
 */
module UserStore {
  import opened Wrappers

  /** The user profile record. */
  datatype UserInfo = UserInfo(id: int, username: string, email: string, avatar: Option<string>, phone: Option<string>)

  /**
   * `Partial<UserInfo>`: `None` is a field left out of the object.  The
   * optional fields may also be present with the value `undefined`
   * (`Some(None)`), which object spread copies like any other value.
   */
  datatype UserInfoPatch = UserInfoPatch(
    id: Option<int>, username: Option<string>, email: Option<string>,
    avatar: Option<Option<string>>, phone: Option<Option<string>>)

  const EmptyPatch := UserInfoPatch(None, None, None, None, None)

  /** `{ ...current, ...patch }`: every field present in the patch wins, every other field is kept. */
  function Merge(current: UserInfo, patch: UserInfoPatch): (r: UserInfo)
    ensures patch.id.Some? ==> r.id == patch.id.value
    ensures patch.id.None? ==> r.id == current.id
    ensures patch.username.Some? ==> r.username == patch.username.value
    ensures patch.username.None? ==> r.username == current.username
    ensures patch.email.Some? ==> r.email == patch.email.value
    ensures patch.email.None? ==> r.email == current.email
    ensures patch.avatar.Some? ==> r.avatar == patch.avatar.value
    ensures patch.avatar.None? ==> r.avatar == current.avatar
    ensures patch.phone.Some? ==> r.phone == patch.phone.value
    ensures patch.phone.None? ==> r.phone == current.phone
  {
    UserInfo(patch.id.GetOr(current.id), patch.username.GetOr(current.username), patch.email.GetOr(current.email),
             patch.avatar.GetOr(current.avatar), patch.phone.GetOr(current.phone))
  }

  /** `{ ...p, ...q }` on two patches. */
  function Combine(p: UserInfoPatch, q: UserInfoPatch): UserInfoPatch {
    UserInfoPatch(if q.id.Some? then q.id else p.id, if q.username.Some? then q.username else p.username,
                  if q.email.Some? then q.email else p.email, if q.avatar.Some? then q.avatar else p.avatar,
                  if q.phone.Some? then q.phone else p.phone)
  }

  /** Spreading an empty patch changes nothing; spreading one patch twice is spreading it once. */
  lemma MergeIdentityAndIdempotence(u: UserInfo, p: UserInfoPatch)
    ensures Merge(u, EmptyPatch) == u
    ensures Merge(Merge(u, p), p) == Merge(u, p)
  {
  }

  /** Two successive updates are one update with the combined patch. */
  lemma MergeCompose(u: UserInfo, p: UserInfoPatch, q: UserInfoPatch)
    ensures Merge(Merge(u, p), q) == Merge(u, Combine(p, q))
  {
  }

  /** The state of the store; it is also the persisted snapshot (`partialize` keeps exactly these three fields). */
  datatype UserState = UserState(token: Option<string>, userInfo: Option<UserInfo>, isLogin: bool)

  const Initial := UserState(None, None, false)

  /** `setToken(token)`: `isLogin` is `!!token`, the profile is untouched. */
  function WithToken(s: UserState, token: string): (r: UserState)
    ensures r.token == Some(token)
    ensures r.isLogin <==> token != ""
    ensures r.userInfo == s.userInfo
  {
    s.(token := Some(token), isLogin := token != "")
  }

  /** `setUserInfo(userInfo)`: only the profile changes. */
  function WithUserInfo(s: UserState, userInfo: UserInfo): (r: UserState)
    ensures r.userInfo == Some(userInfo)
    ensures r.token == s.token && r.isLogin == s.isLogin
  {
    s.(userInfo := Some(userInfo))
  }

  /** `login(token, userInfo)`: `isLogin` becomes true whatever the token is. */
  function LoggedIn(s: UserState, token: string, userInfo: UserInfo): (r: UserState)
    ensures r.token == Some(token) && r.userInfo == Some(userInfo) && r.isLogin
  {
    UserState(Some(token), Some(userInfo), true)
  }

  /** `logout()`: back to the state the store starts in. */
  function LoggedOut(s: UserState): (r: UserState)
    ensures r == Initial
  {
    UserState(None, None, false)
  }

  /** `updateUserInfo(patch)`: gated on a profile being present, not on `isLogin`. */
  function WithUpdatedInfo(s: UserState, patch: UserInfoPatch): (r: UserState)
    ensures s.userInfo.None? ==> r == s
    ensures s.userInfo.Some? ==> r.userInfo == Some(Merge(s.userInfo.value, patch))
    ensures r.token == s.token && r.isLogin == s.isLogin
  {
    match s.userInfo
    case None => s
    case Some(current) => s.(userInfo := Some(Merge(current, patch)))
  }

  /** `login` forgets the state it started from, so logging in twice is logging in once. */
  lemma LoginProperties(s: UserState, s': UserState, token: string, userInfo: UserInfo)
    ensures LoggedIn(s, token, userInfo) == LoggedIn(s', token, userInfo)
    ensures LoggedIn(LoggedIn(s, token, userInfo), token, userInfo) == LoggedIn(s, token, userInfo)
  {
  }

  /** After `login` with an empty token the flag and the token disagree, unlike after `setToken`. */
  lemma EmptyTokenLoginIsSignedIn(s: UserState, userInfo: UserInfo)
    ensures LoggedIn(s, "", userInfo).isLogin && LoggedIn(s, "", userInfo).token == Some("")
    ensures !WithToken(LoggedIn(s, "", userInfo), "").isLogin
  {
  }

  /** `logout` is idempotent and undoes `login`. */
  lemma LogoutProperties(s: UserState, token: string, userInfo: UserInfo)
    ensures LoggedOut(LoggedOut(s)) == LoggedOut(s)
    ensures LoggedOut(LoggedIn(s, token, userInfo)) == Initial
  {
  }

  /** Two successive `updateUserInfo` calls are one call with the combined patch. */
  lemma UpdateUserInfoCompose(s: UserState, p: UserInfoPatch, q: UserInfoPatch)
    ensures WithUpdatedInfo(WithUpdatedInfo(s, p), q) == WithUpdatedInfo(s, Combine(p, q))
  {
    if s.userInfo.Some? {
      MergeCompose(s.userInfo.value, p, q);
    }
  }

  /** The zustand store: three fields that each action overwrites. */
  class UserStore {
    var token: Option<string>
    var userInfo: Option<UserInfo>
    var isLogin: bool

    /** `partialize`: the snapshot persisted under the key `user-storage`. */
    function Partialize(): (snapshot: UserState)
      reads this
      ensures snapshot.token == token && snapshot.userInfo == userInfo && snapshot.isLogin == isLogin
    {
      UserState(token, userInfo, isLogin)
    }

    constructor ()
      ensures Partialize() == Initial
    {
      token, userInfo, isLogin := None, None, false;
    }

    /** Rehydration from a persisted snapshot: the stored fields replace the in-memory ones. */
    method Rehydrate(snapshot: UserState)
      modifies this
      ensures Partialize() == snapshot
    {
      token, userInfo, isLogin := snapshot.token, snapshot.userInfo, snapshot.isLogin;
    }

    method SetToken(t: string)
      modifies this
      ensures Partialize() == WithToken(old(Partialize()), t)
    {
      token := Some(t);
      isLogin := t != "";
    }

    method SetUserInfo(u: UserInfo)
      modifies this
      ensures Partialize() == WithUserInfo(old(Partialize()), u)
    {
      userInfo := Some(u);
    }

    method Login(t: string, u: UserInfo)
      modifies this
      ensures Partialize() == LoggedIn(old(Partialize()), t, u)
    {
      token, userInfo, isLogin := Some(t), Some(u), true;
    }

    method Logout()
      modifies this
      ensures Partialize() == LoggedOut(old(Partialize()))
    {
      token, userInfo, isLogin := None, None, false;
    }

    method UpdateUserInfo(patch: UserInfoPatch)
      modifies this
      ensures Partialize() == WithUpdatedInfo(old(Partialize()), patch)
    {
      var current := userInfo;
      if current.Some? {
        userInfo := Some(Merge(current.value, patch));
      }
    }
  }

  /** Writing the snapshot and rehydrating a fresh store from it gives back the session. */
  method PersistRoundTrip(store: UserStore) returns (restored: UserStore)
    ensures fresh(restored)
    ensures restored.Partialize() == store.Partialize()
  {
    var snapshot := store.Partialize();
    restored := new UserStore();
    restored.Rehydrate(snapshot);
  }
}
