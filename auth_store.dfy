/**
 * The auth store (src/stores/authStore.ts): the signed-in user, the
 * authenticated and loading flags and the Discord access token, the user
 * record `login` builds from a Discord profile, the merge of `updateUser`,
 * and the role getters.  The clock reading of `login` is a parameter.
 */
module AuthStore {
  import opened Wrappers
  import Strings

  /** The store's own role vocabulary, unrelated to the site roles of `Roles`. */
  datatype UserRole = Admin | Moderator | Member

  datatype User = User(
    id: string, discordId: string, username: string, avatarUrl: Option<string>,
    email: Option<string>, role: UserRole, createdAt: string)

  /** The Discord profile fields `login` reads; `None` is null or an omitted field. */
  datatype DiscordUser = DiscordUser(id: string, username: string, discriminator: string, avatar: Option<string>, email: Option<string>)

  /** A `Partial<User>`: `None` leaves a field out; nullable fields can be set to null with `Some(None)`. */
  datatype UserUpdates = UserUpdates(
    id: Option<string>, discordId: Option<string>, username: Option<string>, avatarUrl: Option<Option<string>>,
    email: Option<Option<string>>, role: Option<UserRole>, createdAt: Option<string>)

  // ---------------------------------------------------------------- login

  const AvatarCdn := "https://cdn.discordapp.com/avatars/"
  const EmbedAvatarCdn := "https://cdn.discordapp.com/embed/avatars/"

  /** JavaScript `a % b` for a positive divisor: the remainder takes the sign of `a`. */
  function JsRem(a: int, b: int): (r: int)
    requires b > 0
    ensures a >= 0 ==> 0 <= r < b
    ensures a < 0 ==> -b < r <= 0
    ensures a >= 0 ==> r == a % b
  {
    if a >= 0 then a % b else -((-a) % b)
  }

  /** The truncating remainder is odd in its first argument, unlike Dafny's Euclidean one. */
  lemma JsRemOdd(a: int, b: int)
    requires b > 0
    ensures JsRem(-a, b) == -JsRem(a, b)
  {
  }

  /** `${parseInt(discriminator) % 5}`: the default-avatar index as text, "NaN" when the discriminator has no leading number. */
  function EmbedIndex(discriminator: string): (r: string)
    ensures Strings.ParseInt(discriminator).None? ==> r == "NaN"
    ensures Strings.ParseInt(discriminator).Some? ==>
              var k := JsRem(Strings.ParseInt(discriminator).value, 5);
              -4 <= k <= 4 && Strings.ParseInt(r) == Some(k)
  {
    match Strings.ParseInt(discriminator)
    case None => "NaN"
    case Some(n) =>
      Strings.ParseIntOfIntToString(JsRem(n, 5));
      Strings.IntToString(JsRem(n, 5))
  }

  /** The avatar `login` stores: the profile's own picture when it has a (non-empty) hash, otherwise a default one. */
  function AvatarUrl(d: DiscordUser): (url: string)
    ensures d.avatar.Some? && d.avatar.value != "" ==> AvatarCdn + d.id + "/" + d.avatar.value <= url
    ensures !(d.avatar.Some? && d.avatar.value != "") ==> EmbedAvatarCdn <= url
  {
    if d.avatar.Some? && d.avatar.value != "" then
      var head := AvatarCdn + d.id + "/" + d.avatar.value;
      Strings.PrefixOfConcat(head, ".png", "?size=256");
      head + ".png" + "?size=256"
    else
      var index := EmbedIndex(d.discriminator);
      Strings.PrefixOfConcat(EmbedAvatarCdn, index, ".png");
      EmbedAvatarCdn + index + ".png"
  }

  /** With a hash, the URL is the profile's CDN picture at size 256. */
  lemma AvatarWithHash(d: DiscordUser)
    requires d.avatar.Some? && d.avatar.value != ""
    ensures AvatarUrl(d) == AvatarCdn + d.id + "/" + d.avatar.value + ".png?size=256"
    ensures AvatarCdn + d.id + "/" <= AvatarUrl(d)
    ensures var s := AvatarUrl(d); |s| >= 9 && s[|s| - 9..] == "?size=256"
  {
    var head := AvatarCdn + d.id + "/" + d.avatar.value;
    assert ".png" + "?size=256" == ".png?size=256";
    assert head + ".png" + "?size=256" == head + (".png" + "?size=256");
  }

  /**
   * Without a hash and with a numeric discriminator, the URL is one of the five
   * default avatars: its index is the discriminator's value mod 5, one digit in [0, 4].
   */
  lemma EmbedIndexOfDigits(d: DiscordUser)
    requires d.avatar.None? || d.avatar == Some("")
    requires |d.discriminator| > 0 && forall i :: 0 <= i < |d.discriminator| ==> Strings.IsDigit(d.discriminator[i])
    ensures var k := Strings.DigitsValue(d.discriminator) % 5;
            0 <= k <= 4 && AvatarUrl(d) == EmbedAvatarCdn + [Strings.DigitChar(k)] + ".png"
  {
    AvatarWithoutHash(d);
    EmbedIndexDigit(d.discriminator);
  }

  /** Without a hash, the URL is the default-avatar CDN, the index text and ".png". */
  lemma AvatarWithoutHash(d: DiscordUser)
    requires d.avatar.None? || d.avatar == Some("")
    ensures AvatarUrl(d) == EmbedAvatarCdn + EmbedIndex(d.discriminator) + ".png"
  {
  }

  /** The index text of a numeric discriminator is the single digit of its value mod 5. */
  lemma EmbedIndexDigit(discriminator: string)
    requires |discriminator| > 0 && forall i :: 0 <= i < |discriminator| ==> Strings.IsDigit(discriminator[i])
    ensures EmbedIndex(discriminator) == [Strings.DigitChar(Strings.DigitsValue(discriminator) % 5)]
  {
    var v := Strings.DigitsValue(discriminator);
    Strings.ParseIntOfDigits(discriminator);
    assert JsRem(v, 5) == v % 5;
    assert Strings.NatToString(v % 5) == [Strings.DigitChar(v % 5)];
  }

  /** A discriminator with no leading number gives the literal index "NaN". */
  lemma EmbedIndexOfNonNumber(d: DiscordUser)
    requires d.avatar.None? || d.avatar == Some("")
    requires Strings.ParseInt(d.discriminator).None?
    ensures AvatarUrl(d) == EmbedAvatarCdn + "NaN.png"
  {
  }

  /** The user record `login` builds: no database id yet, role 'member', an absent or empty email stored as null. */
  function LoginUser(d: DiscordUser, createdAt: string): (u: User)
    ensures u.id == "" && u.role == Member && u.createdAt == createdAt
    ensures u.discordId == d.id && u.username == d.username
    ensures u.avatarUrl == Some(AvatarUrl(d))
    ensures u.email.None? <==> d.email.None? || d.email == Some("")
    ensures u.email.Some? ==> u.email == d.email
  {
    User("", d.id, d.username, Some(AvatarUrl(d)),
         if d.email.Some? && d.email.value != "" then d.email else None,
         Member, createdAt)
  }

  // ---------------------------------------------------------------- updateUser

  /** `{ ...current, ...updates }`: each supplied field replaces the current one. */
  function Merge(u: User, up: UserUpdates): (r: User)
    ensures up.id.Some? ==> r.id == up.id.value
    ensures up.id.None? ==> r.id == u.id
    ensures up.username.Some? ==> r.username == up.username.value
    ensures up.username.None? ==> r.username == u.username
    ensures up.role.Some? ==> r.role == up.role.value
    ensures up.role.None? ==> r.role == u.role
    ensures up.email.Some? ==> r.email == up.email.value
    ensures up.email.None? ==> r.email == u.email
    ensures up.discordId.Some? ==> r.discordId == up.discordId.value
    ensures up.discordId.None? ==> r.discordId == u.discordId
    ensures up.avatarUrl.Some? ==> r.avatarUrl == up.avatarUrl.value
    ensures up.avatarUrl.None? ==> r.avatarUrl == u.avatarUrl
    ensures up.createdAt.Some? ==> r.createdAt == up.createdAt.value
    ensures up.createdAt.None? ==> r.createdAt == u.createdAt
  {
    User(up.id.GetOr(u.id), up.discordId.GetOr(u.discordId), up.username.GetOr(u.username),
         up.avatarUrl.GetOr(u.avatarUrl), up.email.GetOr(u.email), up.role.GetOr(u.role),
         up.createdAt.GetOr(u.createdAt))
  }

  const NoUpdates := UserUpdates(None, None, None, None, None, None, None)

  /** Merging no fields changes nothing, and merging the same fields twice is merging them once. */
  lemma MergeLaws(u: User, up: UserUpdates)
    ensures Merge(u, NoUpdates) == u
    ensures Merge(Merge(u, up), up) == Merge(u, up)
  {
  }

  /** Merging keeps what the updates leave out and takes what they supply, whatever the current record was. */
  lemma MergeForgetsOldSuppliedFields(u: User, v: User, up: UserUpdates)
    requires up.id.Some? && up.discordId.Some? && up.username.Some? && up.avatarUrl.Some?
    requires up.email.Some? && up.role.Some? && up.createdAt.Some?
    ensures Merge(u, up) == Merge(v, up)
  {
  }

  // ---------------------------------------------------------------- getters

  /** `user?.role === 'admin'`. */
  function IsAdminUser(user: Option<User>): bool {
    user.Some? && user.value.role == Admin
  }

  /** `['admin', 'moderator'].includes(user?.role || '')` as `isModerator` writes it. */
  function IsModeratorUser(user: Option<User>): bool {
    user.Some? && user.value.role in [Admin, Moderator]
  }

  /** The same test, as `canManageContent` writes it. */
  function CanManageContentUser(user: Option<User>): bool {
    var roles := [Admin, Moderator];
    user.Some? && user.value.role in roles
  }

  /** Admins are moderators, content management is exactly moderation, and nobody signed out passes any getter. */
  lemma GetterLaws(user: Option<User>)
    ensures IsAdminUser(user) ==> IsModeratorUser(user)
    ensures CanManageContentUser(user) == IsModeratorUser(user)
    ensures user.None? ==> !IsAdminUser(user) && !IsModeratorUser(user) && !CanManageContentUser(user)
    ensures IsModeratorUser(user) <==> user.Some? && user.value.role != Member
  {
  }

  /** A fresh login is never privileged. */
  lemma LoginIsUnprivileged(d: DiscordUser, createdAt: string)
    ensures !IsModeratorUser(Some(LoginUser(d, createdAt))) && !IsAdminUser(Some(LoginUser(d, createdAt)))
  {
  }

  /** The store state this model keeps. */
  class AuthStore {
    var user: Option<User>
    var isAuthenticated: bool
    var isLoading: bool
    var discordAccessToken: Option<string>

    /** The flag agrees with the user: authenticated exactly when a user is present. */
    predicate Consistent()
      reads this
    {
      isAuthenticated == user.Some?
    }

    /** The initial state: nobody signed in, still loading. */
    constructor ()
      ensures user.None? && !isAuthenticated && isLoading && discordAccessToken.None?
      ensures Consistent()
    {
      user := None;
      isAuthenticated := false;
      isLoading := true;
      discordAccessToken := None;
    }

    /** `setUser`: stores the user; authenticated iff it is non-null. */
    method SetUser(u: Option<User>)
      modifies this`user, this`isAuthenticated
      ensures user == u && (isAuthenticated <==> u.Some?)
      ensures Consistent()
    {
      user := u;
      isAuthenticated := u.Some?;
    }

    method SetDiscordAccessToken(token: Option<string>)
      modifies this`discordAccessToken
      ensures discordAccessToken == token
    {
      discordAccessToken := token;
    }

    /** `login` at clock reading `createdAt`: signed in as a fresh member, with the token, no longer loading. */
    method Login(d: DiscordUser, accessToken: string, createdAt: string)
      modifies this`user, this`isAuthenticated, this`discordAccessToken, this`isLoading
      ensures user == Some(LoginUser(d, createdAt))
      ensures isAuthenticated && !isLoading && discordAccessToken == Some(accessToken)
      ensures Consistent()
    {
      var u := LoginUser(d, createdAt);
      user := Some(u);
      isAuthenticated := true;
      discordAccessToken := Some(accessToken);
      isLoading := false;
    }

    /** `logout`: nobody signed in, no token, not loading. */
    method Logout()
      modifies this`user, this`isAuthenticated, this`discordAccessToken, this`isLoading
      ensures user.None? && !isAuthenticated && discordAccessToken.None? && !isLoading
      ensures Consistent()
    {
      user := None;
      isAuthenticated := false;
      discordAccessToken := None;
      isLoading := false;
    }

    method SetLoading(loading: bool)
      modifies this`isLoading
      ensures isLoading == loading
    {
      isLoading := loading;
    }

    /** `updateUser`: a no-op when signed out, otherwise the merge of the supplied fields. */
    method UpdateUser(up: UserUpdates)
      modifies this`user
      ensures old(user).None? ==> user.None?
      ensures old(user).Some? ==> user == Some(Merge(old(user).value, up))
      ensures old(Consistent()) ==> Consistent()
    {
      var currentUser := user;
      if currentUser.Some? {
        user := Some(Merge(currentUser.value, up));
      }
    }

    function IsAdmin(): (b: bool)
      reads this
      ensures b ==> user.Some?
    {
      IsAdminUser(user)
    }

    function IsModerator(): (b: bool)
      reads this
      ensures b ==> user.Some?
    {
      IsModeratorUser(user)
    }

    function CanManageContent(): (b: bool)
      reads this
      ensures b ==> user.Some?
    {
      CanManageContentUser(user)
    }
  }
}
