/**
 * The role-permission evaluator (src/lib/roles.ts): four roles with privilege
 * levels, a fixed allow-list per (resource, action), and the two checks
 * `hasPermission` (allow-list membership) and `isAtLeast` (level threshold).
 * An absent role (`undefined`) is `None`.
 */
module Roles {
  import opened Wrappers
  import Collections

  datatype Role = MANAGER | AGENSI | ADMIN | USER

  /** `ROLES`: the privilege level of each role. */
  function Level(r: Role): (n: int)
    ensures 1 <= n <= 4
  {
    match r
    case MANAGER => 4
    case AGENSI => 3
    case ADMIN => 2
    case USER => 1
  }

  /** The entries of `PERMISSIONS`, resource by resource. */
  datatype ContentAction = Create | Edit | Delete | View
  datatype GalleryAction = Upload | Approve | GalleryDelete
  datatype UsersAction = Manage | UsersView
  datatype AdminAction = Access | Full | Settings

  datatype Permission =
    | Vtuber(content: ContentAction)
    | Blog(content: ContentAction)
    | Events(content: ContentAction)
    | Gallery(gallery: GalleryAction)
    | Users(users: UsersAction)
    | AdminPanel(admin: AdminAction)

  /** `PERMISSIONS`: the allow-list of each entry, in the order the table lists it. */
  function Permissions(p: Permission): (roles: seq<Role>)
    ensures MANAGER in roles
    ensures Collections.NoDuplicates(roles)
  {
    match p
    case Vtuber(Create) => [MANAGER, AGENSI]
    case Vtuber(Edit) => [MANAGER, AGENSI]
    case Vtuber(Delete) => [MANAGER]
    case Vtuber(View) => [MANAGER, AGENSI, ADMIN, USER]
    case Blog(Create) => [MANAGER, ADMIN]
    case Blog(Edit) => [MANAGER, ADMIN]
    case Blog(Delete) => [MANAGER]
    case Blog(View) => [MANAGER, AGENSI, ADMIN, USER]
    case Events(Create) => [MANAGER, AGENSI]
    case Events(Edit) => [MANAGER, AGENSI]
    case Events(Delete) => [MANAGER]
    case Events(View) => [MANAGER, AGENSI, ADMIN, USER]
    case Gallery(Upload) => [MANAGER, AGENSI, ADMIN, USER]
    case Gallery(Approve) => [MANAGER, ADMIN]
    case Gallery(GalleryDelete) => [MANAGER]
    case Users(Manage) => [MANAGER]
    case Users(UsersView) => [MANAGER, ADMIN]
    case AdminPanel(Access) => [MANAGER, AGENSI, ADMIN]
    case AdminPanel(Full) => [MANAGER]
    case AdminPanel(Settings) => [MANAGER]
  }

  /** `Array.prototype.includes`: a front-to-back scan for `r`. */
  function Includes(xs: seq<Role>, r: Role): (b: bool)
    ensures b <==> r in xs
  {
    if |xs| == 0 then false
    else if xs[0] == r then true
    else
      assert forall x :: x in xs <==> x == xs[0] || x in xs[1..];
      Includes(xs[1..], r)
  }

  /** `hasPermission`: an absent role is denied; a present one is allowed iff the list holds it. */
  function HasPermission(role: Option<Role>, permission: seq<Role>): (b: bool)
    ensures role.None? ==> !b
    ensures role.Some? ==> (b <==> role.value in permission)
  {
    if role.None? then false else Includes(permission, role.value)
  }

  /** `isAtLeast`: an absent role is below every minimum; otherwise compare levels. */
  function IsAtLeast(role: Option<Role>, minRole: Role): (b: bool)
    ensures role.None? ==> !b
    ensures role.Some? ==> (b <==> Level(role.value) >= Level(minRole))
  {
    if role.None? then false else Level(role.value) >= Level(minRole)
  }

  // ---------------------------------------------------------------- the order

  /** The four levels are pairwise distinct, so `Level` tells roles apart. */
  lemma LevelInjective(a: Role, b: Role)
    ensures Level(a) == Level(b) <==> a == b
  {
  }

  lemma AtLeastReflexive(r: Role)
    ensures IsAtLeast(Some(r), r)
  {
  }

  lemma AtLeastTransitive(a: Role, b: Role, c: Role)
    requires IsAtLeast(Some(a), b) && IsAtLeast(Some(b), c)
    ensures IsAtLeast(Some(a), c)
  {
  }

  /** Two roles each at least the other are the same role; any two are comparable. */
  lemma AtLeastAntisymmetricTotal(a: Role, b: Role)
    ensures IsAtLeast(Some(a), b) && IsAtLeast(Some(b), a) ==> a == b
    ensures IsAtLeast(Some(a), b) || IsAtLeast(Some(b), a)
  {
  }

  /** USER is the bottom of the order and MANAGER its top. */
  lemma AtLeastBounds(r: Role)
    ensures IsAtLeast(Some(r), USER)
    ensures IsAtLeast(Some(MANAGER), r)
    ensures IsAtLeast(Some(r), MANAGER) ==> r == MANAGER
  {
  }

  // ---------------------------------------------------------------- the table

  /** The allow-list consists of every role exactly. */
  predicate AllowsEveryone(roles: seq<Role>) {
    MANAGER in roles && AGENSI in roles && ADMIN in roles && USER in roles
  }

  /** Every `view` list, and gallery upload, admits all four roles. */
  lemma ViewListsAdmitEveryone(p: Permission)
    requires p == Vtuber(View) || p == Blog(View) || p == Events(View) || p == Gallery(Upload)
    ensures AllowsEveryone(Permissions(p))
    ensures forall r: Role :: HasPermission(Some(r), Permissions(p))
  {
  }

  /** Every `delete` list (vtuber, blog, events, gallery) is exactly `[MANAGER]`. */
  lemma DeleteIsManagerOnly(p: Permission)
    requires p == Vtuber(Delete) || p == Blog(Delete) || p == Events(Delete) || p == Gallery(GalleryDelete)
    ensures Permissions(p) == [MANAGER]
    ensures forall r: Role :: HasPermission(Some(r), Permissions(p)) <==> r == MANAGER
  {
  }

  /** MANAGER passes every entry of the table; an absent role passes none. */
  lemma ManagerPassesEverything(p: Permission)
    ensures HasPermission(Some(MANAGER), Permissions(p))
    ensures !HasPermission(None, Permissions(p))
  {
  }

  /** An empty allow-list denies every caller. */
  lemma EmptyListDeniesAll(role: Option<Role>)
    ensures !HasPermission(role, [])
  {
  }

  /** `allowed` is the set of roles at or above `m`: what a level-threshold list would be. */
  predicate IsThresholdList(allowed: seq<Role>, m: Role) {
    forall r: Role :: HasPermission(Some(r), allowed) <==> IsAtLeast(Some(r), m)
  }

  /**
   * The table is not level-monotone: blog creation admits ADMIN but not the higher
   * AGENSI, events creation admits AGENSI but not ADMIN, and the blog list equals
   * no threshold at all.
   */
  lemma TableIsNotMonotone()
    ensures Level(AGENSI) > Level(ADMIN)
    ensures HasPermission(Some(ADMIN), Permissions(Blog(Create)))
    ensures !HasPermission(Some(AGENSI), Permissions(Blog(Create)))
    ensures HasPermission(Some(AGENSI), Permissions(Events(Create)))
    ensures !HasPermission(Some(ADMIN), Permissions(Events(Create)))
    ensures forall m: Role :: !IsThresholdList(Permissions(Blog(Create)), m)
  {
    forall m: Role ensures !IsThresholdList(Permissions(Blog(Create)), m) {
      var w := if Level(m) <= Level(AGENSI) then AGENSI else ADMIN;
      assert HasPermission(Some(w), Permissions(Blog(Create))) != IsAtLeast(Some(w), m);
    }
  }
}
