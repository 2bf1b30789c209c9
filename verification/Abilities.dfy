/** Role permissions: the table, the ability cache built from it, and the guard that decides with either. */
module Abilities {
  import opened Options

  datatype Role = Admin | Manager | User | Public

  datatype Action = Create | Read | Update | Delete

  datatype Subject =
    | UserSubject | UserAdmin | UserRole | File | FileAdmin | Notification
    | AdminDashboard | AdminAccessLog | AdminSettings | CaptchaAdmin

  datatype Permission = Permission(role: Role, action: Action, subject: Subject, isActive: Option<bool>, deleted: bool)

  /**
   * The rules of an ability: it can do exactly what they list, as neither wildcard of the library is an
   * action or subject here.
   */
  type Ability = set<(Action, Subject)>

  predicate InForce(p: Permission) {
    p.isActive == Some(true) && !p.deleted
  }

  function Find(table: seq<Permission>): (r: seq<Permission>)
    ensures forall p :: p in r <==> p in table && p.isActive == Some(true) && !p.deleted
  {
    if table == [] then []
    else Find(table[..|table| - 1]) + if InForce(table[|table| - 1]) then [table[|table| - 1]] else []
  }

  function FindByRole(table: seq<Permission>, role: Role): (r: seq<Permission>)
    ensures forall p :: p in r <==> p in table && p.isActive == Some(true) && !p.deleted && p.role == role
  {
    if table == [] then []
    else
      var p := table[|table| - 1];
      FindByRole(table[..|table| - 1], role) + if InForce(p) && p.role == role then [p] else []
  }

  function Count(table: seq<Permission>, role: Role, action: Action, subjects: seq<Subject>): nat {
    if table == [] then 0
    else
      var p := table[|table| - 1];
      Count(table[..|table| - 1], role, action, subjects) +
      if p.role == role && p.action == action && p.subject in subjects && InForce(p) then 1 else 0
  }

  /** The simple lookup: does a counting query find anything. */
  predicate HasPermission(table: seq<Permission>, role: Role, action: Action, subjects: seq<Subject>) {
    Count(table, role, action, subjects) > 0
  }

  lemma {:induction false} HasPermissionIff(table: seq<Permission>, role: Role, action: Action, subjects: seq<Subject>)
    ensures HasPermission(table, role, action, subjects) <==>
      exists p :: p in table && p.role == role && p.action == action && p.subject in subjects &&
        p.isActive == Some(true) && !p.deleted
  {
    if table != [] {
      var front, last := table[..|table| - 1], table[|table| - 1];
      HasPermissionIff(front, role, action, subjects);
      assert table == front + [last];
    }
  }

  /** The rules for the permissions of a role. */
  function Rules(permissions: seq<Permission>): Ability {
    set p | p in permissions :: (p.action, p.subject)
  }

  function RulesFor(table: seq<Permission>, role: Role): Ability {
    Rules(FindByRole(table, role))
  }

  /** Some row in force names the role. */
  predicate IsListed(table: seq<Permission>, role: Role) {
    exists p :: p in table && InForce(p) && p.role == role
  }

  /** The cache after filling: roles that have rows are set, others stay as they were. */
  predicate FilledFrom(cache: map<Role, Ability>, table: seq<Permission>, before: map<Role, Ability>) {
    forall role: Role ::
      if IsListed(table, role) then role in cache && cache[role] == RulesFor(table, role)
      else (role in cache <==> role in before) && (role in cache ==> cache[role] == before[role])
  }

  /** Everything cached is what the table says, and every role that has rows is cached. */
  predicate Faithful(cache: map<Role, Ability>, table: seq<Permission>) {
    && (forall role :: role in cache ==> cache[role] == RulesFor(table, role))
    && (forall role: Role :: IsListed(table, role) ==> role in cache)
  }

  /** The ability a role is judged by: the cached one, or on a miss one read from the table, if that read succeeds. */
  function AbilityOf(cache: map<Role, Ability>, table: seq<Permission>, role: Role, readable: bool): Option<Ability> {
    if role in cache then Some(cache[role])
    else if readable then Some(RulesFor(table, role))
    else None
  }

  /** A list of subjects is granted when one of them is. */
  predicate Allows(ability: Option<Ability>, action: Action, subjects: seq<Subject>) {
    ability.Some? && exists s :: s in subjects && (action, s) in ability.value
  }

  lemma RulesDecideLikeTheTable(table: seq<Permission>, role: Role, action: Action, subjects: seq<Subject>)
    ensures Allows(Some(RulesFor(table, role)), action, subjects) <==> HasPermission(table, role, action, subjects)
  {
    HasPermissionIff(table, role, action, subjects);
    if p :| p in table && p.role == role && p.action == action && p.subject in subjects && InForce(p) {
      assert p in FindByRole(table, role);
      assert (p.action, p.subject) in RulesFor(table, role);
    }
  }

  /** The lookup and an ability built from the table say yes, or both say no. */
  predicate Decides(table: seq<Permission>, role: Role, action: Action, subjects: seq<Subject>, yes: bool) {
    && HasPermission(table, role, action, subjects) == yes
    && Allows(Some(RulesFor(table, role)), action, subjects) == yes
  }

  lemma SamePermissions(
      a: seq<Permission>, b: seq<Permission>, role: Role, action: Action, subjects: seq<Subject>)
    requires forall p: Permission :: p.isActive == Some(true) && !p.deleted ==> (p in a <==> p in b)
    ensures HasPermission(a, role, action, subjects) == HasPermission(b, role, action, subjects)
    ensures Allows(Some(RulesFor(a, role)), action, subjects) == Allows(Some(RulesFor(b, role)), action, subjects)
  {
    HasPermissionIff(a, role, action, subjects);
    HasPermissionIff(b, role, action, subjects);
    RulesDecideLikeTheTable(a, role, action, subjects);
    RulesDecideLikeTheTable(b, role, action, subjects);
  }

  /** A row that is soft-deleted or not active counts as one that is not there. */
  lemma SwitchedOffIsDropped(
      table: seq<Permission>, k: nat, off: Permission, role: Role, action: Action, subjects: seq<Subject>)
    requires k < |table| && (off.deleted || off.isActive == None || off.isActive == Some(false))
    ensures var dropped := table[..k] + table[k + 1..]; var yes := HasPermission(dropped, role, action, subjects);
      Decides(dropped, role, action, subjects, yes) && Decides(table[k := off], role, action, subjects, yes)
  {
    var dropped := table[..k] + table[k + 1..];
    var switched := table[k := off];
    forall p: Permission | p.isActive == Some(true) && !p.deleted
      ensures p in dropped <==> p in switched
    {
      if p in dropped {
        var i :| 0 <= i < |dropped| && dropped[i] == p;
        assert switched[if i < k then i else i + 1] == p;
      }
      if p in switched {
        var i :| 0 <= i < |switched| && switched[i] == p;
        assert i != k && dropped[if i < k then i else i - 1] == p;
      }
    }
    SamePermissions(dropped, switched, role, action, subjects);
    RulesDecideLikeTheTable(dropped, role, action, subjects);
  }

  /** A role whose rows are all soft-deleted or not active is refused everything. */
  lemma NothingInForceIsRefused(table: seq<Permission>, role: Role, action: Action, subjects: seq<Subject>)
    requires forall p :: p in table && p.role == role ==> p.deleted || p.isActive == None || p.isActive == Some(false)
    ensures Decides(table, role, action, subjects, false)
  {
    HasPermissionIff(table, role, action, subjects);
    RulesDecideLikeTheTable(table, role, action, subjects);
  }

  /** A row in force grants what it names, to its role. */
  lemma InForceIsGranted(table: seq<Permission>, p: Permission, subjects: seq<Subject>)
    requires p in table && p.isActive == Some(true) && !p.deleted && p.subject in subjects
    ensures Decides(table, p.role, p.action, subjects, true)
  {
    HasPermissionIff(table, p.role, p.action, subjects);
    RulesDecideLikeTheTable(table, p.role, p.action, subjects);
  }

  /**
   * With a faithful cache, as clearing and filling leaves it, for every role, with or without rows, every
   * action and every list of subjects, the cached decision is the simple lookup on the same table. The
   * exception is a role without rows while the database cannot be read, which is then denied, as the
   * lookup would have it too.
   */
  lemma CacheRefinesTheTable(
      cache: map<Role, Ability>, table: seq<Permission>, role: Role, action: Action, subjects: seq<Subject>,
      readable: bool)
    requires Faithful(cache, table)
    ensures Allows(AbilityOf(cache, table, role, readable), action, subjects) <==>
      HasPermission(table, role, action, subjects)
  {
    RulesDecideLikeTheTable(table, role, action, subjects);
    HasPermissionIff(table, role, action, subjects);
  }

  /**
   * Filling without clearing decides like the table exactly when every role whose rows are gone is
   * uncached or cached without rules; this is what clearing first is for.
   */
  lemma FillingAloneIsExactIff(cache: map<Role, Ability>, table: seq<Permission>, before: map<Role, Ability>)
    requires FilledFrom(cache, table, before)
    ensures (forall role: Role, action: Action, subjects: seq<Subject>, readable: bool ::
              Allows(AbilityOf(cache, table, role, readable), action, subjects) <==>
                HasPermission(table, role, action, subjects))
        <==> (forall role: Role :: role in before && !IsListed(table, role) ==> before[role] == {})
  {
    if forall role: Role :: role in before && !IsListed(table, role) ==> before[role] == {} {
      forall role: Role, action: Action, subjects: seq<Subject>, readable: bool
        ensures Allows(AbilityOf(cache, table, role, readable), action, subjects) <==>
          HasPermission(table, role, action, subjects)
      {
        RulesDecideLikeTheTable(table, role, action, subjects);
        HasPermissionIff(table, role, action, subjects);
      }
    } else {
      var role :| role in before && !IsListed(table, role) && before[role] != {};
      var rule :| rule in before[role];
      HasPermissionIff(table, role, rule.0, [rule.1]);
      assert rule.1 in [rule.1];
      assert Allows(AbilityOf(cache, table, role, true), rule.0, [rule.1]);
      assert !HasPermission(table, role, rule.0, [rule.1]);
    }
  }

  // ---------- the service and the guard ----------

  datatype SubjectArg = One(subject: Subject) | Many(subjects: seq<Subject>)

  function Subjects(arg: SubjectArg): seq<Subject> {
    match arg
    case One(s) => [s]
    case Many(ss) => ss
  }

  predicate IsAmong(s: Subject, arg: SubjectArg) {
    (arg.One? && s == arg.subject) || (arg.Many? && s in arg.subjects)
  }

  /** Who asks; a field that is missing or empty is None. */
  datatype Principal = Principal(
    userId: Option<string>,
    roleId: Option<string>,
    role: Option<Role>,
    language: Option<string>)

  predicate IsIdentified(who: Principal) {
    who.userId.Some? && who.roleId.Some? && who.role.Some? && who.language.Some?
  }

  /** The role that a request is judged as: anyone not fully identified is the public. */
  function EffectiveRole(who: Principal): (r: Role)
    ensures who.userId.Some? && who.roleId.Some? && who.role.Some? && who.language.Some? ==> Some(r) == who.role
    ensures who.userId.None? || who.roleId.None? || who.role.None? || who.language.None? ==> r == Public
  {
    if IsIdentified(who) then who.role.value else Public
  }

  class PoliciesService {
    /** The role_permission table. */
    var table: seq<Permission>
    var abilityCache: map<Role, Ability>

    constructor (table: seq<Permission>)
      ensures this.table == table && abilityCache == map[]
    {
      this.table := table;
      abilityCache := map[];
    }

    static method CreateForRolePermissions(permissions: seq<Permission>) returns (ability: Ability)
      ensures ability == Rules(permissions)
    {
      ability := {};
      var i := 0;
      while i < |permissions|
        invariant 0 <= i <= |permissions|
        invariant ability == Rules(permissions[..i])
      {
        ability := ability + {(permissions[i].action, permissions[i].subject)};
        i := i + 1;
      }
      assert permissions[..i] == permissions;
    }

    static method GroupByRole(permissions: seq<Permission>) returns (groups: map<Role, seq<Permission>>)
      ensures forall role :: role in groups <==> exists p :: p in permissions && p.role == role
      ensures forall role :: role in groups ==> forall p :: p in groups[role] <==> p in permissions && p.role == role
    {
      groups := map[];
      var i := 0;
      while i < |permissions|
        invariant 0 <= i <= |permissions|
        invariant forall role :: role in groups <==> exists p :: p in permissions[..i] && p.role == role
        invariant forall role :: role in groups ==>
          forall p :: p in groups[role] <==> p in permissions[..i] && p.role == role
      {
        var permission := permissions[i];
        assert permissions[..i + 1] == permissions[..i] + [permission];
        if permission.role !in groups {
          groups := groups[permission.role := []];
        }
        groups := groups[permission.role := groups[permission.role] + [permission]];
        i := i + 1;
      }
      assert permissions[..i] == permissions;
    }

    method SetAbilities(groups: map<Role, seq<Permission>>)
      modifies this`abilityCache
      ensures forall role :: role in groups ==> role in abilityCache && abilityCache[role] == Rules(groups[role])
      ensures forall role :: role !in groups ==> (role in abilityCache <==> role in old(abilityCache))
      ensures forall role :: role !in groups && role in abilityCache ==> abilityCache[role] == old(abilityCache)[role]
    {
      var todo := groups.Keys;
      while todo != {}
        invariant todo <= groups.Keys
        invariant forall role :: role in groups && role !in todo ==>
          role in abilityCache && abilityCache[role] == Rules(groups[role])
        invariant forall role :: role !in groups ==> (role in abilityCache <==> role in old(abilityCache))
        invariant forall role :: role !in groups && role in abilityCache ==>
          abilityCache[role] == old(abilityCache)[role]
        decreases |todo|
      {
        var role :| role in todo;
        var ability := CreateForRolePermissions(groups[role]);
        abilityCache := abilityCache[role := ability];
        todo := todo - {role};
      }
    }

    /** Errors of the database read are swallowed: `readable` says whether it succeeds. */
    method FillAbilities(readable: bool)
      modifies this`abilityCache
      ensures readable ==> FilledFrom(abilityCache, table, old(abilityCache))
      ensures !readable ==> abilityCache == old(abilityCache)
    {
      if !readable { return; }
      var all := Find(table);
      var groups := GroupByRole(all);
      GroupsAreRules(table, groups);
      SetAbilities(groups);
    }

    method RefreshAbilityForRole(role: Role, readable: bool) returns (r: Option<Ability>)
      modifies this`abilityCache
      ensures r == if readable then Some(RulesFor(table, role)) else None
      ensures abilityCache == if readable then old(abilityCache)[role := RulesFor(table, role)] else old(abilityCache)
    {
      if !readable { return None; }
      var permissions := FindByRole(table, role);
      var ability := CreateForRolePermissions(permissions);
      abilityCache := abilityCache[role := ability];
      return Some(ability);
    }

    method RefreshAllAbilities(readable: bool)
      modifies this`abilityCache
      ensures readable ==> FilledFrom(abilityCache, table, map[]) && Faithful(abilityCache, table)
      ensures !readable ==> abilityCache == map[]
    {
      abilityCache := map[];
      FillAbilities(readable);
    }

    method GetAbilityForRole(role: Role, readable: bool) returns (r: Option<Ability>)
      modifies this`abilityCache
      ensures r == AbilityOf(old(abilityCache), table, role, readable)
      ensures abilityCache == if r.Some? then old(abilityCache)[role := r.value] else old(abilityCache)
    {
      if role in abilityCache { return Some(abilityCache[role]); }
      r := RefreshAbilityForRole(role, readable);
    }

    /**
     * The guard. `readable` says whether the database can be read on a cache miss. With a faithful cache
     * it decides like the simple lookup for the effective role, and the cache stays faithful.
     */
    method CanActivate(policy: Option<(Action, SubjectArg)>, who: Principal, readable: bool) returns (can: bool)
      modifies this`abilityCache
      ensures policy.None? ==> can
      ensures policy.Some? && !IsIdentified(who) ==>
        && can == HasPermission(table, Public, policy.value.0, Subjects(policy.value.1))
        && abilityCache == old(abilityCache)
      ensures policy.Some? && IsIdentified(who) ==>
        var ability := AbilityOf(old(abilityCache), table, who.role.value, readable);
        can == Allows(ability, policy.value.0, Subjects(policy.value.1))
      ensures policy.Some? && Faithful(old(abilityCache), table) ==>
        can == HasPermission(table, EffectiveRole(who), policy.value.0, Subjects(policy.value.1))
      ensures policy.Some? && Faithful(old(abilityCache), table) ==>
        (can <==> exists p ::
           && p in table && p.isActive == Some(true) && !p.deleted && p.role == EffectiveRole(who)
           && p.action == policy.value.0 && IsAmong(p.subject, policy.value.1))
      ensures Faithful(old(abilityCache), table) ==> Faithful(abilityCache, table)
    {
      if policy.Some? {
        HasPermissionIff(table, EffectiveRole(who), policy.value.0, Subjects(policy.value.1));
      }
      if policy.None? { return true; }
      var (action, subject) := policy.value;
      if who.userId.None? || who.roleId.None? || who.role.None? || who.language.None? {
        return HasPermission(table, Public, action, Subjects(subject));
      }
      var ability := GetAbilityForRole(who.role.value, readable);
      if Faithful(old(abilityCache), table) {
        CacheRefinesTheTable(old(abilityCache), table, who.role.value, action, Subjects(subject), readable);
      }
      if ability.None? { return false; }
      match subject
      case Many(subjects) => can := exists s :: s in subjects && (action, s) in ability.value;
      case One(s) => can := (action, s) in ability.value;
    }
  }

  lemma GroupsAreRules(table: seq<Permission>, groups: map<Role, seq<Permission>>)
    requires forall role :: role in groups <==> exists p :: p in Find(table) && p.role == role
    requires forall role :: role in groups ==> forall p :: p in groups[role] <==> p in Find(table) && p.role == role
    ensures forall role: Role :: role in groups <==> IsListed(table, role)
    ensures forall role: Role :: role in groups ==> Rules(groups[role]) == RulesFor(table, role)
  {
    forall role: Role
      ensures role in groups <==> IsListed(table, role)
    {
      if p :| p in table && InForce(p) && p.role == role {
        assert p in Find(table);
      }
    }
    forall role: Role | role in groups
      ensures Rules(groups[role]) == RulesFor(table, role)
    {
      assert forall p :: p in groups[role] <==> p in FindByRole(table, role);
    }
  }
}
