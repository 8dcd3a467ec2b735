/**
 * Who administers which staff, and which roles they give (packages/shared/src/staff.ts,
 * apps/api/src/modules/staff/staff.policy.ts and staff.service.ts). An actor is
 * what a request was authenticated as; by the time it makes its change, the
 * actor's own roles may be others.
 */
module StaffRoles {

  datatype Role = SuperAdmin | Admin | Manager | FinanceOfficer | StockClerk | Sales | Purchasor

  const ROLES: set<Role> := {SuperAdmin, Admin, Manager, FinanceOfficer, StockClerk, Sales, Purchasor}

  const TOP: int := 3
  const ADMIN_RANK: int := 2

  function Rank(role: Role): int {
    match role
    case SuperAdmin => 3
    case Admin => 2
    case Manager => 1
    case _ => 0
  }

  function RankOf(roles: set<Role>): (rank: int)
    ensures forall r :: r in roles ==> Rank(r) <= rank
    ensures if roles == {} then rank == -1 else exists r :: r in roles && Rank(r) == rank
  {
    if SuperAdmin in roles then 3
    else if Admin in roles then 2
    else if Manager in roles then 1
    else if roles == {} then -1
    else
      assert exists r :: r in roles;
      0
  }

  function Grantable(roles: set<Role>): set<Role> {
    if SuperAdmin in roles then ROLES
    else set r | r in ROLES && Rank(r) < RankOf(roles)
  }

  datatype Assignment = Assignment(branch: int, role: Role)

  datatype Account = Account(roles: set<Assignment>, allBranches: bool, active: bool)

  datatype Actor = Actor(staff: nat, roles: set<Role>, branch: int, allBranches: bool)

  function Held(roles: set<Assignment>): set<Role> {
    set a | a in roles :: a.role
  }

  /** The roles in effect in a branch: those held there; with access to all branches and none there, the others. */
  function EffectiveRoles(roles: set<Assignment>, branch: int, allBranches: bool): set<Role> {
    var held := set a | a in roles && a.branch == branch :: a.role;
    if held != {} || !allBranches then held else Held(roles)
  }

  datatype Reach = Everywhere | In(branches: set<int>)

  predicate Reaches(r: Reach, branch: int) {
    r.Everywhere? || branch in r.branches
  }

  /** The branches whose roles an actor may change. */
  function ReachOf(actor: Actor, own: set<Assignment>): Reach {
    if SuperAdmin in actor.roles then Everywhere
    else if Admin in actor.roles then
      if actor.allBranches then Everywhere else In(set a | a in own && a.role == Admin :: a.branch)
    else if Manager in actor.roles then In({actor.branch})
    else In({})
  }

  predicate CanView(actor: Actor, own: set<Assignment>, id: nat, target: set<Assignment>) {
    var r := ReachOf(actor, own);
    || id == actor.staff
    || r.Everywhere?
    || (if target == {} then RankOf(actor.roles) >= ADMIN_RANK else exists a :: a in target && a.branch in r.branches)
  }

  predicate CanManage(actor: Actor, own: set<Assignment>, id: nat, target: set<Assignment>) {
    var (r, actorRank, targetRank) := (ReachOf(actor, own), RankOf(actor.roles), RankOf(Held(target)));
    && id != actor.staff
    && (actorRank > targetRank || actorRank == targetRank == TOP)
    && (r.Everywhere?
        || (if actorRank >= ADMIN_RANK then forall a :: a in target ==> a.branch in r.branches
            else exists a :: a in target && a.branch in r.branches))
  }

  /** Who may manage an account can see it. */
  lemma ManagedIsVisible(actor: Actor, own: set<Assignment>, id: nat, target: set<Assignment>)
    requires CanManage(actor, own, id, target)
    ensures CanView(actor, own, id, target)
  {
    if target != {} && !ReachOf(actor, own).Everywhere? && RankOf(actor.roles) >= ADMIN_RANK {
      var a :| a in target;
      assert a.branch in ReachOf(actor, own).branches;
    }
  }

  /** Each role given or taken is one the actor may grant, in a branch they manage. */
  predicate MayChange(actor: Actor, own: set<Assignment>, changes: set<Assignment>) {
    forall a :: a in changes ==> Reaches(ReachOf(actor, own), a.branch) && a.role in Grantable(actor.roles)
  }

  // ── What each role may do ─────────────────────────────────────────────────

  predicate IsAdministrative(role: Role) {
    role == SuperAdmin || role == Admin || role == Manager
  }

  /** Super_Admins grant every role, Admins those below Admin, Managers those that administer nobody. */
  lemma GrantableAre(roles: set<Role>, role: Role)
    ensures role in Grantable(roles) <==>
              || SuperAdmin in roles
              || (Admin in roles && role != SuperAdmin && role != Admin)
              || (Manager in roles && !IsAdministrative(role))
  {
    assert role.SuperAdmin? || role.Admin? || role.Manager? || role.FinanceOfficer? || role.StockClerk? || role.Sales? || role.Purchasor?;
  }

  /**
   * Nobody manages their own account. A Super_Admin manages everyone else; an
   * Admin those who are neither, everywhere with access to all branches and
   * otherwise if all their roles are in branches where the actor is Admin; a
   * Manager those who administer nobody and have a role in the session's branch.
   */
  lemma ManagesExactly(actor: Actor, own: set<Assignment>, id: nat, target: set<Assignment>)
    ensures CanManage(actor, own, id, target) <==>
              && id != actor.staff
              && if SuperAdmin in actor.roles then true
                 else if Admin in actor.roles then
                   && (forall a :: a in target ==> a.role != SuperAdmin && a.role != Admin)
                   && (actor.allBranches || forall a :: a in target ==> Assignment(a.branch, Admin) in own)
                 else
                   && Manager in actor.roles
                   && (forall a :: a in target ==> !IsAdministrative(a.role))
                   && exists a :: a in target && a.branch == actor.branch
  {
    forall a | a in target
      ensures a.role in Held(target)
    {
    }
    assert RankOf(Held(target)) <= TOP;
    var admins := set a | a in own && a.role == Admin :: a.branch;
    forall branch
      ensures branch in admins <==> Assignment(branch, Admin) in own
    {
      if Assignment(branch, Admin) in own {
        assert Assignment(branch, Admin).role == Admin;
      }
    }
  }

  /** Whose accounts are shown: one's own; all to a Super_Admin or an Admin of all branches; else those with a role in a branch one administers, and to an Admin those without any. */
  lemma ViewsExactly(actor: Actor, own: set<Assignment>, id: nat, target: set<Assignment>)
    ensures CanView(actor, own, id, target) <==>
              || id == actor.staff || SuperAdmin in actor.roles
              || (Admin in actor.roles
                  && (actor.allBranches || target == {} || exists a :: a in target && Assignment(a.branch, Admin) in own))
              || (Admin !in actor.roles && Manager in actor.roles && exists a :: a in target && a.branch == actor.branch)
  {
    var admins := set a | a in own && a.role == Admin :: a.branch;
    forall branch
      ensures branch in admins <==> Assignment(branch, Admin) in own
    {
      if Assignment(branch, Admin) in own {
        assert Assignment(branch, Admin).role == Admin;
      }
    }
  }

  /** A role given or taken: any by a Super_Admin; otherwise a grantable one, by an Admin where they are Admin, by a Manager in the session's branch. */
  lemma ChangesExactly(actor: Actor, own: set<Assignment>, changes: set<Assignment>)
    ensures MayChange(actor, own, changes) <==>
              forall a :: a in changes ==>
                || SuperAdmin in actor.roles
                || (Admin in actor.roles && a.role != SuperAdmin && a.role != Admin
                    && (actor.allBranches || Assignment(a.branch, Admin) in own))
                || (Admin !in actor.roles && Manager in actor.roles && !IsAdministrative(a.role) && a.branch == actor.branch)
  {
    var admins := set a | a in own && a.role == Admin :: a.branch;
    forall branch
      ensures branch in admins <==> Assignment(branch, Admin) in own
    {
      if Assignment(branch, Admin) in own {
        assert Assignment(branch, Admin).role == Admin;
      }
    }
    forall a | a in changes
      ensures a.role in Grantable(actor.roles) <==>
                || SuperAdmin in actor.roles
                || (Admin in actor.roles && a.role != SuperAdmin && a.role != Admin)
                || (Manager in actor.roles && !IsAdministrative(a.role))
    {
      GrantableAre(actor.roles, a.role);
    }
    hide Grantable;
  }

  /** In a branch staff have the roles held there, and elsewhere's only with access to all branches and none there. */
  lemma RolesInBranch(roles: set<Assignment>, branch: int, allBranches: bool, role: Role)
    ensures role in EffectiveRoles(roles, branch, allBranches) <==>
              || Assignment(branch, role) in roles
              || (allBranches && (forall a :: a in roles ==> a.branch != branch) && exists a :: a in roles && a.role == role)
  {
    var held := set a | a in roles && a.branch == branch :: a.role;
    forall r
      ensures r in held <==> Assignment(branch, r) in roles
    {
      if Assignment(branch, r) in roles {
        assert Assignment(branch, r).branch == branch && Assignment(branch, r).role == r;
      }
    }
    if held != {} {
      var r :| r in held;
      assert Assignment(branch, r).branch == branch;
    }
    if a :| a in roles && a.branch == branch {
      assert a.role in held;
    }
  }

  // ── Changes ───────────────────────────────────────────────────────────────

  datatype Change =
    | Create(staff: nat, roles: set<Assignment>, allBranches: bool)
    | SetRoles(staff: nat, roles: set<Assignment>)
    | SetAllBranches(staff: nat, allBranches: bool)
    | Deactivate(staff: nat)
    | Reactivate(staff: nat)

  datatype Error = NotFound | Forbidden | OwnAccount | LastSuperAdmin

  type Staff = map<nat, Account>

  datatype Result = Done(staff: Staff) | Refused(error: Error)

  /** Which roles a route asks for. */
  function Required(change: Change): set<Role> {
    match change
    case Create(_, _, _) => {SuperAdmin, Admin, Manager}
    case SetRoles(_, _) => {SuperAdmin, Admin, Manager}
    case SetAllBranches(_, _) => {SuperAdmin}
    case _ => {SuperAdmin, Admin}
  }

  predicate IsSuperAdmin(a: Account) {
    SuperAdmin in Held(a.roles)
  }

  predicate OtherActiveSuperAdmin(staff: Staff, id: nat) {
    exists other :: other in staff && other != id && staff[other].active && IsSuperAdmin(staff[other])
  }

  /** Why an actor may not touch an account, or nothing. */
  function Unmanageable(staff: Staff, actor: Actor, id: nat): (error: seq<Error>)
    requires actor.staff in staff
  {
    var own := staff[actor.staff].roles;
    if id !in staff || !CanView(actor, own, id, staff[id].roles) then [NotFound]
    else if id == actor.staff then [OwnAccount]
    else if !CanManage(actor, own, id, staff[id].roles) then [Forbidden]
    else []
  }

  function Apply(staff: Staff, actor: Actor, change: Change): Result
    requires actor.staff in staff
  {
    if actor.roles * Required(change) == {} then Refused(Forbidden)
    else if change.Create? then Created(staff, actor, change)
    else if change.Deactivate? && change.staff == actor.staff then Refused(OwnAccount)
    else
      var refusal := Unmanageable(staff, actor, change.staff);
      if refusal != [] then Refused(refusal[0])
      else Changed(staff, actor, change)
  }

  function Created(staff: Staff, actor: Actor, change: Change): Result
    requires actor.staff in staff && change.Create?
  {
    if RankOf(actor.roles) < ADMIN_RANK && change.roles == {} then Refused(Forbidden)
    else if !MayChange(actor, staff[actor.staff].roles, change.roles) then Refused(Forbidden)
    else if change.allBranches && SuperAdmin !in actor.roles then Refused(Forbidden)
    else Done(staff[change.staff := Account(change.roles, change.allBranches, true)])
  }

  function Changed(staff: Staff, actor: Actor, change: Change): Result
    requires actor.staff in staff && !change.Create? && change.staff in staff
  {
    var (id, account) := (change.staff, staff[change.staff]);
    match change
    case SetRoles(_, desired) =>
      var (added, removed) := (desired - account.roles, account.roles - desired);
      if added + removed == {} then Done(staff)
      else if !MayChange(actor, staff[actor.staff].roles, added + removed) then Refused(Forbidden)
      else if SuperAdmin in Held(removed) && SuperAdmin !in Held(desired) && account.active && !OtherActiveSuperAdmin(staff, id)
      then Refused(LastSuperAdmin)
      else Done(staff[id := account.(roles := account.roles - removed + added)])
    case SetAllBranches(_, on) => Done(staff[id := account.(allBranches := on)])
    case Deactivate(_) =>
      if account.active && IsSuperAdmin(account) && !OtherActiveSuperAdmin(staff, id) then Refused(LastSuperAdmin)
      else Done(staff[id := account.(active := false)])
    case Reactivate(_) => Done(staff[id := account.(active := true)])
  }

  /** The roles of an account, none if there is no such account yet. */
  function RolesIn(staff: Staff, id: nat): set<Assignment> {
    if id in staff then staff[id].roles else {}
  }

  /**
   * A change touches one account, not the actor's own, of lower rank or both at
   * the top; the roles it gives and takes are ones the actor may grant, in
   * branches the actor manages; only a Super_Admin changes all-branch access.
   */
  lemma ChangeStaysInBounds(staff: Staff, actor: Actor, change: Change)
    requires actor.staff in staff && Apply(staff, actor, change).Done?
    requires change.Create? ==> change.staff !in staff
    ensures var (id, staff') := (change.staff, Apply(staff, actor, change).staff);
            && id != actor.staff && staff'.Keys == staff.Keys + {id}
            && (forall other :: other in staff && other != id ==> staff'[other] == staff[other])
            && (var (had, has) := (RolesIn(staff, id), staff'[id].roles);
                && MayChange(actor, staff[actor.staff].roles, (has - had) + (had - has))
                && (change.SetRoles? || change.Create? || has == had)
                && (change.SetRoles? || change.Create? ==> has == change.roles)
                && (RankOf(Held(had)) < RankOf(actor.roles) || RankOf(Held(had)) == RankOf(actor.roles) == TOP))
            && (staff'[id].allBranches != (id in staff && staff[id].allBranches) ==> SuperAdmin in actor.roles)
  {
    var (id, staff') := (change.staff, Apply(staff, actor, change).staff);
    var (had, has) := (RolesIn(staff, id), staff'[id].roles);
    assert actor.roles != {};
    match change
    case Create(_, roles, _) =>
      assert (has - had) + (had - has) == roles;
      assert Held({}) == {};
    case SetRoles(_, desired) =>
      assert has == desired;
    case _ =>
      assert (has - had) + (had - has) == {};
  }

  /** A change that leaves its account no active Super_Admin, which it was. */
  predicate TakesSuperAdmin(account: Account, change: Change) {
    && account.active && IsSuperAdmin(account)
    && (change.Deactivate? || (change.SetRoles? && SuperAdmin !in Held(change.roles)))
  }

  /** An account after a change of it; nothing else of it is another. */
  predicate IsAfter(account: Account, change: Change, account': Account) {
    && account'.roles == (if change.SetRoles? then change.roles else account.roles)
    && account'.allBranches == (if change.SetAllBranches? then change.allBranches else account.allBranches)
    && account'.active == (change.Reactivate? || (account.active && !change.Deactivate?))
  }

  /**
   * A change of an account goes through exactly when the actor has a role the
   * route asks for and manages the account, may give and take the roles, and
   * does not take the last active Super_Admin; and it does just that.
   */
  lemma ChangeDoes(staff: Staff, actor: Actor, change: Change)
    requires actor.staff in staff && !change.Create?
    ensures var (r, id, own) := (Apply(staff, actor, change), change.staff, staff[actor.staff].roles);
            && (r.Done? <==>
                  && (SuperAdmin in actor.roles
                      || (Admin in actor.roles && !change.SetAllBranches?)
                      || (Manager in actor.roles && change.SetRoles?))
                  && id in staff && CanManage(actor, own, id, staff[id].roles)
                  && (change.SetRoles? ==>
                        MayChange(actor, own, (change.roles - staff[id].roles) + (staff[id].roles - change.roles)))
                  && (TakesSuperAdmin(staff[id], change) ==> OtherActiveSuperAdmin(staff, id)))
            && (r.Done? ==> r.staff == staff[id := r.staff[id]] && IsAfter(staff[id], change, r.staff[id]))
  {
    hide CanView, CanManage, RankOf, Grantable, Required;
    LetsIn(actor.roles, change);
    var (id, own) := (change.staff, staff[actor.staff].roles);
    if id in staff && CanManage(actor, own, id, staff[id].roles) {
      ManagedIsVisible(actor, own, id, staff[id].roles);
      ManagesOthers(actor, own, id, staff[id].roles);
    }
    if id in staff && change.SetRoles? {
      RolesSwapped(staff[id].roles, change.roles);
    }
  }

  /** Whom a route lets in. */
  lemma LetsIn(roles: set<Role>, change: Change)
    ensures roles * Required(change) != {} <==>
              || SuperAdmin in roles
              || (Admin in roles && !change.SetAllBranches?)
              || (Manager in roles && (change.SetRoles? || change.Create?))
  {
    var both := roles * Required(change);
    assert SuperAdmin in both <==> SuperAdmin in roles;
    assert Admin in both <==> Admin in roles && !change.SetAllBranches?;
    assert Manager in both <==> Manager in roles && (change.SetRoles? || change.Create?);
  }

  lemma ManagesOthers(actor: Actor, own: set<Assignment>, id: nat, target: set<Assignment>)
    requires CanManage(actor, own, id, target)
    ensures id != actor.staff
  {
  }

  lemma RolesSwapped(had: set<Assignment>, desired: set<Assignment>)
    ensures had - (had - desired) + (desired - had) == desired
    ensures SuperAdmin !in Held(desired) ==> (SuperAdmin in Held(had - desired) <==> SuperAdmin in Held(had))
    ensures (desired - had) + (had - desired) == {} ==> had == desired
  {
    if SuperAdmin !in Held(desired) && SuperAdmin in Held(had) {
      var a :| a in had && a.role == SuperAdmin;
      assert a in had - desired;
    }
    if (desired - had) + (had - desired) == {} {
      forall a
        ensures a in had <==> a in desired
      {
        assert a !in (desired - had) + (had - desired);
      }
    }
  }

  /** A new account is opened exactly by an actor who may give all its roles, at least one unless Super_Admin or Admin, and all-branch access only as a Super_Admin; it is active, with just those. */
  lemma CreationDoes(staff: Staff, actor: Actor, change: Change)
    requires actor.staff in staff && change.Create?
    ensures var r := Apply(staff, actor, change);
            && (r.Done? <==>
                  && (SuperAdmin in actor.roles || Admin in actor.roles || (Manager in actor.roles && change.roles != {}))
                  && MayChange(actor, staff[actor.staff].roles, change.roles)
                  && (change.allBranches ==> SuperAdmin in actor.roles))
            && (r.Done? ==> r.staff == staff[change.staff := Account(change.roles, change.allBranches, true)])
  {
    LetsIn(actor.roles, change);
    hide Required, Grantable;
  }

  // ── Runs ──────────────────────────────────────────────────────────────────

  /** The accounts, and whom the requests so far were authenticated as. */
  datatype Db = Db(staff: Staff, actors: seq<Actor>)

  datatype Step =
    | Authenticate(staff: nat, branch: int)
    | Make(actor: nat, change: Change)

  ghost predicate Known(db: Db) {
    forall i :: 0 <= i < |db.actors| ==> db.actors[i].staff in db.staff
  }

  ghost predicate Enabled(db: Db, step: Step) {
    match step
    case Authenticate(_, _) => true
    case Make(i, change) => i < |db.actors| && Known(db) && (change.Create? ==> change.staff !in db.staff)
  }

  /** Whom a request is from: an active account with a role in the branch, or nobody. */
  function Authenticated(staff: Staff, id: nat, branch: int): seq<Actor> {
    if id !in staff || !staff[id].active then []
    else
      var roles := EffectiveRoles(staff[id].roles, branch, staff[id].allBranches);
      if roles == {} then [] else [Actor(id, roles, branch, staff[id].allBranches)]
  }

  ghost function Next(db: Db, step: Step): Db
    requires Enabled(db, step)
  {
    match step
    case Authenticate(id, branch) => db.(actors := db.actors + Authenticated(db.staff, id, branch))
    case Make(i, change) =>
      match Apply(db.staff, db.actors[i], change)
      case Done(staff) => db.(staff := staff)
      case Refused(_) => db
  }

  ghost predicate RunFrom(db: Db, steps: seq<Step>)
    decreases |steps|
  {
    steps != [] ==> Enabled(db, steps[0]) && RunFrom(Next(db, steps[0]), steps[1..])
  }

  ghost function End(db: Db, steps: seq<Step>): Db
    requires RunFrom(db, steps)
    decreases |steps|
  {
    if steps == [] then db else End(Next(db, steps[0]), steps[1..])
  }

  /** No account and no request has a role of a rank above `top`. */
  ghost predicate AtMost(db: Db, top: int) {
    && Known(db)
    && (forall id, a :: id in db.staff && a in db.staff[id].roles ==> Rank(a.role) <= top)
    && (forall i, r :: 0 <= i < |db.actors| && r in db.actors[i].roles ==> Rank(r) <= top)
  }

  /** A role an account did not have was given by the actor. */
  lemma GivenByTheActor(staff: Staff, actor: Actor, change: Change, a: Assignment)
    requires actor.staff in staff && Apply(staff, actor, change).Done? && (change.Create? ==> change.staff !in staff)
    requires change.staff in Apply(staff, actor, change).staff
    requires a in Apply(staff, actor, change).staff[change.staff].roles && a !in RolesIn(staff, change.staff)
    ensures a.role in Grantable(actor.roles)
  {
    ChangeStaysInBounds(staff, actor, change);
  }

  lemma StepStaysAtMost(db: Db, step: Step, top: int)
    requires AtMost(db, top) && Enabled(db, step)
    ensures AtMost(Next(db, step), top)
  {
    if step.Make? && Apply(db.staff, db.actors[step.actor], step.change).Done? {
      var actor := db.actors[step.actor];
      ChangeStaysInBounds(db.staff, actor, step.change);
      hide Apply, RankOf, MayChange, Grantable, Held;
      var (id, staff') := (step.change.staff, Next(db, step).staff);
      forall a | a in staff'[id].roles
        ensures Rank(a.role) <= top
      {
        if a !in RolesIn(db.staff, id) {
          GivenByTheActor(db.staff, actor, step.change, a);
          GrantedIsNotAbove(actor.roles, a.role, top);
        }
      }
    }
  }

  lemma GrantedIsNotAbove(roles: set<Role>, role: Role, top: int)
    requires role in Grantable(roles) && forall r :: r in roles ==> Rank(r) <= top
    ensures Rank(role) <= top
    ensures role == SuperAdmin || role == Admin ==> SuperAdmin in roles
  {
  }

  /** Granting never climbs: no rank above the highest at the start ever appears. */
  lemma {:induction false} RanksNeverRise(db: Db, steps: seq<Step>, top: int)
    requires AtMost(db, top) && RunFrom(db, steps)
    ensures AtMost(End(db, steps), top)
    decreases |steps|
  {
    hide AtMost, Enabled, Next;
    if steps != [] {
      StepStaysAtMost(db, steps[0], top);
      RanksNeverRise(Next(db, steps[0]), steps[1..], top);
    }
  }

  /** Nobody is Admin who was not in `start`, in that branch, and nobody's all-branch access is other. */
  ghost predicate NoNewAdmins(start: Staff, staff: Staff) {
    && start.Keys <= staff.Keys
    && (forall id, a :: id in staff && a in staff[id].roles && a.role == Admin ==> id in start && a in start[id].roles)
    && (forall id :: id in staff ==> staff[id].allBranches == (id in start && start[id].allBranches))
  }

  lemma ChangeMakesNoAdmins(staff: Staff, actor: Actor, change: Change, start: Staff)
    requires actor.staff in staff && Apply(staff, actor, change).Done? && (change.Create? ==> change.staff !in staff)
    requires NoNewAdmins(start, staff) && SuperAdmin !in actor.roles
    ensures NoNewAdmins(start, Apply(staff, actor, change).staff)
  {
    hide Apply, RankOf, MayChange, Grantable, Held;
    ChangeStaysInBounds(staff, actor, change);
    var (id, staff') := (change.staff, Apply(staff, actor, change).staff);
    forall a | a in staff'[id].roles && a !in RolesIn(staff, id)
      ensures a.role != Admin
    {
      GivenByTheActor(staff, actor, change, a);
      GrantedIsNotAbove(actor.roles, a.role, TOP);
    }
  }

  lemma StepMakesNoAdmins(db: Db, step: Step, start: Staff)
    requires AtMost(db, ADMIN_RANK) && NoNewAdmins(start, db.staff) && Enabled(db, step)
    ensures NoNewAdmins(start, Next(db, step).staff)
  {
    hide Apply, NoNewAdmins;
    if step.Make? && Apply(db.staff, db.actors[step.actor], step.change).Done? {
      assert Rank(SuperAdmin) > ADMIN_RANK;
      ChangeMakesNoAdmins(db.staff, db.actors[step.actor], step.change, start);
    }
  }

  /** Without a Super_Admin at the start none ever appears, nobody newly becomes Admin, and all-branch access stays as it was. */
  lemma {:induction false} WithoutSuperAdmin(db: Db, steps: seq<Step>, start: Staff)
    requires AtMost(db, ADMIN_RANK) && NoNewAdmins(start, db.staff) && RunFrom(db, steps)
    ensures AtMost(End(db, steps), ADMIN_RANK) && NoNewAdmins(start, End(db, steps).staff)
    decreases |steps|
  {
    hide AtMost, NoNewAdmins, Enabled, Next;
    if steps != [] {
      StepStaysAtMost(db, steps[0], ADMIN_RANK);
      StepMakesNoAdmins(db, steps[0], start);
      WithoutSuperAdmin(Next(db, steps[0]), steps[1..], start);
    }
  }

  // ── The last Super_Admin ──────────────────────────────────────────────────

  ghost predicate HasActiveSuperAdmin(staff: Staff) {
    exists id :: id in staff && staff[id].active && IsSuperAdmin(staff[id])
  }

  lemma StepKeepsASuperAdmin(db: Db, step: Step)
    requires HasActiveSuperAdmin(db.staff) && Enabled(db, step)
    ensures HasActiveSuperAdmin(Next(db, step).staff)
  {
    var id :| id in db.staff && db.staff[id].active && IsSuperAdmin(db.staff[id]);
    if step.Make? && Apply(db.staff, db.actors[step.actor], step.change).Done? {
      var target, staff' := step.change.staff, Next(db, step).staff;
      if target == id {
        SuperAdminOrAnother(db.staff, db.actors[step.actor], step.change);
      } else {
        ChangeStaysInBounds(db.staff, db.actors[step.actor], step.change);
        assert staff'[id] == db.staff[id];
      }
    }
  }

  /** A change leaves its account an active Super_Admin, or there is another one. */
  lemma SuperAdminOrAnother(staff: Staff, actor: Actor, change: Change)
    requires actor.staff in staff && Apply(staff, actor, change).Done? && !change.Create?
    requires change.staff in staff && staff[change.staff].active && IsSuperAdmin(staff[change.staff])
    ensures HasActiveSuperAdmin(Apply(staff, actor, change).staff)
  {
    var (id, staff') := (change.staff, Apply(staff, actor, change).staff);
    ChangeStaysInBounds(staff, actor, change);
    if OtherActiveSuperAdmin(staff, id) {
      var other :| other in staff && other != id && staff[other].active && IsSuperAdmin(staff[other]);
      assert staff'[other] == staff[other];
    } else {
      assert staff'[id].active && IsSuperAdmin(staff'[id]) by {
        if change.SetRoles? {
          var removed := staff[id].roles - change.roles;
          var a :| a in staff[id].roles && a.role == SuperAdmin;
          assert a in removed ==> SuperAdmin in Held(removed);
        }
      }
    }
  }

  /** A company with an active Super_Admin keeps one, however old what the actors were authenticated as, if no two changes overlap. */
  lemma {:induction false} ASuperAdminStays(db: Db, steps: seq<Step>)
    requires HasActiveSuperAdmin(db.staff) && RunFrom(db, steps)
    ensures HasActiveSuperAdmin(End(db, steps).staff)
    decreases |steps|
  {
    hide HasActiveSuperAdmin, Enabled, Next;
    if steps != [] {
      StepKeepsASuperAdmin(db, steps[0]);
      ASuperAdminStays(Next(db, steps[0]), steps[1..]);
    }
  }

  /**
   * An actor who is still what the request was authenticated as is never told
   * that this is the last Super_Admin: only a Super_Admin may change one, so
   * there are two. The check is there for requests that race.
   */
  lemma OnlyRacesMeetTheLastSuperAdmin(staff: Staff, actor: Actor, change: Change)
    requires actor.staff in staff && Authenticated(staff, actor.staff, actor.branch) == [actor]
    ensures Apply(staff, actor, change) != Refused(LastSuperAdmin)
  {
    if actor.staff != change.staff && change.staff in staff && Unmanageable(staff, actor, change.staff) == [] {
      if IsSuperAdmin(staff[change.staff]) {
        AnotherSuperAdmin(staff, actor, change.staff);
      }
    }
  }

  lemma AnotherSuperAdmin(staff: Staff, actor: Actor, id: nat)
    requires actor.staff in staff && id in staff && Authenticated(staff, actor.staff, actor.branch) == [actor]
    requires CanManage(actor, staff[actor.staff].roles, id, staff[id].roles) && IsSuperAdmin(staff[id])
    ensures OtherActiveSuperAdmin(staff, id)
  {
    assert SuperAdmin in actor.roles;
    assert IsSuperAdmin(staff[actor.staff]);
  }

  /** And a race does meet it: of two Super_Admins, each authenticated, the second to take the other's role is refused. */
  lemma ARaceMeetsIt()
    ensures var account := Account({Assignment(1, SuperAdmin)}, false, true);
            var db := Db(map[1 := account, 2 := account], []);
            var steps := [Authenticate(1, 1), Authenticate(2, 1), Make(0, SetRoles(2, {}))];
            && RunFrom(db, steps)
            && var raced := End(db, steps);
            && |raced.actors| == 2 && raced.actors[1].staff == 2 && 2 in raced.staff
            && Apply(raced.staff, raced.actors[1], SetRoles(1, {})) == Refused(LastSuperAdmin)
  {
    var top := {Assignment(1, SuperAdmin)};
    var account := Account(top, false, true);
    var db0 := Db(map[1 := account, 2 := account], []);
    assert Assignment(1, SuperAdmin) in top;
    assert SuperAdmin in Held(top);
    assert EffectiveRoles(top, 1, false) == {SuperAdmin} == Held(top);
    var one, two := Actor(1, {SuperAdmin}, 1, false), Actor(2, {SuperAdmin}, 1, false);
    var db1 := Next(db0, Authenticate(1, 1));
    var db2 := Next(db1, Authenticate(2, 1));
    assert db2 == Db(db0.staff, [one, two]);
    var step := Make(0, SetRoles(2, {}));
    assert OtherActiveSuperAdmin(db2.staff, 2);
    assert Unmanageable(db2.staff, one, 2) == [] && Unmanageable(db2.staff, two, 1) == [];
    assert top - {} == top && {} - top == {} && {} + top == top && top - top + {} == {};
    assert ReachOf(one, top) == Everywhere && MayChange(one, top, top);
    assert Changed(db2.staff, one, SetRoles(2, {})) == Done(db2.staff[2 := account.(roles := {})]);
    assert Apply(db2.staff, one, SetRoles(2, {})) == Done(db2.staff[2 := account.(roles := {})]);
    var db3 := Next(db2, step);
    assert !OtherActiveSuperAdmin(db3.staff, 1);
    assert Apply(db3.staff, two, SetRoles(1, {})) == Refused(LastSuperAdmin);
    var steps := [Authenticate(1, 1), Authenticate(2, 1), step];
    assert steps[1..][1..][1..] == [] && steps[1..][1..] == [step] && steps[1..] == [Authenticate(2, 1), step];
    assert RunFrom(db3, []) && End(db3, []) == db3;
    assert RunFrom(db2, [step]) && End(db2, [step]) == db3;
    assert RunFrom(db1, steps[1..]) && End(db1, steps[1..]) == db3;
  }
}
