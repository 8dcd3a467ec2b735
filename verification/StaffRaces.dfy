/**
 * Staff changes whose transactions overlap (apps/api/src/modules/staff/staff.service.ts and
 * staff.repository.ts). A change reads the roles of its account in the statement
 * that then waits for the account's row, so it may act on roles from before the
 * wait; `is_active` is of the row itself and read after it. A change that takes
 * a Super_Admin away also locks the others, in a statement of which the same
 * holds. What a transaction writes is seen when it commits.
 */
module StaffRaces {
  import opened StaffRoles

  /**
   * Reading: the roles are read, and the wait for the account's row is on.
   * Holding: the row is locked, and the change admitted. Counting: the other
   * Super_Admins, as of the moment `since`, are found, and the wait for their
   * rows is on. Keeping: those still active are locked too.
   */
  datatype Phase =
    | Asked
    | Reading(roles: set<Assignment>)
    | Holding(roles: set<Assignment>)
    | Counting(roles: set<Assignment>, since: nat, others: set<nat>)
    | Keeping(roles: set<Assignment>, since: nat, others: set<nat>, kept: set<nat>)
    | Over

  /** A request: whom it is from, the roles they held when it was asked, and how far it has come. */
  datatype Tx = Tx(actor: Actor, own: set<Assignment>, change: Change, phase: Phase)

  datatype World = World(staff: Staff, actors: seq<Actor>, txs: seq<Tx>, now: nat)

  datatype Step =
    | Identify(staff: nat, branch: int)
    | Ask(actor: nat, change: Change)
    | Read(tx: nat)
    | Lock(tx: nat)
    | Count(tx: nat)
    | Keep(tx: nat)
    | Commit(tx: nat)
    | Undo(tx: nat)

  function Target(t: Tx): nat {
    t.change.staff
  }

  /** The rows a transaction has locked. */
  function Locked(t: Tx): set<nat> {
    match t.phase
    case Holding(_) => {Target(t)}
    case Counting(_, _, _) => {Target(t)}
    case Keeping(_, _, _, kept) => {Target(t)} + kept
    case _ => {}
  }

  predicate ActiveSuperAdmin(a: Account) {
    a.active && IsSuperAdmin(a)
  }

  ghost function OtherSuperAdmins(staff: Staff, id: nat): set<nat> {
    set other | other in staff && other != id && ActiveSuperAdmin(staff[other])
  }

  /** Whether the actor may make the change to an account with these roles. */
  predicate Admitted(t: Tx, roles: set<Assignment>) {
    && t.actor.roles * Required(t.change) != {}
    && match t.change
       case Create(_, given, everywhere) =>
         && (RankOf(t.actor.roles) >= ADMIN_RANK || given != {})
         && MayChange(t.actor, t.own, given)
         && (everywhere ==> SuperAdmin in t.actor.roles)
       case SetRoles(_, desired) => Manages(t, roles) && MayChange(t.actor, t.own, (desired - roles) + (roles - desired))
       case _ => Manages(t, roles)
  }

  predicate Manages(t: Tx, roles: set<Assignment>) {
    CanView(t.actor, t.own, Target(t), roles) && CanManage(t.actor, t.own, Target(t), roles)
  }

  /** Whether a change, as far as the roles it read tell, takes a Super_Admin away. */
  predicate NeedsCheck(account: Account, change: Change, roles: set<Assignment>) {
    match change
    case SetRoles(_, desired) =>
      SuperAdmin in Held(roles - desired) && SuperAdmin !in Held(desired) && account.active
    case Deactivate(_) => account.active && SuperAdmin in Held(roles)
    case _ => false
  }

  /** The account after a change that was worked out from the roles it read. */
  function Written(account: Account, change: Change, roles: set<Assignment>): Account {
    match change
    case Create(_, given, everywhere) => Account(given, everywhere, true)
    case SetRoles(_, desired) => account.(roles := account.roles - (roles - desired) + (desired - roles))
    case SetAllBranches(_, on) => account.(allBranches := on)
    case Deactivate(_) => account.(active := false)
    case Reactivate(_) => account.(active := true)
  }

  ghost predicate Free(w: World, t: nat, rows: set<nat>) {
    forall u :: 0 <= u < |w.txs| && u != t ==> rows !! Locked(w.txs[u])
  }

  ghost predicate Enabled(w: World, step: Step) {
    match step
    case Identify(_, _) => true
    case Ask(i, _) => i < |w.actors| && w.actors[i].staff in w.staff
    case Read(t) => t < |w.txs| && w.txs[t].phase.Asked? && !w.txs[t].change.Create?
    case Lock(t) => t < |w.txs| && w.txs[t].phase.Reading? && Free(w, t, {Target(w.txs[t])})
    case Count(t) => t < |w.txs| && w.txs[t].phase.Holding? && Known(w, t) && Checked(w, t)
    case Keep(t) => t < |w.txs| && w.txs[t].phase.Counting? && Free(w, t, w.txs[t].phase.others)
    case Commit(t) =>
      && t < |w.txs|
      && (|| (w.txs[t].phase.Asked? && w.txs[t].change.Create? && Target(w.txs[t]) !in w.staff && Admitted(w.txs[t], {}))
          || (w.txs[t].phase.Holding? && Known(w, t) && !Checked(w, t))
          || (w.txs[t].phase.Keeping? && Known(w, t)))
    case Undo(t) => t < |w.txs| && !w.txs[t].phase.Over?
  }

  ghost predicate Known(w: World, t: nat)
    requires t < |w.txs|
  {
    Target(w.txs[t]) in w.staff
  }

  ghost predicate Checked(w: World, t: nat)
    requires t < |w.txs| && Known(w, t) && !w.txs[t].phase.Asked? && !w.txs[t].phase.Over?
  {
    NeedsCheck(w.staff[Target(w.txs[t])], w.txs[t].change, w.txs[t].phase.roles)
  }

  ghost function WithPhase(w: World, t: nat, phase: Phase): World
    requires t < |w.txs|
  {
    w.(txs := w.txs[t := w.txs[t].(phase := phase)])
  }

  /** Of the Super_Admins seen, those whose account is still active when their row is locked. */
  ghost function StillActive(staff: Staff, others: set<nat>): set<nat> {
    set id | id in others && id in staff && staff[id].active
  }

  ghost function Next(w: World, step: Step): World
    requires Enabled(w, step)
  {
    match step
    case Identify(id, branch) => w.(actors := w.actors + Authenticated(w.staff, id, branch))
    case Ask(i, change) => w.(txs := w.txs + [Tx(w.actors[i], w.staff[w.actors[i].staff].roles, change, Asked)])
    case Read(t) => WithPhase(w, t, if Known(w, t) then Reading(w.staff[Target(w.txs[t])].roles) else Over)
    case Lock(t) =>
      var roles := w.txs[t].phase.roles;
      WithPhase(w, t, if Admitted(w.txs[t], roles) then Holding(roles) else Over)
    case Count(t) =>
      var others := OtherSuperAdmins(w.staff, Target(w.txs[t]));
      WithPhase(w, t, Counting(w.txs[t].phase.roles, w.now, others)).(now := w.now + 1)
    case Keep(t) =>
      var Counting(roles, since, others) := w.txs[t].phase;
      var kept := StillActive(w.staff, others);
      WithPhase(w, t, if kept == {} then Over else Keeping(roles, since, others, kept))
    case Commit(t) => WithPhase(w.(staff := w.staff[Target(w.txs[t]) := NewAccount(w, t)]), t, Over)
    case Undo(t) => WithPhase(w, t, Over)
  }

  ghost function NewAccount(w: World, t: nat): Account
    requires Enabled(w, Commit(t))
  {
    var tx := w.txs[t];
    if tx.phase.Asked? then Account(tx.change.roles, tx.change.allBranches, true)
    else Written(w.staff[Target(tx)], tx.change, tx.phase.roles)
  }

  ghost predicate RunFrom(w: World, steps: seq<Step>)
    decreases |steps|
  {
    steps != [] ==> Enabled(w, steps[0]) && RunFrom(Next(w, steps[0]), steps[1..])
  }

  ghost function End(w: World, steps: seq<Step>): World
    requires RunFrom(w, steps)
    decreases |steps|
  {
    if steps == [] then w else End(Next(w, steps[0]), steps[1..])
  }

  // ── What a stale reading overlooks ────────────────────────────────────────

  /** A change that is not checked, for what it read, and takes a Super_Admin away. */
  ghost predicate Overlooks(account: Account, change: Change, roles: set<Assignment>) {
    && !NeedsCheck(account, change, roles)
    && ActiveSuperAdmin(account) && !ActiveSuperAdmin(Written(account, change, roles))
  }

  function SuperAssignments(roles: set<Assignment>): set<Assignment> {
    set a | a in roles && a.role == SuperAdmin
  }

  /** A change that read the account's Super_Admin assignments as they are overlooks nothing. */
  lemma FreshReading(account: Account, change: Change, roles: set<Assignment>)
    requires SuperAssignments(roles) == SuperAssignments(account.roles) && !change.Create?
    ensures !Overlooks(account, change, roles)
  {
    if ActiveSuperAdmin(account) {
      var a :| a in account.roles && a.role == SuperAdmin;
      assert a in SuperAssignments(roles);
      if change.SetRoles? {
        assert a !in change.roles ==> a in roles - change.roles;
        forall b | b in change.roles && b.role == SuperAdmin
          ensures b in Written(account, change, roles).roles
        {
          assert b in roles <==> b in SuperAssignments(roles);
          assert b in account.roles <==> b in SuperAssignments(account.roles);
        }
      }
    }
  }

  // ── What every step keeps ─────────────────────────────────────────────────

  predicate Counted(t: Tx) {
    t.phase.Counting? || t.phase.Keeping?
  }

  /** The Super_Admins a transaction relies on: those it has locked, or saw before it waits for them. */
  function Relied(t: Tx): set<nat>
    requires Counted(t)
  {
    if t.phase.Counting? then t.phase.others else t.phase.kept
  }

  ghost predicate IsActiveSuperAdmin(staff: Staff, id: nat) {
    id in staff && ActiveSuperAdmin(staff[id])
  }

  /** A checked change of an active Super_Admin, under way. */
  ghost predicate Live(w: World, t: nat) {
    t < |w.txs| && Counted(w.txs[t]) && IsActiveSuperAdmin(w.staff, Target(w.txs[t]))
  }

  /** Two transactions wait for each other's account: only undoing one of them lets the other go on. */
  ghost predicate Stuck(w: World, t: nat, u: nat) {
    && Live(w, t) && Live(w, u)
    && w.txs[t].phase.Counting? && w.txs[u].phase.Counting?
    && Target(w.txs[t]) in w.txs[u].phase.others && Target(w.txs[u]) in w.txs[t].phase.others
  }

  /** A transaction that cannot commit, because there is no other Super_Admin, or as long as others do not give up. */
  ghost predicate Powerless(w: World, t: nat, since: nat) {
    && Live(w, t) && w.txs[t].phase.Counting?
    && (w.txs[t].phase.others == {} || exists u: nat :: Stuck(w, t, u) && w.txs[u].phase.since <= since)
  }

  /** A Super_Admin that `t` relies on and that none who counted before it can take away. */
  ghost predicate Safe(w: World, t: nat, id: nat) {
    && Live(w, t) && id in Relied(w.txs[t]) && IsActiveSuperAdmin(w.staff, id)
    && forall u: nat :: Live(w, u) && Target(w.txs[u]) == id && w.txs[u].phase.since < w.txs[t].phase.since ==>
                     Powerless(w, u, w.txs[t].phase.since)
  }

  /** No row is locked twice. */
  ghost predicate RowsApart(w: World) {
    forall t, u :: 0 <= t < |w.txs| && 0 <= u < |w.txs| && t != u ==> Locked(w.txs[t]) !! Locked(w.txs[u])
  }

  ghost predicate TxValid(w: World, t: nat)
    requires t < |w.txs|
  {
    var tx := w.txs[t];
    && (!tx.phase.Asked? && !tx.phase.Over? ==> Known(w, t) && !tx.change.Create?)
    && (tx.phase.Holding? ==> !Overlooks(w.staff[Target(tx)], tx.change, tx.phase.roles))
    && (Counted(tx) ==> Checked(w, t) && tx.phase.since < w.now && Target(tx) !in tx.phase.others)
    && (tx.phase.Keeping? ==> tx.phase.kept <= tx.phase.others && tx.phase.kept != {})
  }

  /** Who counts later sees the accounts of those who counted before, and waits for them. */
  ghost predicate InOrder(w: World) {
    && (forall t: nat, u: nat :: Live(w, t) && Live(w, u) && t != u ==> w.txs[t].phase.since != w.txs[u].phase.since)
    && (forall t: nat, u: nat :: Live(w, t) && Live(w, u) && w.txs[t].phase.since < w.txs[u].phase.since ==>
                         w.txs[u].phase.Counting? && Target(w.txs[t]) in w.txs[u].phase.others)
  }

  ghost predicate AllSafe(w: World) {
    forall t: nat :: Live(w, t) && w.txs[t].phase.others != {} ==> exists id: nat :: Safe(w, t, id)
  }

  ghost predicate Valid(w: World) {
    && (forall t :: 0 <= t < |w.txs| ==> TxValid(w, t))
    && RowsApart(w) && InOrder(w) && AllSafe(w)
  }

  /** The same checked changes under way, and no active Super_Admin less. */
  ghost predicate SameLive(w: World, w': World) {
    && (forall t: nat :: Live(w', t) ==> Live(w, t) && w'.txs[t] == w.txs[t])
    && (forall t: nat :: Live(w, t) ==> Live(w', t))
    && (forall id: nat :: IsActiveSuperAdmin(w.staff, id) ==> IsActiveSuperAdmin(w'.staff, id))
  }

  lemma SameLiveKeeps(w: World, w': World)
    requires SameLive(w, w') && InOrder(w) && AllSafe(w)
    ensures InOrder(w') && AllSafe(w')
  {
    hide IsActiveSuperAdmin;
    forall t: nat | Live(w', t) && w'.txs[t].phase.others != {}
      ensures exists id: nat :: Safe(w', t, id)
    {
      var id: nat :| Safe(w, t, id);
      forall u: nat | Live(w', u) && Target(w'.txs[u]) == id && w'.txs[u].phase.since < w'.txs[t].phase.since
        ensures Powerless(w', u, w'.txs[t].phase.since)
      {
        assert Powerless(w, u, w.txs[t].phase.since);
        if w.txs[u].phase.others != {} {
          var x: nat :| Stuck(w, u, x) && w.txs[x].phase.since <= w.txs[t].phase.since;
          assert Stuck(w', u, x);
        }
      }
      assert Safe(w', t, id);
    }
  }

  /** One transaction goes on; what it writes is a row it holds, or a new one. */
  ghost predicate OneGoesOn(w: World, w': World, t: nat) {
    && t < |w.txs| == |w'.txs| && w.now <= w'.now
    && (forall u: nat :: u < |w.txs| && u != t ==> w'.txs[u] == w.txs[u])
    && w.staff.Keys <= w'.staff.Keys
    && (forall id :: id in w.staff ==> w'.staff[id] == w.staff[id] || id in Locked(w.txs[t]))
    && TxValid(w', t) && Free(w, t, Locked(w'.txs[t]))
  }

  lemma OneGoesOnKeeps(w: World, w': World, t: nat)
    requires OneGoesOn(w, w', t) && RowsApart(w)
    requires forall u :: 0 <= u < |w.txs| ==> TxValid(w, u)
    ensures RowsApart(w') && forall u :: 0 <= u < |w'.txs| ==> TxValid(w', u)
  {
    forall u: nat | u < |w'.txs|
      ensures TxValid(w', u)
    {
      if u != t {
        assert TxValid(w, u);
        assert Locked(w.txs[u]) !! Locked(w.txs[t]);
      }
    }
  }

  /** Live transactions have different targets, which none of the others has locked. */
  lemma TargetsApart(w: World, t: nat, u: nat)
    requires RowsApart(w) && t < |w.txs| && u < |w.txs| && t != u && Target(w.txs[t]) in Locked(w.txs[t])
    ensures Target(w.txs[t]) !in Locked(w.txs[u])
  {
  }

  /** A transaction ends without a commit. */
  lemma UndoKeepsSafe(w: World, t: nat)
    requires Valid(w) && t < |w.txs|
    ensures InOrder(WithPhase(w, t, Over)) && AllSafe(WithPhase(w, t, Over))
  {
    var w' := WithPhase(w, t, Over);
    hide IsActiveSuperAdmin, TxValid;
    forall s: nat | Live(w', s) && w'.txs[s].phase.others != {}
      ensures exists id: nat :: Safe(w', s, id)
    {
      if Live(w, t) && w.txs[t].phase.since < w.txs[s].phase.since {
        UndoneIsSafe(w, t, s);
      } else {
        var id: nat :| Safe(w, s, id);
        StillSafe(w, w', t, s, id);
      }
    }
  }

  /** Without `t`, who did not count before `s`, what was safe for `s` is safe. */
  lemma StillSafe(w: World, w': World, t: nat, s: nat, id: nat)
    requires Safe(w, s, id) && InOrder(w) && t < |w.txs| && t != s && w' == WithPhase(w, t, Over)
    requires Live(w, t) ==> w.txs[s].phase.since <= w.txs[t].phase.since
    ensures Safe(w', s, id)
  {
    hide IsActiveSuperAdmin;
    forall u: nat | Live(w', u) && Target(w'.txs[u]) == id && w'.txs[u].phase.since < w'.txs[s].phase.since
      ensures Powerless(w', u, w'.txs[s].phase.since)
    {
      assert Powerless(w, u, w.txs[s].phase.since);
      if w.txs[u].phase.others != {} {
        var x: nat :| Stuck(w, u, x) && w.txs[x].phase.since <= w.txs[s].phase.since;
        assert Stuck(w', u, x);
      }
    }
  }

  /** Without `t`, who counted before `s`, the account of `t` is safe for `s`. */
  lemma UndoneIsSafe(w: World, t: nat, s: nat)
    requires Valid(w) && Live(w, s) && Live(w, t) && w.txs[t].phase.since < w.txs[s].phase.since
    ensures Safe(WithPhase(w, t, Over), s, Target(w.txs[t]))
  {
    var w' := WithPhase(w, t, Over);
    hide IsActiveSuperAdmin, TxValid, AllSafe;
    forall u: nat | Live(w', u) && u != t
      ensures Target(w'.txs[u]) != Target(w.txs[t])
    {
      TargetsApart(w, t, u);
    }
  }

  /** A live transaction that commits was before all others, and takes away what none of them relies on. */
  lemma CommitKeepsSafe(w: World, t: nat, account: Account)
    requires Valid(w) && Live(w, t) && w.txs[t].phase.Keeping?
    ensures var w' := WithPhase(w.(staff := w.staff[Target(w.txs[t]) := account]), t, Over);
            InOrder(w') && AllSafe(w')
  {
    var target := Target(w.txs[t]);
    var w' := WithPhase(w.(staff := w.staff[target := account]), t, Over);
    hide TxValid, ActiveSuperAdmin;
    forall s: nat | Live(w', s)
      ensures s != t && Live(w, s) && Target(w.txs[s]) != target && w.txs[t].phase.since < w.txs[s].phase.since
    {
      TargetsApart(w, t, s);
      TargetsApart(w, s, t);
    }
    forall s: nat | Live(w', s) && w'.txs[s].phase.others != {}
      ensures exists id: nat :: Safe(w', s, id)
    {
      var id: nat :| Safe(w, s, id);
      assert id != target by {
        assert !Powerless(w, t, w.txs[s].phase.since);
      }
      CommittedSafe(w, t, account, s, id);
    }
  }

  lemma CommittedSafe(w: World, t: nat, account: Account, s: nat, id: nat)
    requires RowsApart(w) && Live(w, t) && w.txs[t].phase.Keeping? && t != s
    requires Safe(w, s, id) && id != Target(w.txs[t])
    ensures Safe(WithPhase(w.(staff := w.staff[Target(w.txs[t]) := account]), t, Over), s, id)
  {
    var w' := WithPhase(w.(staff := w.staff[Target(w.txs[t]) := account]), t, Over);
    hide ActiveSuperAdmin;
    forall u: nat | u < |w.txs| && u != t && Counted(w.txs[u])
      ensures Live(w', u) <==> Live(w, u)
    {
      TargetsApart(w, t, u);
      TargetsApart(w, u, t);
    }
    forall u: nat | Live(w', u) && Target(w'.txs[u]) == id && w'.txs[u].phase.since < w'.txs[s].phase.since
      ensures Powerless(w', u, w'.txs[s].phase.since)
    {
      assert Powerless(w, u, w.txs[s].phase.since);
      if w.txs[u].phase.others != {} {
        var x: nat :| Stuck(w, u, x) && w.txs[x].phase.since <= w.txs[s].phase.since;
        assert Stuck(w', u, x);
      }
    }
  }

  /** A live transaction that gets its rows was before all others and waits for none. */
  lemma KeepKeepsSafe(w: World, t: nat)
    requires Valid(w) && Live(w, t) && Enabled(w, Keep(t)) && StillActive(w.staff, w.txs[t].phase.others) != {}
    ensures InOrder(Next(w, Keep(t))) && AllSafe(Next(w, Keep(t)))
  {
    var w' := Next(w, Keep(t));
    hide TxValid, ActiveSuperAdmin, Enabled, Next;
    KeepIs(w, t);
    forall u: nat | Live(w, u) && u != t
      ensures Target(w.txs[u]) !in w.txs[t].phase.others && w.txs[t].phase.since < w.txs[u].phase.since
    {
      assert w.txs[t].phase.others !! Locked(w.txs[u]);
    }
    forall s: nat | Live(w', s) && w'.txs[s].phase.others != {}
      ensures exists id: nat :: Safe(w', s, id)
    {
      var id: nat :| Safe(w, s, id);
      KeptSafe(w, t, s, id);
    }
  }

  ghost function WithKept(w: World, t: nat): World
    requires t < |w.txs| && w.txs[t].phase.Counting?
  {
    var Counting(roles, since, others) := w.txs[t].phase;
    WithPhase(w, t, Keeping(roles, since, others, StillActive(w.staff, others)))
  }

  lemma KeepIs(w: World, t: nat)
    requires Enabled(w, Keep(t)) && StillActive(w.staff, w.txs[t].phase.others) != {} && TxValid(w, t)
    ensures Next(w, Keep(t)) == WithKept(w, t) && Free(w, t, w.txs[t].phase.others)
    ensures Target(w.txs[t]) !in w.txs[t].phase.others
  {
  }

  lemma KeptSafe(w: World, t: nat, s: nat, id: nat)
    requires Live(w, t) && w.txs[t].phase.Counting? && w.txs[t].phase.others != {} && Safe(w, s, id)
    requires Target(w.txs[t]) !in w.txs[t].phase.others
    requires forall u: nat :: Live(w, u) && u != t ==>
                                Target(w.txs[u]) !in w.txs[t].phase.others && w.txs[t].phase.since < w.txs[u].phase.since
    ensures Safe(WithKept(w, t), s, id)
  {
    var w' := WithKept(w, t);
    assert forall x: nat :: !Stuck(w, t, x) && !Stuck(w, x, t);
    forall u: nat | Live(w', u) && Target(w'.txs[u]) == id && w'.txs[u].phase.since < w'.txs[s].phase.since
      ensures Powerless(w', u, w'.txs[s].phase.since)
    {
      assert Powerless(w, u, w.txs[s].phase.since);
      assert u != t;
      if w.txs[u].phase.others != {} {
        var x: nat :| Stuck(w, u, x) && w.txs[x].phase.since <= w.txs[s].phase.since;
        assert x != t;
        assert Stuck(w', u, x);
      }
    }
  }

  // ── Counting ──────────────────────────────────────────────────────────────

  /** Of the live transactions, the one that counted last. */
  lemma {:induction false} LatestUpTo(w: World, n: nat) returns (u: nat)
    requires exists t: nat :: t < n && Live(w, t)
    ensures u < n && Live(w, u)
    ensures forall t: nat :: t < n && Live(w, t) ==> w.txs[t].phase.since <= w.txs[u].phase.since
  {
    if exists t: nat :: t < n - 1 && Live(w, t) {
      u := LatestUpTo(w, n - 1);
      if Live(w, n - 1) && w.txs[n - 1].phase.since > w.txs[u].phase.since {
        u := n - 1;
      }
    } else {
      u := n - 1;
    }
  }

  ghost function WithCount(w: World, t: nat): World
    requires t < |w.txs| && w.txs[t].phase.Holding?
  {
    var others := OtherSuperAdmins(w.staff, Target(w.txs[t]));
    WithPhase(w, t, Counting(w.txs[t].phase.roles, w.now, others)).(now := w.now + 1)
  }

  /** Whoever was live before `t` counts stays so, and is among those `t` sees. */
  lemma SeenByTheNext(w: World, t: nat, u: nat)
    requires Valid(w) && t < |w.txs| && w.txs[t].phase.Holding? && u != t
    ensures Live(WithCount(w, t), u) <==> Live(w, u)
    ensures Live(w, u) ==> Target(w.txs[u]) in OtherSuperAdmins(w.staff, Target(w.txs[t])) && w.txs[u].phase.since < w.now
  {
    if Live(w, u) {
      TargetsApart(w, t, u);
      assert TxValid(w, u);
    }
  }

  lemma PowerlessStays(w: World, t: nat, u: nat, since: nat)
    requires Valid(w) && t < |w.txs| && w.txs[t].phase.Holding? && Powerless(w, u, since) && since <= w.now
    ensures Powerless(WithCount(w, t), u, since) && Powerless(WithCount(w, t), u, w.now)
  {
    if w.txs[u].phase.others != {} {
      var x: nat :| Stuck(w, u, x) && w.txs[x].phase.since <= since;
      assert Stuck(WithCount(w, t), u, x);
    }
  }

  lemma CountStaysSafe(w: World, t: nat, s: nat, id: nat)
    requires Valid(w) && t < |w.txs| && w.txs[t].phase.Holding? && Safe(w, s, id)
    ensures Safe(WithCount(w, t), s, id)
  {
    var w' := WithCount(w, t);
    hide TxValid, IsActiveSuperAdmin, AllSafe, RowsApart, OtherSuperAdmins;
    SeenByTheNext(w, t, s);
    forall u: nat | Live(w', u) && Target(w'.txs[u]) == id && w'.txs[u].phase.since < w'.txs[s].phase.since
      ensures Powerless(w', u, w'.txs[s].phase.since)
    {
      SeenByTheNext(w, t, u);
      PowerlessStays(w, t, u, w.txs[s].phase.since);
    }
  }

  /** What was safe for the last to count before is safe for the next, or is the account of the next. */
  lemma SafeForTheNext(w: World, t: nat, last: nat, id: nat)
    requires Valid(w) && t < |w.txs| && w.txs[t].phase.Holding? && IsActiveSuperAdmin(w.staff, Target(w.txs[t]))
    requires Safe(w, last, id) && id != Target(w.txs[t])
    requires forall u: nat :: Live(w, u) ==> w.txs[u].phase.since <= w.txs[last].phase.since
    ensures Safe(WithCount(w, t), t, id)
  {
    var w' := WithCount(w, t);
    hide AllSafe, RowsApart;
    SeenByTheNext(w, t, last);
    assert TxValid(w, last);
    forall u: nat | Live(w', u) && Target(w'.txs[u]) == id && w'.txs[u].phase.since < w'.txs[t].phase.since
      ensures Powerless(w', u, w'.txs[t].phase.since)
    {
      SeenByTheNext(w, t, u);
      PowerlessStays(w, t, u, w.txs[last].phase.since);
    }
  }

  /** The account of one that cannot commit before `t` gives up is safe for `t`. */
  lemma PowerlessIsSafe(w: World, t: nat, last: nat)
    requires Valid(w) && t < |w.txs| && w.txs[t].phase.Holding? && IsActiveSuperAdmin(w.staff, Target(w.txs[t]))
    requires Live(w, last) && Powerless(WithCount(w, t), last, w.now)
    ensures Safe(WithCount(w, t), t, Target(w.txs[last]))
  {
    var w' := WithCount(w, t);
    hide TxValid, AllSafe;
    SeenByTheNext(w, t, last);
    forall u: nat | Live(w', u) && u != t && u != last
      ensures Target(w'.txs[u]) != Target(w.txs[last])
    {
      TargetsApart(w, last, u);
    }
  }

  /** A transaction that waits for the account of `t`, while `t` sees its account, is stuck with `t`. */
  lemma StuckWithTheNext(w: World, t: nat, u: nat)
    requires Valid(w) && t < |w.txs| && w.txs[t].phase.Holding? && IsActiveSuperAdmin(w.staff, Target(w.txs[t]))
    requires Live(w, u) && Target(w.txs[t]) in Relied(w.txs[u])
    ensures Powerless(WithCount(w, t), u, w.now)
  {
    TargetsApart(w, t, u);
    SeenByTheNext(w, t, u);
    assert Stuck(WithCount(w, t), u, t);
  }

  lemma SafeWhenCounted(w: World, t: nat) returns (id: nat)
    requires Valid(w) && t < |w.txs| && w.txs[t].phase.Holding? && IsActiveSuperAdmin(w.staff, Target(w.txs[t]))
    requires OtherSuperAdmins(w.staff, Target(w.txs[t])) != {}
    ensures Safe(WithCount(w, t), t, id)
  {
    hide RowsApart, InOrder;
    if exists u: nat :: u < |w.txs| && Live(w, u) {
      var last := LatestUpTo(w, |w.txs|);
      if w.txs[last].phase.others == {} {
        assert TxValid(w, last);
        PowerlessStays(w, t, last, 0);
        PowerlessIsSafe(w, t, last);
        id := Target(w.txs[last]);
      } else {
        id :| Safe(w, last, id);
        if id == Target(w.txs[t]) {
          StuckWithTheNext(w, t, last);
          PowerlessIsSafe(w, t, last);
          id := Target(w.txs[last]);
        } else {
          SafeForTheNext(w, t, last, id);
        }
      }
    } else {
      id :| id in OtherSuperAdmins(w.staff, Target(w.txs[t]));
      forall u: nat | u != t
        ensures !Live(WithCount(w, t), u)
      {
        SeenByTheNext(w, t, u);
      }
    }
  }

  lemma CountKeepsOrder(w: World, t: nat)
    requires Valid(w) && t < |w.txs| && w.txs[t].phase.Holding? && IsActiveSuperAdmin(w.staff, Target(w.txs[t]))
    ensures InOrder(WithCount(w, t))
  {
    hide TxValid, AllSafe, RowsApart, OtherSuperAdmins;
    forall u: nat | u != t
      ensures Live(WithCount(w, t), u) <==> Live(w, u)
      ensures Live(w, u) ==> Target(w.txs[u]) in OtherSuperAdmins(w.staff, Target(w.txs[t])) && w.txs[u].phase.since < w.now
    {
      SeenByTheNext(w, t, u);
    }
  }

  lemma CountKeepsSafe(w: World, t: nat)
    requires Valid(w) && t < |w.txs| && w.txs[t].phase.Holding? && IsActiveSuperAdmin(w.staff, Target(w.txs[t]))
    ensures AllSafe(WithCount(w, t))
  {
    var w' := WithCount(w, t);
    hide TxValid, RowsApart, InOrder, Safe;
    forall s: nat | Live(w', s) && w'.txs[s].phase.others != {}
      ensures exists id: nat :: Safe(w', s, id)
    {
      if s == t {
        var id := SafeWhenCounted(w, t);
      } else {
        SeenByTheNext(w, t, s);
        var id: nat :| Safe(w, s, id);
        CountStaysSafe(w, t, s, id);
      }
    }
  }

  // ── Steps and runs ────────────────────────────────────────────────────────

  /** The wait for the account's row ends, and what was read before it overlooks a Super_Admin. */
  ghost predicate OverlooksAtLock(w: World, step: Step) {
    && step.Lock? && step.tx < |w.txs| && w.txs[step.tx].phase.Reading? && Known(w, step.tx)
    && Overlooks(w.staff[Target(w.txs[step.tx])], w.txs[step.tx].change, w.txs[step.tx].phase.roles)
  }

  lemma StepGoesOn(w: World, step: Step)
    requires Valid(w) && Enabled(w, step) && !OverlooksAtLock(w, step)
    requires !step.Identify? && !step.Ask?
    ensures OneGoesOn(w, Next(w, step), step.tx)
  {
    var t, w' := step.tx, Next(w, step);
    assert TxValid(w, t);
    hide InOrder, AllSafe, NeedsCheck, Overlooks, Admitted, Written;
    assert TxValid(w', t);
    assert Free(w, t, Locked(w'.txs[t]));
  }

  lemma StepKeepsSafe(w: World, step: Step)
    requires Valid(w) && Enabled(w, step) && !OverlooksAtLock(w, step)
    ensures InOrder(Next(w, step)) && AllSafe(Next(w, step))
  {
    match step
    case Count(t) =>
      if IsActiveSuperAdmin(w.staff, Target(w.txs[t])) {
        CountKeepsOrder(w, t);
        CountKeepsSafe(w, t);
      } else {
        SameLiveKeeps(w, Next(w, step));
      }
    case Keep(t) =>
      if StillActive(w.staff, w.txs[t].phase.others) == {} {
        UndoKeepsSafe(w, t);
      } else if Live(w, t) {
        KeepKeepsSafe(w, t);
      } else {
        SameLiveKeeps(w, Next(w, step));
      }
    case Commit(t) =>
      if Live(w, t) {
        CommitKeepsSafe(w, t, NewAccount(w, t));
      } else {
        CommitIsSame(w, t);
        SameLiveKeeps(w, Next(w, step));
      }
    case Undo(t) => UndoKeepsSafe(w, t);
    case _ => SameLiveKeeps(w, Next(w, step));
  }

  /** A commit of any other change takes no active Super_Admin away. */
  lemma CommitIsSame(w: World, t: nat)
    requires Valid(w) && Enabled(w, Commit(t)) && !Live(w, t)
    ensures SameLive(w, Next(w, Commit(t)))
  {
    assert TxValid(w, t);
    hide InOrder, AllSafe;
    var w' := Next(w, Commit(t));
    forall u: nat | u != t
      ensures Live(w', u) <==> Live(w, u)
    {
      if u < |w.txs| && Counted(w.txs[u]) {
        assert TxValid(w, u);
        if !w.txs[t].phase.Asked? {
          TargetsApart(w, t, u);
        }
      }
    }
  }

  lemma ArrivalKeepsValid(w: World, step: Step)
    requires Valid(w) && Enabled(w, step) && (step.Identify? || step.Ask?)
    ensures forall u :: 0 <= u < |Next(w, step).txs| ==> TxValid(Next(w, step), u)
    ensures RowsApart(Next(w, step))
  {
    hide InOrder, AllSafe, Overlooks, NeedsCheck;
    forall u: nat | u < |w.txs|
      ensures TxValid(Next(w, step), u)
    {
      assert TxValid(w, u);
    }
  }

  /** Every step keeps the invariant, unless a wait ends that overlooks a Super_Admin. */
  lemma StepKeepsValid(w: World, step: Step)
    requires Valid(w) && Enabled(w, step) && !OverlooksAtLock(w, step)
    ensures Valid(Next(w, step))
  {
    hide InOrder, AllSafe, TxValid, RowsApart, Enabled, Next, OverlooksAtLock;
    StepKeepsSafe(w, step);
    if step.Identify? || step.Ask? {
      ArrivalKeepsValid(w, step);
    } else {
      StepGoesOn(w, step);
      OneGoesOnKeeps(w, Next(w, step), step.tx);
    }
  }

  lemma StepKeepsASuperAdmin(w: World, step: Step)
    requires Valid(w) && Enabled(w, step) && HasActiveSuperAdmin(w.staff)
    ensures HasActiveSuperAdmin(Next(w, step).staff)
  {
    var id :| id in w.staff && w.staff[id].active && IsSuperAdmin(w.staff[id]);
    if step.Commit? {
      var t, w' := step.tx, Next(w, step);
      assert TxValid(w, t);
      if Live(w, t) {
        var other: nat :| Safe(w, t, other);
        assert IsActiveSuperAdmin(w'.staff, other);
      } else {
        CommitIsSame(w, t);
        assert IsActiveSuperAdmin(w'.staff, id);
      }
    }
  }

  /** No wait of the run overlooks a Super_Admin. */
  ghost predicate NothingOverlooked(w: World, steps: seq<Step>)
    requires RunFrom(w, steps)
    decreases |steps|
  {
    steps != [] ==> !OverlooksAtLock(w, steps[0]) && NothingOverlooked(Next(w, steps[0]), steps[1..])
  }

  /**
   * A company with an active Super_Admin keeps one, however the transactions
   * overlap, as long as no wait overlooks a Super_Admin.
   */
  lemma {:induction false} ASuperAdminStays(w: World, steps: seq<Step>)
    requires Valid(w) && HasActiveSuperAdmin(w.staff) && RunFrom(w, steps) && NothingOverlooked(w, steps)
    ensures Valid(End(w, steps)) && HasActiveSuperAdmin(End(w, steps).staff)
    decreases |steps|
  {
    hide Valid, HasActiveSuperAdmin, Enabled, Next, OverlooksAtLock;
    if steps != [] {
      StepKeepsValid(w, steps[0]);
      StepKeepsASuperAdmin(w, steps[0]);
      ASuperAdminStays(Next(w, steps[0]), steps[1..]);
    }
  }

  /** Each wait ends with the account's Super_Admin assignments as they were read. */
  ghost predicate ReadFresh(w: World, steps: seq<Step>)
    requires RunFrom(w, steps)
    decreases |steps|
  {
    steps != [] ==>
      && (steps[0].Lock? && Known(w, steps[0].tx) ==>
            var tx := w.txs[steps[0].tx];
            SuperAssignments(tx.phase.roles) == SuperAssignments(w.staff[Target(tx)].roles))
      && ReadFresh(Next(w, steps[0]), steps[1..])
  }

  /** With the roles read as they are when the wait ends, a company keeps an active Super_Admin. */
  lemma {:induction false} FreshReadingsKeepOne(w: World, steps: seq<Step>)
    requires Valid(w) && HasActiveSuperAdmin(w.staff) && RunFrom(w, steps) && ReadFresh(w, steps)
    ensures NothingOverlooked(w, steps) && HasActiveSuperAdmin(End(w, steps).staff)
    decreases |steps|
  {
    hide Valid, HasActiveSuperAdmin, Next, NeedsCheck, Overlooks, SuperAssignments;
    if steps != [] {
      if steps[0].Lock? && Known(w, steps[0].tx) {
        var tx := w.txs[steps[0].tx];
        NotACreation(w, steps[0].tx);
        FreshReading(w.staff[Target(tx)], tx.change, tx.phase.roles);
      }
      StepKeepsValid(w, steps[0]);
      StepKeepsASuperAdmin(w, steps[0]);
      FreshReadingsKeepOne(Next(w, steps[0]), steps[1..]);
    }
  }

  lemma NotACreation(w: World, t: nat)
    requires Valid(w) && t < |w.txs| && w.txs[t].phase.Reading?
    ensures !w.txs[t].change.Create?
  {
    assert TxValid(w, t);
  }

  /**
   * A change that goes through without the check leaves no active Super_Admin,
   * if and only if it overlooked one and there is no other.
   */
  lemma UncheckedTakesTheLast(w: World, t: nat)
    requires Valid(w) && HasActiveSuperAdmin(w.staff) && Enabled(w, Lock(t)) && Known(w, t)
    requires Admitted(w.txs[t], w.txs[t].phase.roles) && !Checked(w, t)
    ensures var held := Next(w, Lock(t));
            && Enabled(held, Commit(t))
            && (!HasActiveSuperAdmin(Next(held, Commit(t)).staff) <==>
                OverlooksAtLock(w, Lock(t)) && OtherSuperAdmins(w.staff, Target(w.txs[t])) == {})
  {
    hide NeedsCheck, Written, Admitted, InOrder, AllSafe, RowsApart, IsSuperAdmin;
    NotACreation(w, t);
    var (staff, target) := (w.staff, Target(w.txs[t]));
    var account := Written(staff[target], w.txs[t].change, w.txs[t].phase.roles);
    assert Next(Next(w, Lock(t)), Commit(t)).staff == staff[target := account];
    OneAccountChanged(staff, target, staff[target]);
    OneAccountChanged(staff, target, account);
    assert staff[target := staff[target]] == staff;
  }

  lemma OneAccountChanged(staff: Staff, id: nat, account: Account)
    requires id in staff
    ensures HasActiveSuperAdmin(staff[id := account]) <==> OtherSuperAdmins(staff, id) != {} || ActiveSuperAdmin(account)
  {
    var staff' := staff[id := account];
    if OtherSuperAdmins(staff, id) != {} {
      var other :| other in OtherSuperAdmins(staff, id);
      assert IsActiveSuperAdmin(staff', other);
    } else {
      assert forall other :: other in staff && other != id ==> other !in OtherSuperAdmins(staff, id);
    }
    assert ActiveSuperAdmin(account) ==> IsActiveSuperAdmin(staff', id);
  }

  // ── A change that meets no other ──────────────────────────────────────────

  lemma {:induction false} RunTwice(w: World, a: seq<Step>, b: seq<Step>)
    requires RunFrom(w, a) && RunFrom(End(w, a), b)
    ensures RunFrom(w, a + b) && End(w, a + b) == End(End(w, a), b)
    decreases |a|
  {
    hide Enabled, Next;
    if a == [] {
      assert a + b == b;
    } else {
      assert (a + b)[1..] == a[1..] + b;
      RunTwice(Next(w, a[0]), a[1..], b);
    }
  }

  lemma RunOne(w: World, step: Step, steps: seq<Step>)
    requires Enabled(w, step) && RunFrom(Next(w, step), steps)
    ensures RunFrom(w, [step] + steps) && End(w, [step] + steps) == End(Next(w, step), steps)
  {
    assert ([step] + steps)[1..] == steps;
  }

  /** A transaction that has just been asked for, the actor still holding the roles read for it, and no row is locked. */
  ghost predicate Alone(w: World, t: nat) {
    && t < |w.txs| && w.txs[t].phase.Asked?
    && w.txs[t].actor.staff in w.staff && w.txs[t].own == w.staff[w.txs[t].actor.staff].roles
    && (w.txs[t].change.Create? ==> !Known(w, t))
    && forall u :: 0 <= u < |w.txs| ==> Locked(w.txs[u]) == {}
  }

  ghost function Outcome(w: World, t: nat): Result
    requires Alone(w, t)
  {
    Apply(w.staff, w.txs[t].actor, w.txs[t].change)
  }

  /** The whole account after a change that read its roles as they are. */
  lemma WrittenIsChanged(w: World, t: nat)
    requires Alone(w, t) && Known(w, t) && !w.txs[t].change.Create?
    requires Admitted(w.txs[t], w.staff[Target(w.txs[t])].roles)
    ensures var (tx, account) := (w.txs[t], w.staff[Target(w.txs[t])]);
            Outcome(w, t) ==
            if NeedsCheck(account, tx.change, account.roles) && OtherSuperAdmins(w.staff, Target(tx)) == {}
            then Refused(LastSuperAdmin)
            else Done(w.staff[Target(tx) := Written(account, tx.change, account.roles)])
  {
    var (tx, id) := (w.txs[t], Target(w.txs[t]));
    var account := w.staff[id];
    hide CanView, CanManage, RankOf, Grantable;
    assert OtherActiveSuperAdmin(w.staff, id) <==> OtherSuperAdmins(w.staff, id) != {} by {
      if OtherActiveSuperAdmin(w.staff, id) {
        var other :| other in w.staff && other != id && w.staff[other].active && IsSuperAdmin(w.staff[other]);
        assert other in OtherSuperAdmins(w.staff, id);
      }
    }
    if tx.change.SetRoles? && tx.change.roles == account.roles {
      assert Written(account, tx.change, account.roles) == account;
    }
  }

  lemma NotAdmittedIsRefused(w: World, t: nat)
    requires Alone(w, t) && !w.txs[t].change.Create?
    requires Known(w, t) ==> !Admitted(w.txs[t], w.staff[Target(w.txs[t])].roles)
    ensures Outcome(w, t).Refused?
  {
    hide CanView, CanManage, RankOf, Grantable;
  }

  lemma PhaseTwice(w: World, t: nat, a: Phase, b: Phase, staff: Staff)
    requires t < |w.txs|
    ensures WithPhase(WithPhase(w, t, a), t, b) == WithPhase(w, t, b)
    ensures WithPhase(WithPhase(w, t, a).(staff := staff), t, b) == WithPhase(w.(staff := staff), t, b)
  {
    var txs := w.txs[t := w.txs[t].(phase := a)];
    assert txs[t := txs[t].(phase := b)] == w.txs[t := w.txs[t].(phase := b)];
  }

  /** The state in which `t` is over and the accounts are `staff`. */
  ghost predicate Finished(w: World, t: nat, staff: Staff, w': World)
    requires t < |w.txs|
  {
    w' == WithPhase(w.(staff := staff), t, Over).(now := w'.now)
  }

  lemma AdmittedInAnyPhase(t: Tx, phase: Phase, roles: set<Assignment>)
    ensures Admitted(t.(phase := phase), roles) <==> Admitted(t, roles)
  {
  }

  /** From the reading on: locked, and refused, or through. */
  lemma AloneToLock(w: World, t: nat)
    requires Alone(w, t) && Known(w, t) && !w.txs[t].change.Create?
    ensures var roles := w.staff[Target(w.txs[t])].roles;
            && RunFrom(w, [Read(t), Lock(t)])
            && End(w, [Read(t), Lock(t)]) == WithPhase(w, t, if Admitted(w.txs[t], roles) then Holding(roles) else Over)
  {
    hide Admitted;
    var roles := w.staff[Target(w.txs[t])].roles;
    var w1 := Next(w, Read(t));
    AdmittedInAnyPhase(w.txs[t], Reading(roles), roles);
    PhaseTwice(w, t, Reading(roles), if Admitted(w.txs[t], roles) then Holding(roles) else Over, w.staff);
    RunOne(w1, Lock(t), []);
    RunOne(w, Read(t), [Lock(t)]);
  }

  /** The check of a change that meets no other. */
  lemma AloneToKeep(w: World, t: nat, w2: World)
    requires Alone(w, t) && Known(w, t) && !w.txs[t].change.Create?
    requires w2 == WithPhase(w, t, Holding(w.staff[Target(w.txs[t])].roles)) && Checked(w2, t)
    ensures var roles := w.staff[Target(w.txs[t])].roles;
            var others := OtherSuperAdmins(w.staff, Target(w.txs[t]));
            && RunFrom(w2, [Count(t), Keep(t)])
            && End(w2, [Count(t), Keep(t)]) ==
               WithPhase(w, t, if others == {} then Over else Keeping(roles, w.now, others, others)).(now := w.now + 1)
  {
    hide NeedsCheck, Admitted;
    var roles := w.staff[Target(w.txs[t])].roles;
    var others := OtherSuperAdmins(w.staff, Target(w.txs[t]));
    var w3 := Next(w2, Count(t));
    PhaseTwice(w, t, Holding(roles), Counting(roles, w.now, others), w.staff);
    assert StillActive(w.staff, others) == others;
    PhaseTwice(w, t, Counting(roles, w.now, others),
               if others == {} then Over else Keeping(roles, w.now, others, others), w.staff);
    RunOne(w3, Keep(t), []);
    RunOne(w2, Count(t), [Keep(t)]);
  }

  /** A transaction that meets no other does what the change does in one step. */
  lemma AloneIsApply(w: World, t: nat) returns (steps: seq<Step>)
    requires Alone(w, t)
    ensures RunFrom(w, steps)
    ensures Finished(w, t, if Outcome(w, t).Done? then Outcome(w, t).staff else w.staff, End(w, steps))
  {
    var tx := w.txs[t];
    if tx.change.Create? {
      steps := [if Admitted(tx, {}) then Commit(t) else Undo(t)];
      RunOne(w, steps[0], []);
    } else if !Known(w, t) {
      NotAdmittedIsRefused(w, t);
      steps := [Read(t)];
      RunOne(w, Read(t), []);
    } else {
      steps := AloneChange(w, t);
    }
  }

  lemma AloneChange(w: World, t: nat) returns (steps: seq<Step>)
    requires Alone(w, t) && Known(w, t) && !w.txs[t].change.Create?
    ensures RunFrom(w, steps)
    ensures Finished(w, t, if Outcome(w, t).Done? then Outcome(w, t).staff else w.staff, End(w, steps))
  {
    var tx, account := w.txs[t], w.staff[Target(w.txs[t])];
    var staff := w.staff[Target(tx) := Written(account, tx.change, account.roles)];
    var others := OtherSuperAdmins(w.staff, Target(tx));
    hide Outcome, Admitted, NeedsCheck, OtherSuperAdmins, Written;
    AloneToLock(w, t);
    steps := [Read(t), Lock(t)];
    var w2 := WithPhase(w, t, Holding(account.roles));
    if !Admitted(tx, account.roles) {
      NotAdmittedIsRefused(w, t);
    } else {
      WrittenIsChanged(w, t);
      if !Checked(w2, t) {
        PhaseTwice(w, t, Holding(account.roles), Over, staff);
        RunOne(w2, Commit(t), []);
        RunTwice(w, steps, [Commit(t)]);
        steps := steps + [Commit(t)];
      } else {
        AloneToKeep(w, t, w2);
        RunTwice(w, steps, [Count(t), Keep(t)]);
        steps := steps + [Count(t), Keep(t)];
        if others != {} {
          var w4 := End(w, steps);
          PhaseTwice(w, t, Keeping(account.roles, w.now, others, others), Over, staff);
          RunOne(w4, Commit(t), []);
          RunTwice(w, steps, [Commit(t)]);
          steps := steps + [Commit(t)];
        }
      }
    }
  }

  // ── Runs that leave none ──────────────────────────────────────────────────

  const FIRST: Assignment := Assignment(1, SuperAdmin)
  const SECOND: Assignment := Assignment(2, SuperAdmin)
  const SALES: Assignment := Assignment(1, Sales)

  function Colleague(roles: set<Assignment>): Account {
    Account(roles, false, true)
  }

  /** A Super_Admin may make any of these changes to anybody else. */
  lemma SuperAdminIsAdmitted(t: Tx, roles: set<Assignment>)
    requires t.actor.roles == {SuperAdmin} && t.actor.staff != Target(t) && (t.change.SetRoles? || t.change.Deactivate?)
    ensures Admitted(t, roles)
  {
    assert SuperAdmin in t.actor.roles * Required(t.change);
    assert RankOf(t.actor.roles) == TOP && RankOf(Held(roles)) <= TOP;
    assert ReachOf(t.actor, t.own) == Everywhere;
    forall r: Role
      ensures r in Grantable(t.actor.roles)
    {
      assert r.SuperAdmin? || r.Admin? || r.Manager? || r.FinanceOfficer? || r.StockClerk? || r.Sales? || r.Purchasor?;
    }
  }

  lemma AuthenticatesAs(staff: Staff, id: nat)
    requires id in staff && staff[id].active && FIRST in staff[id].roles
    requires forall a :: a in staff[id].roles && a.branch == 1 ==> a == FIRST
    ensures Authenticated(staff, id, 1) == [Actor(id, {SuperAdmin}, 1, staff[id].allBranches)]
  {
    var roles := staff[id].roles;
    var held := set a | a in roles && a.branch == 1 :: a.role;
    assert FIRST in roles && FIRST.branch == 1 && FIRST.role == SuperAdmin;
    assert held == {SuperAdmin};
    assert EffectiveRoles(roles, 1, staff[id].allBranches) == held;
  }

  /** A wait that ends: the change is made, worked out from what was read before. */
  lemma LateLock(w: World, t: nat)
    requires t < |w.txs| && w.txs[t].phase.Reading? && Known(w, t) && Free(w, t, {Target(w.txs[t])})
    requires Admitted(w.txs[t], w.txs[t].phase.roles) && !Checked(w, t)
    ensures RunFrom(w, [Lock(t), Commit(t)])
    ensures var target := Target(w.txs[t]);
            End(w, [Lock(t), Commit(t)]).staff ==
            w.staff[target := Written(w.staff[target], w.txs[t].change, w.txs[t].phase.roles)]
  {
    hide Admitted, NeedsCheck, Written;
    var w1 := Next(w, Lock(t));
    RunOne(w1, Commit(t), []);
    RunOne(w, Lock(t), [Commit(t)]);
  }

  /** A Super_Admin's change of roles that meets no other, and is not of the last one. */
  lemma AloneSetsRoles(w: World, t: nat) returns (steps: seq<Step>)
    requires Alone(w, t) && Known(w, t) && w.txs[t].change.SetRoles?
    requires w.txs[t].actor.roles == {SuperAdmin} && w.txs[t].actor.staff != Target(w.txs[t])
    requires !NeedsCheck(w.staff[Target(w.txs[t])], w.txs[t].change, w.staff[Target(w.txs[t])].roles)
             || OtherSuperAdmins(w.staff, Target(w.txs[t])) != {}
    ensures RunFrom(w, steps)
    ensures var target := Target(w.txs[t]);
            Finished(w, t, w.staff[target := w.staff[target].(roles := w.txs[t].change.roles)], End(w, steps))
  {
    var tx, account := w.txs[t], w.staff[Target(w.txs[t])];
    SuperAdminIsAdmitted(tx, account.roles);
    WrittenIsChanged(w, t);
    steps := AloneIsApply(w, t);
    assert account.roles - (account.roles - tx.change.roles) + (tx.change.roles - account.roles) == tx.change.roles;
  }

  lemma NoSuperAdminsLeft(staff: Staff)
    requires staff.Keys == {1, 2}
    requires !ActiveSuperAdmin(staff[1]) && !ActiveSuperAdmin(staff[2])
    ensures !HasActiveSuperAdmin(staff)
  {
  }

  /** Two Super_Admins to be, the first of them one already; nothing has been asked. */
  ghost predicate Start(w: World) {
    && w.txs == [] && w.actors == []
    && w.staff.Keys == {1, 2} && w.staff[1] == Colleague({FIRST}) && !w.staff[2].allBranches && w.staff[2].active
  }

  lemma StartIsValid(w: World)
    requires Start(w)
    ensures Valid(w) && HasActiveSuperAdmin(w.staff)
  {
    assert FIRST in w.staff[1].roles && FIRST.role == SuperAdmin;
  }

  const ONE: Actor := Actor(1, {SuperAdmin}, 1, false)
  const TWO: Actor := Actor(2, {SuperAdmin}, 1, false)

  /** The first signs in and asks for two changes of the second. */
  lemma AskedTwice(w: World, c: Change, d: Change) returns (w': World, steps: seq<Step>)
    requires Start(w)
    ensures RunFrom(w, steps) && End(w, steps) == w'
    ensures w' == World(w.staff, [ONE], [Tx(ONE, {FIRST}, c, Asked), Tx(ONE, {FIRST}, d, Asked)], w.now)
  {
    hide Authenticated;
    AuthenticatesAs(w.staff, 1);
    var w1 := w.(actors := [ONE]);
    var w2 := w1.(txs := [Tx(ONE, {FIRST}, c, Asked)]);
    w' := w2.(txs := [Tx(ONE, {FIRST}, c, Asked), Tx(ONE, {FIRST}, d, Asked)]);
    assert Next(w, Identify(1, 1)) == w1 && Next(w1, Ask(0, c)) == w2 && Next(w2, Ask(0, d)) == w';
    RunOne(w2, Ask(0, d), []);
    RunOne(w1, Ask(0, c), [Ask(0, d)]);
    RunOne(w, Identify(1, 1), [Ask(0, c)] + [Ask(0, d)]);
    steps := [Identify(1, 1)] + ([Ask(0, c)] + [Ask(0, d)]);
  }

  /** The second, a Super_Admin by now, signs in and takes the role of the first. */
  lemma Demoted(w: World) returns (w': World, steps: seq<Step>)
    requires w.actors == [ONE] && |w.txs| == 2 && Locked(w.txs[0]) == Locked(w.txs[1]) == {}
    requires w.staff.Keys == {1, 2} && w.staff[1] == Colleague({FIRST})
    requires FIRST in w.staff[2].roles && w.staff[2].active && !w.staff[2].allBranches
    requires forall a :: a in w.staff[2].roles && a.branch == 1 ==> a == FIRST
    ensures RunFrom(w, steps) && End(w, steps) == w'
    ensures w'.staff == w.staff[1 := Colleague({})]
    ensures |w'.txs| == 3 && w'.txs[..2] == w.txs && w'.txs[2].phase == Over
  {
    hide Authenticated, NeedsCheck;
    AuthenticatesAs(w.staff, 2);
    var w1 := w.(actors := [ONE, TWO]);
    var w2 := w1.(txs := w.txs + [Tx(TWO, w.staff[2].roles, SetRoles(1, {}), Asked)]);
    assert Next(w, Identify(2, 1)) == w1 && Next(w1, Ask(1, SetRoles(1, {}))) == w2;
    assert FIRST.role == SuperAdmin;
    assert 2 in OtherSuperAdmins(w2.staff, 1);
    var alone := AloneSetsRoles(w2, 2);
    w' := End(w2, alone);
    RunOne(w1, Ask(1, SetRoles(1, {})), alone);
    RunOne(w, Identify(2, 1), [Ask(1, SetRoles(1, {}))] + alone);
    steps := [Identify(2, 1)] + ([Ask(1, SetRoles(1, {}))] + alone);
  }

  /**
   * A deactivation that read the roles before its account became a Super_Admin
   * and gets the row when it is the last one: nobody checks.
   */
  lemma ADeactivationOverlooks() returns (w: World, steps: seq<Step>)
    ensures w.txs == [] && w.actors == [] && Valid(w) && HasActiveSuperAdmin(w.staff)
    ensures RunFrom(w, steps) && !HasActiveSuperAdmin(End(w, steps).staff)
  {
    hide Valid, HasActiveSuperAdmin, Admitted, OtherSuperAdmins, NeedsCheck;
    w := World(map[1 := Colleague({FIRST}), 2 := Colleague({SALES})], [], [], 0);
    StartIsValid(w);
    var w1, a := AskedTwice(w, SetRoles(2, {FIRST}), Deactivate(2));
    var w2, b := Granted(w1);
    RunTwice(w, a, b);
    var w3, c := Demoted(w2);
    RunTwice(w, a + b, c);
    LateDeactivation(w3);
    RunTwice(w, a + b + c, [Lock(1), Commit(1)]);
    steps := a + b + c + [Lock(1), Commit(1)];
  }

  /** The deactivation reads the roles, and then the second becomes a Super_Admin. */
  lemma Granted(w: World) returns (w': World, steps: seq<Step>)
    requires w.staff == map[1 := Colleague({FIRST}), 2 := Colleague({SALES})] && w.actors == [ONE]
    requires w.txs == [Tx(ONE, {FIRST}, SetRoles(2, {FIRST}), Asked), Tx(ONE, {FIRST}, Deactivate(2), Asked)]
    ensures RunFrom(w, steps) && End(w, steps) == w'
    ensures w'.staff == w.staff[2 := Colleague({FIRST})] && w'.actors == [ONE]
    ensures |w'.txs| == 2 && w'.txs[0].phase == Over && w'.txs[1] == Tx(ONE, {FIRST}, Deactivate(2), Reading({SALES}))
  {
    hide OtherSuperAdmins;
    var w1 := Next(w, Read(1));
    assert SALES !in {SALES} - {FIRST} || SALES.role != SuperAdmin;
    var alone := AloneSetsRoles(w1, 0);
    RunOne(w, Read(1), alone);
    steps := [Read(1)] + alone;
    w' := End(w, steps);
  }

  lemma LateDeactivation(w: World)
    requires |w.txs| == 3 && w.txs[0].phase == w.txs[2].phase == Over
    requires w.txs[1] == Tx(ONE, {FIRST}, Deactivate(2), Reading({SALES}))
    requires w.staff == map[1 := Colleague({}), 2 := Colleague({FIRST})]
    ensures RunFrom(w, [Lock(1), Commit(1)]) && !HasActiveSuperAdmin(End(w, [Lock(1), Commit(1)]).staff)
  {
    SuperAdminIsAdmitted(w.txs[1], {SALES});
    LateLock(w, 1);
    NoSuperAdminsLeft(End(w, [Lock(1), Commit(1)]).staff);
  }

  /**
   * Two changes of roles, each of which leaves another Super_Admin assignment
   * than it takes: the second, which waited, counts on the one that is gone.
   */
  lemma ARoleChangeOverlooks() returns (w: World, steps: seq<Step>)
    ensures w.txs == [] && w.actors == [] && Valid(w) && HasActiveSuperAdmin(w.staff)
    ensures RunFrom(w, steps) && !HasActiveSuperAdmin(End(w, steps).staff)
  {
    hide Valid, HasActiveSuperAdmin, Admitted, OtherSuperAdmins, NeedsCheck;
    w := World(map[1 := Colleague({FIRST}), 2 := Colleague({FIRST, SECOND})], [], [], 0);
    StartIsValid(w);
    var w1, a := AskedTwice(w, SetRoles(2, {FIRST}), SetRoles(2, {SECOND}));
    var w2, b := Demoted(w1);
    RunTwice(w, a, b);
    var w3, c := ReadWhileLocked(w2);
    RunTwice(w, a + b, c);
    LateRoleChange(w3);
    RunTwice(w, a + b + c, [Lock(1), Commit(1)]);
    steps := a + b + c + [Lock(1), Commit(1)];
  }

  /** The second change reads the roles while the first holds the row and before it commits. */
  lemma ReadWhileLocked(w: World) returns (w': World, steps: seq<Step>)
    requires w.staff == map[1 := Colleague({}), 2 := Colleague({FIRST, SECOND})]
    requires |w.txs| == 3 && w.txs[2].phase == Over
    requires w.txs[..2] == [Tx(ONE, {FIRST}, SetRoles(2, {FIRST}), Asked), Tx(ONE, {FIRST}, SetRoles(2, {SECOND}), Asked)]
    ensures RunFrom(w, steps) && End(w, steps) == w'
    ensures w'.staff == map[1 := Colleague({}), 2 := Colleague({FIRST})]
    ensures |w'.txs| == 3 && w'.txs[0].phase == w'.txs[2].phase == Over
    ensures w'.txs[1] == Tx(ONE, {FIRST}, SetRoles(2, {SECOND}), Reading({FIRST, SECOND}))
  {
    hide Admitted;
    var both := {FIRST, SECOND};
    var first, second := w.txs[..2][0], w.txs[..2][1];
    assert w.txs[0] == first && w.txs[1] == second;
    SuperAdminIsAdmitted(first.(phase := Reading(both)), both);
    var w1 := Next(w, Read(0));
    var w2 := Next(w1, Lock(0));
    var w3 := Next(w2, Read(1));
    assert both - {FIRST} == {SECOND} && FIRST.role == SuperAdmin;
    assert SuperAdmin in Held({FIRST});
    assert !NeedsCheck(w3.staff[2], first.change, both);
    w' := Next(w3, Commit(0));
    assert both - {SECOND} + ({FIRST} - both) == {FIRST};
    RunOne(w3, Commit(0), []);
    RunOne(w2, Read(1), [Commit(0)]);
    RunOne(w1, Lock(0), [Read(1)] + [Commit(0)]);
    RunOne(w, Read(0), [Lock(0)] + ([Read(1)] + [Commit(0)]));
    steps := [Read(0)] + ([Lock(0)] + ([Read(1)] + [Commit(0)]));
  }

  lemma LateRoleChange(w: World)
    requires |w.txs| == 3 && w.txs[0].phase == w.txs[2].phase == Over
    requires w.txs[1] == Tx(ONE, {FIRST}, SetRoles(2, {SECOND}), Reading({FIRST, SECOND}))
    requires w.staff == map[1 := Colleague({}), 2 := Colleague({FIRST})]
    ensures RunFrom(w, [Lock(1), Commit(1)]) && !HasActiveSuperAdmin(End(w, [Lock(1), Commit(1)]).staff)
  {
    var both := {FIRST, SECOND};
    SuperAdminIsAdmitted(w.txs[1], both);
    assert both - {SECOND} == {FIRST} && {SECOND} - both == {} && SECOND.role == SuperAdmin;
    assert SuperAdmin in Held({SECOND});
    LateLock(w, 1);
    assert {FIRST} - {FIRST} + {} == {};
    NoSuperAdminsLeft(End(w, [Lock(1), Commit(1)]).staff);
  }

  // ── Ranks ─────────────────────────────────────────────────────────────────

  /** Whoever holds a row was allowed to change it as it was read. */
  ghost predicate Allowed(t: Tx) {
    && (t.phase.Holding? || Counted(t) ==> Admitted(t, t.phase.roles))
    && (t.change.Create? ==> t.phase.Asked? || t.phase.Over?)
  }

  /** No account and no request has a role of a rank above `top`. */
  ghost predicate AtMost(w: World, top: int) {
    && (forall id, a :: id in w.staff && a in w.staff[id].roles ==> Rank(a.role) <= top)
    && (forall i, r :: 0 <= i < |w.actors| && r in w.actors[i].roles ==> Rank(r) <= top)
    && (forall t :: 0 <= t < |w.txs| ==> Allowed(w.txs[t]) && forall r :: r in w.txs[t].actor.roles ==> Rank(r) <= top)
  }

  /** A role an account did not have is one the actor may grant. */
  lemma CommittedIsGranted(w: World, t: nat, a: Assignment)
    requires Enabled(w, Commit(t)) && Allowed(w.txs[t])
    requires a in NewAccount(w, t).roles && a !in RolesIn(w.staff, Target(w.txs[t]))
    ensures a.role in Grantable(w.txs[t].actor.roles)
  {
  }

  /** Only a Super_Admin changes all-branch access. */
  lemma CommittedAccess(w: World, t: nat)
    requires Enabled(w, Commit(t)) && Allowed(w.txs[t]) && SuperAdmin !in w.txs[t].actor.roles
    ensures var id := Target(w.txs[t]);
            NewAccount(w, t).allBranches == (id in w.staff && w.staff[id].allBranches)
  {
  }

  lemma StepStaysAtMost(w: World, step: Step, top: int)
    requires AtMost(w, top) && Enabled(w, step)
    ensures AtMost(Next(w, step), top)
  {
    hide Admitted, NeedsCheck, Grantable;
    match step
    case Commit(t) =>
      hide Written, NewAccount;
      forall a | a in NewAccount(w, t).roles
        ensures Rank(a.role) <= top
      {
        if a !in RolesIn(w.staff, Target(w.txs[t])) {
          CommittedIsGranted(w, t, a);
          GrantedIsNotAbove(w.txs[t].actor.roles, a.role, top);
        }
      }
    case Lock(t) => AdmittedInAnyPhase(w.txs[t], Holding(w.txs[t].phase.roles), w.txs[t].phase.roles);
    case Count(t) => AdmittedInAnyPhase(w.txs[t], Next(w, step).txs[t].phase, w.txs[t].phase.roles);
    case Keep(t) => AdmittedInAnyPhase(w.txs[t], Next(w, step).txs[t].phase, w.txs[t].phase.roles);
    case _ =>
  }

  lemma StepMakesNoAdmins(w: World, step: Step, start: Staff)
    requires AtMost(w, ADMIN_RANK) && NoNewAdmins(start, w.staff) && Enabled(w, step)
    ensures NoNewAdmins(start, Next(w, step).staff)
  {
    hide Admitted, NeedsCheck, Grantable, Written, NewAccount;
    if step.Commit? {
      var t := step.tx;
      assert Rank(SuperAdmin) > ADMIN_RANK;
      CommittedAccess(w, t);
      forall a | a in NewAccount(w, t).roles && a !in RolesIn(w.staff, Target(w.txs[t]))
        ensures a.role != Admin
      {
        CommittedIsGranted(w, t, a);
        GrantedIsNotAbove(w.txs[t].actor.roles, a.role, TOP);
      }
    }
  }

  /** However transactions overlap, no rank above the highest at the start ever appears. */
  lemma {:induction false} RanksNeverRise(w: World, steps: seq<Step>, top: int)
    requires AtMost(w, top) && RunFrom(w, steps)
    ensures AtMost(End(w, steps), top)
    decreases |steps|
  {
    hide AtMost, Enabled, Next;
    if steps != [] {
      StepStaysAtMost(w, steps[0], top);
      RanksNeverRise(Next(w, steps[0]), steps[1..], top);
    }
  }

  /** And without a Super_Admin at the start nobody newly becomes Admin, and all-branch access stays as it was. */
  lemma {:induction false} WithoutSuperAdmin(w: World, steps: seq<Step>, start: Staff)
    requires AtMost(w, ADMIN_RANK) && NoNewAdmins(start, w.staff) && RunFrom(w, steps)
    ensures AtMost(End(w, steps), ADMIN_RANK) && NoNewAdmins(start, End(w, steps).staff)
    decreases |steps|
  {
    hide AtMost, NoNewAdmins, Enabled, Next;
    if steps != [] {
      StepStaysAtMost(w, steps[0], ADMIN_RANK);
      StepMakesNoAdmins(w, steps[0], start);
      WithoutSuperAdmin(Next(w, steps[0]), steps[1..], start);
    }
  }
}
