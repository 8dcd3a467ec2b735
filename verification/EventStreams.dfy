/** Open event streams and who hears what (apps/api/src/lib/sseManager.ts). */
module EventStreams {
  import opened Options

  datatype Event = Event(name: string, data: string)

  /** The answer that stays open; writing to one that is closed throws. */
  class Response {
    var sent: seq<Event>
    var closed: bool

    constructor ()
      ensures sent == [] && !closed
    {
      sent, closed := [], false;
    }

    method Write(event: Event) returns (thrown: bool)
      modifies this
      ensures thrown == closed == old(closed)
      ensures sent == old(sent) + if closed then [] else [event]
    {
      thrown := closed;
      if !closed {
        sent := sent + [event];
      }
    }
  }

  /** Who a stream belongs to. */
  datatype Listener = Listener(tenantId: int, branchId: int, roles: seq<string>, allBranches: bool)

  class Connection {
    const listener: Listener
    const res: Response

    constructor (listener: Listener, res: Response)
      ensures this.listener == listener && this.res == res
    {
      this.listener, this.res := listener, res;
    }
  }

  /** A notification: its tenant, its branch or none for all of them, the roles it is for. */
  datatype Audience = Audience(tenantId: int, branchId: Option<int>, targetRoles: seq<string>)

  predicate Hears(l: Listener, a: Audience) {
    && l.tenantId == a.tenantId
    && (exists r :: r in l.roles && r in a.targetRoles)
    && (a.branchId.None? || l.allBranches || l.branchId == a.branchId.value)
  }

  /**
   * What the notification list shows a staff member: what is addressed to them,
   * and what is for one of their roles, in their branch, in none, or in any if
   * they have access to all.
   */
  predicate Listed(staffId: nat, l: Listener, a: Audience, targetStaffId: Option<nat>) {
    && a.tenantId == l.tenantId
    && (|| targetStaffId == Some(staffId)
        || (&& (set r | r in a.targetRoles) * (set r | r in l.roles) != {}
            && (a.branchId == None || a.branchId == Some(l.branchId) || l.allBranches)))
  }

  /**
   * What the stream brings is on the list, and the list holds nothing more of
   * the tenant than what is addressed to the staff member alone.
   */
  lemma HeardIsListed(staffId: nat, l: Listener, a: Audience, targetStaffId: Option<nat>)
    ensures Listed(staffId, l, a, targetStaffId) <==>
              Hears(l, a) || (l.tenantId == a.tenantId && targetStaffId == Some(staffId))
  {
    var both := (set r | r in a.targetRoles) * (set r | r in l.roles);
    if r :| r in l.roles && r in a.targetRoles {
      assert r in both;
    }
    if both != {} {
      var r :| r in both;
    }
  }

  /** A response got one more event, if it was still open. */
  twostate predicate Got(res: Response, event: Event)
    reads res
  {
    && res.closed == old(res.closed)
    && res.sent == old(res.sent) + if old(res.closed) then [] else [event]
  }

  class SSEManager {
    var connections: map<nat, set<Connection>>
    /** Every open connection and the staff member it was registered for. */
    ghost var open: map<Connection, nat>

    /** The map holds exactly the open connections, each once, with a response of its own, and no empty sets. */
    ghost predicate Valid()
      reads this
    {
      && (forall s :: s in connections ==> connections[s] != {})
      && (forall s, c :: s in connections && c in connections[s] ==> c in open && open[c] == s)
      && (forall c :: c in open ==> open[c] in connections && c in connections[open[c]])
      && (forall c, d :: c in open && d in open && c.res == d.res ==> c == d)
    }

    ghost function Responses(): set<Response>
      reads this
    {
      set c | c in open :: c.res
    }

    constructor ()
      ensures Valid() && open == map[]
    {
      connections, open := map[], map[];
    }

    /** Opens a connection; what it returns is what its close handler is given. */
    method Register(staffId: nat, listener: Listener, res: Response) returns (meta: Connection)
      requires Valid() && res !in Responses()
      modifies this
      ensures Valid() && fresh(meta) && meta.listener == listener && meta.res == res
      ensures open == old(open)[meta := staffId]
    {
      meta := new Connection(listener, res);
      if staffId !in connections {
        connections := connections[staffId := {}];
      }
      connections := connections[staffId := connections[staffId] + {meta}];
      open := open[meta := staffId];
    }

    /** The client went away. */
    method Closed(staffId: nat, meta: Connection)
      requires Valid() && (meta in open ==> open[meta] == staffId)
      modifies this
      ensures Valid() && open == old(open) - {meta}
    {
      if staffId in connections {
        var rest := connections[staffId] - {meta};
        connections := if rest == {} then connections - {staffId} else connections[staffId := rest];
      }
      open := open - {meta};
    }

    /** The event to those of a staff member's connections that hear it. */
    method WriteTo(ghost staffId: nat, conns: set<Connection>, audience: Audience, event: Event)
      requires Valid() && staffId in connections && conns == connections[staffId]
      modifies Responses()
      ensures forall c :: c in open ==>
                if open[c] == staffId && Hears(c.listener, audience) then Got(c.res, event) else unchanged(c.res)
    {
      var metas := conns;
      while metas != {}
        invariant metas <= conns
        invariant forall c :: c in open ==>
                    if open[c] == staffId && c !in metas && Hears(c.listener, audience)
                    then Got(c.res, event) else unchanged(c.res)
        decreases metas
      {
        var meta :| meta in metas;
        metas := metas - {meta};
        assert meta.res in Responses();
        if Hears(meta.listener, audience) {
          var _ := meta.res.Write(event);
        }
      }
    }

    /** One event, once, to every open connection that hears it, and to no other. */
    method Broadcast(audience: Audience, data: string)
      requires Valid()
      modifies Responses()
      ensures forall c :: c in open ==>
                if Hears(c.listener, audience) then Got(c.res, Event("notification", data)) else unchanged(c.res)
    {
      var event := Event("notification", data);
      var staff := connections.Keys;
      while staff != {}
        invariant staff <= connections.Keys
        invariant forall c :: c in open ==>
                    if open[c] !in staff && Hears(c.listener, audience) then Got(c.res, event) else unchanged(c.res)
        decreases staff
      {
        var s :| s in staff;
        WriteTo(s, connections[s], audience, event);
        staff := staff - {s};
      }
    }

    /** One event to every open connection of a staff member. */
    method PushToStaff(staffId: nat, data: string)
      requires Valid()
      modifies Responses()
      ensures forall c :: c in open ==>
                if open[c] == staffId then Got(c.res, Event("notification", data)) else unchanged(c.res)
    {
      if staffId !in connections {
        return;
      }
      var event := Event("notification", data);
      var metas := connections[staffId];
      while metas != {}
        invariant metas <= connections[staffId]
        invariant forall c :: c in open ==>
                    if open[c] == staffId && c !in metas then Got(c.res, event) else unchanged(c.res)
        decreases metas
      {
        var meta :| meta in metas;
        metas := metas - {meta};
        assert meta.res in Responses();
        var _ := meta.res.Write(event);
      }
    }

    /** How many connections are open. */
    method GetConnectionCount() returns (count: nat)
      requires Valid()
      ensures count == |open|
    {
      count := 0;
      var staff := connections.Keys;
      ghost var seen: set<Connection> := {};
      while staff != {}
        invariant staff <= connections.Keys
        invariant seen == set c | c in open && open[c] !in staff
        invariant count == |seen|
        decreases staff
      {
        var s :| s in staff;
        staff := staff - {s};
        assert forall c :: c in connections[s] ==> open[c] == s;
        assert forall c :: c in open && open[c] == s ==> c in connections[s];
        assert seen !! connections[s];
        seen := seen + connections[s];
        count := count + |connections[s]|;
      }
      assert seen == open.Keys;
    }
  }
}
