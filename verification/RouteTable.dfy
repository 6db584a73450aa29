/**
 The mesh route table: per-owner subscription slots, an open-addressing hash
 table with tombstones for exact filters, and a linear table for wildcard ones.

 Every method is proved to do to the arrays what RouteModel does to the values
 they stand for, so everything proved of RouteModel runs holds of the arrays.
 The hash function is a parameter.
 */
module RouteTable {
  import opened Common
  import opened TopicFilter
  import opened RouteModel
  import opened RouteMeaning
  import opened Probing

  datatype SlotState = Empty | Used | Deleted
  datatype Route = Route(owner: NodeId, nextHop: NodeId, filter: string, state: SlotState)

  const CLEARED := Route(NO_ID, NO_ID, "", Empty)

  type Hash = string -> nat

  // ---------- slots and probing ----------

  function Home(hash: Hash, filter: string, size: nat): (r: nat)
    requires size > 0
    ensures r < size
  {
    hash(filter) % size
  }

  predicate IsKey(r: Route, owner: NodeId, filter: string) {
    r.state == Used && r.owner == owner && r.filter == filter
  }

  ghost predicate UniqueKeys(s: seq<Route>) {
    forall i, j :: 0 <= i < j < |s| && s[i].state == Used ==> !IsKey(s[j], s[i].owner, s[i].filter)
  }

  function MarkOf(r: Route, hash: Hash, size: nat): Mark
    requires size > 0
  {
    match r.state
    case Empty => Untouched
    case Used => Taken(Home(hash, r.filter, size))
    case Deleted => Left
  }

  function Marks(s: seq<Route>, hash: Hash): (m: seq<Mark>)
    requires |s| > 0
    ensures |m| == |s| && forall i :: 0 <= i < |s| ==> m[i] == MarkOf(s[i], hash, |s|)
  {
    seq(|s|, i requires 0 <= i < |s| => MarkOf(s[i], hash, |s|))
  }

  /** Each live route is reached from its home before any empty slot. */
  ghost predicate Reachable(s: seq<Route>, hash: Hash)
    requires |s| > 0
  {
    AllReached(Marks(s, hash))
  }

  ghost predicate OnlyExact(s: seq<Route>) {
    forall i :: 0 <= i < |s| && s[i].state == Used ==> IsExact(s[i].filter)
  }

  ghost predicate OnlyWildcards(s: seq<Route>) {
    forall i :: 0 <= i < |s| && s[i].state == Used ==> !IsExact(s[i].filter)
  }

  /** Stopping at the first empty slot misses nothing. */
  lemma EmptyEndsProbe(s: seq<Route>, hash: Hash, filter: string, step: nat, j: nat)
    requires |s| > 0 && Reachable(s, hash) && step < |s|
    requires s[Probe(Home(hash, filter, |s|), step, |s|)].state == Empty
    requires j < |s| && s[j].state == Used && s[j].filter == filter
    ensures Scanned(Home(hash, filter, |s|), step, |s|, j)
  {
    StopMissesNothing(Marks(s, hash), Home(hash, filter, |s|), step, j);
  }

  /** Filling a slot that is reached before any empty one keeps every live route
      reachable. */
  lemma FillKeepsReachable(s: seq<Route>, hash: Hash, i: nat, route: Route)
    requires |s| > 0 && Reachable(s, hash) && i < |s| && route.state == Used
    requires forall k :: 0 <= k < |s| && Before(Home(hash, route.filter, |s|), k, i) ==> s[k].state != Empty
    ensures Reachable(s[i := route], hash)
  {
    TakingKeepsReached(Marks(s, hash), i, Home(hash, route.filter, |s|));
    assert Marks(s[i := route], hash) == Marks(s, hash)[i := Taken(Home(hash, route.filter, |s|))];
  }

  // ---------- the routes a table stands for ----------

  function EntryOf(r: Route): Entry {
    Entry(r.owner, r.filter, r.nextHop)
  }

  ghost function Live(s: seq<Route>): set<Entry> {
    set i | 0 <= i < |s| && s[i].state == Used :: EntryOf(s[i])
  }

  ghost predicate HasRoom(s: seq<Route>, owner: NodeId, filter: string) {
    exists i :: 0 <= i < |s| && (s[i].state != Used || IsKey(s[i], owner, filter))
  }

  lemma LiveHas(s: seq<Route>, i: nat)
    requires i < |s| && s[i].state == Used
    ensures EntryOf(s[i]) in Live(s)
  {}

  lemma LiveKeysUnique(s: seq<Route>)
    requires UniqueKeys(s)
    ensures KeysUnique(Live(s))
  {
    forall a, b | a in Live(s) && b in Live(s) && a.owner == b.owner && a.filter == b.filter ensures a == b {
      var i :| 0 <= i < |s| && s[i].state == Used && EntryOf(s[i]) == a;
      var j :| 0 <= j < |s| && s[j].state == Used && EntryOf(s[j]) == b;
      assert IsKey(s[j], s[i].owner, s[i].filter) && IsKey(s[i], s[j].owner, s[j].filter);
    }
  }

  /** Writing (owner, filter, hop) at the slot of that key, or at a slot not in
      use when the key is absent, is Put. */
  lemma WriteIsPut(s: seq<Route>, i: nat, owner: NodeId, filter: string, hop: NodeId)
    requires i < |s| && UniqueKeys(s)
    requires IsKey(s[i], owner, filter)
             || (s[i].state != Used && forall j :: 0 <= j < |s| ==> !IsKey(s[j], owner, filter))
    ensures var s' := s[i := Route(owner, hop, filter, Used)];
            UniqueKeys(s') && Live(s') == Put(Live(s), owner, filter, hop)
  {
    var s' := s[i := Route(owner, hop, filter, Used)];
    forall e ensures e in Live(s') <==> e in Put(Live(s), owner, filter, hop) {
      if e in Live(s') {
        var j :| 0 <= j < |s'| && s'[j].state == Used && EntryOf(s'[j]) == e;
        if j != i { LiveHas(s, j); }
      }
      if e in Put(Live(s), owner, filter, hop) {
        if e == Entry(owner, filter, hop) {
          LiveHas(s', i);
        } else {
          var j :| 0 <= j < |s| && s[j].state == Used && EntryOf(s[j]) == e;
          LiveHas(s', j);
        }
      }
    }
  }

  /** Marking the slot of a key as not in use is Drop. */
  lemma EraseIsDrop(s: seq<Route>, s': seq<Route>, gone: Entry -> bool)
    requires |s'| == |s| && UniqueKeys(s)
    requires forall i :: 0 <= i < |s| ==>
               if s[i].state == Used && gone(EntryOf(s[i])) then s'[i].state != Used else s'[i] == s[i]
    ensures UniqueKeys(s') && Live(s') == set e | e in Live(s) && !gone(e)
  {
    forall e ensures e in Live(s') <==> e in Live(s) && !gone(e) {
      if e in Live(s') {
        var j :| 0 <= j < |s'| && s'[j].state == Used && EntryOf(s'[j]) == e;
        LiveHas(s, j);
      }
      if e in Live(s) && !gone(e) {
        var j :| 0 <= j < |s| && s[j].state == Used && EntryOf(s[j]) == e;
        LiveHas(s', j);
      }
    }
  }

  lemma LivePush(s: seq<Route>, r: Route)
    requires r.state == Used
    ensures Live(s + [r]) == Live(s) + {EntryOf(r)}
  {
    var s' := s + [r];
    LiveHas(s', |s|);
    forall e | e in Live(s) ensures e in Live(s') {
      var i :| 0 <= i < |s| && s[i].state == Used && EntryOf(s[i]) == e;
      LiveHas(s', i);
    }
    forall e | e in Live(s') && e != EntryOf(r) ensures e in Live(s) {
      var i :| 0 <= i < |s'| && s'[i].state == Used && EntryOf(s'[i]) == e;
      LiveHas(s, i);
    }
  }

  lemma {:induction false} FullSize(s: seq<Route>)
    requires UniqueKeys(s) && forall i :: 0 <= i < |s| ==> s[i].state == Used
    ensures |Live(s)| == |s|
  {
    if s == [] {
      assert Live(s) == {};
    } else {
      var last := |s| - 1;
      var front, r := s[..last], s[last];
      FullSize(front);
      LivePush(front, r);
      assert front + [r] == s;
      forall e | e in Live(front) ensures e != EntryOf(r) {
        var i :| 0 <= i < last && front[i].state == Used && EntryOf(front[i]) == e;
        assert !IsKey(s[last], s[i].owner, s[i].filter);
      }
    }
  }

  /** Insertion never fails: the table has as many slots as there are
      subscription slots, so the routes of other live subscriptions cannot fill it. */
  lemma AlwaysRoom(nodes: seq<RemoteNode>, perNode: nat, s: seq<Route>, owner: NodeId, filter: string)
    requires NodesOk(nodes, perNode) && |s| == |nodes| * perNode
    requires UniqueKeys(s) && HaveSubs(nodes, Live(s))
    requires Subscribed(nodes, owner, filter)
    ensures HasRoom(s, owner, filter)
  {
    if !HasRoom(s, owner, filter) {
      var extra := Entry(owner, filter, NO_ID);
      assert forall i :: 0 <= i < |s| ==> s[i].state == Used && !IsKey(s[i], owner, filter);
      FullSize(s);
      LiveKeysUnique(s);
      RoutesFit(nodes, Live(s) + {extra}, perNode);
    }
  }

  // ---------- the probe of an upsert ----------

  /** `step` slots from `start` on hold neither the key nor an end; the first
      tombstone among them is `freeSlot`, |s| for none. */
  ghost predicate Passed(s: seq<Route>, start: nat, step: nat, owner: NodeId, filter: string, freeSlot: nat)
    requires start < |s|
  {
    && freeSlot <= |s|
    && (forall k :: 0 <= k < |s| && Scanned(start, step, |s|, k) ==> s[k].state != Empty && !IsKey(s[k], owner, filter))
    && if freeSlot < |s| then s[freeSlot].state == Deleted && Scanned(start, step, |s|, freeSlot)
       else forall k :: 0 <= k < |s| && Scanned(start, step, |s|, k) ==> s[k].state == Used
  }

  lemma PassOne(s: seq<Route>, start: nat, step: nat, owner: NodeId, filter: string, freeSlot: nat)
    requires start < |s| && step < |s| && Passed(s, start, step, owner, filter, freeSlot)
    requires var i := Probe(start, step, |s|); s[i].state != Empty && !IsKey(s[i], owner, filter)
    ensures var i := Probe(start, step, |s|);
            Passed(s, start, step + 1, owner, filter, if s[i].state == Deleted && freeSlot == |s| then i else freeSlot)
  {}

  lemma PassedAll(s: seq<Route>, start: nat, owner: NodeId, filter: string, freeSlot: nat)
    requires start < |s| && Passed(s, start, |s|, owner, filter, freeSlot) && HasRoom(s, owner, filter)
    ensures freeSlot < |s| && s[freeSlot].state == Deleted
    ensures forall k :: 0 <= k < |s| ==> s[k].state != Empty && !IsKey(s[k], owner, filter)
  {
    var i :| 0 <= i < |s| && (s[i].state != Used || IsKey(s[i], owner, filter));
    forall k | 0 <= k < |s| ensures Scanned(start, |s|, |s|, k) {}
  }

  /** At an empty slot the key is known to be absent, and so is any empty slot before
      the one taken. */
  lemma AbsentAtEmpty(s: seq<Route>, hash: Hash, step: nat, owner: NodeId, filter: string, freeSlot: nat)
    requires |s| > 0 && step < |s| && Reachable(s, hash)
    requires Passed(s, Home(hash, filter, |s|), step, owner, filter, freeSlot)
    requires s[Probe(Home(hash, filter, |s|), step, |s|)].state == Empty
    ensures forall j :: 0 <= j < |s| ==> !IsKey(s[j], owner, filter)
    ensures var i := if freeSlot < |s| then freeSlot else Probe(Home(hash, filter, |s|), step, |s|);
            forall k :: 0 <= k < |s| && Before(Home(hash, filter, |s|), k, i) ==> s[k].state != Empty
  {
    forall j | 0 <= j < |s| ensures !IsKey(s[j], owner, filter) {
      if IsKey(s[j], owner, filter) { EmptyEndsProbe(s, hash, filter, step, j); }
    }
  }

  // ---------- the table ----------

  class Router {
    const nodes: array<RemoteNode>
    const exact: array<Route>
    const wild: array<Route>
    const perNode: nat
    const hash: Hash

    ghost predicate Shape() {
      && nodes.Length > 0 && perNode > 0
      && exact.Length == nodes.Length * perNode && wild.Length == exact.Length
      && exact.Length > 0 && exact != wild
    }

    /** The routes are well stored, whatever the nodes are. */
    ghost predicate Stored()
      reads this, nodes, exact, wild
    {
      && Shape()
      && UniqueKeys(exact[..]) && OnlyExact(exact[..]) && Reachable(exact[..], hash)
      && UniqueKeys(wild[..]) && OnlyWildcards(wild[..])
    }

    ghost function Routes(): set<Entry>
      reads this, exact, wild
    {
      Live(exact[..]) + Live(wild[..])
    }

    ghost function View(): Tables
      reads this, nodes, exact, wild
    {
      Tables(nodes[..], Routes())
    }

    ghost predicate Valid()
      reads this, nodes, exact, wild
    {
      Stored() && Housed(View(), perNode)
    }

    constructor (nodeMax: nat, perNode: nat, hash: Hash)
      requires nodeMax > 0 && perNode > 0
      ensures Valid() && View() == Start(nodeMax, perNode)
      ensures this.perNode == perNode && this.hash == hash
      ensures fresh(nodes) && fresh(exact) && fresh(wild)
    {
      this.perNode := perNode;
      this.hash := hash;
      nodes := new RemoteNode[nodeMax](_ => ClearedNode(perNode));
      exact := new Route[nodeMax * perNode](_ => CLEARED);
      wild := new Route[nodeMax * perNode](_ => CLEARED);
      new;
      Positive(nodeMax, perNode);
      assert nodes[..] == EmptyNodes(nodeMax, perNode);
    }

    // ---------- storing one route ----------

    /** exact_route_upsert_locked: probe from the filter's home, re-point the key
        when met, else take the first tombstone or the empty slot reached. */
    method ExactUpsert(owner: NodeId, nextHop: NodeId, filter: string)
      requires Stored() && HasRoom(exact[..], owner, filter)
      modifies exact
      ensures Stored()
      ensures Live(exact[..]) ==
                if IsExact(filter) then Put(old(Live(exact[..])), owner, filter, nextHop) else old(Live(exact[..]))
    {
      if !IsExact(filter) {
        return;
      }
      var i := UpsertSlot(owner, filter);
      StoreRoute(i, Route(owner, nextHop, filter, Used));
    }

    /** Its loop: the slot of the key, or the one to take for it. */
    method UpsertSlot(owner: NodeId, filter: string) returns (i: nat)
      requires Stored() && HasRoom(exact[..], owner, filter)
      ensures i < exact.Length
      ensures IsKey(exact[i], owner, filter)
              || (exact[i].state != Used && forall j :: 0 <= j < exact.Length ==> !IsKey(exact[j], owner, filter))
      ensures forall k :: 0 <= k < exact.Length && Before(Home(hash, filter, exact.Length), k, i) ==> exact[k].state != Empty
    {
      var size := exact.Length;
      var start := Home(hash, filter, size);
      var freeSlot: nat := size;
      ghost var s := exact[..];
      var step: nat := 0;
      while step < size
        invariant step <= size
        invariant Passed(s, start, step, owner, filter, freeSlot)
      {
        i := Probe(start, step, size);
        var route := exact[i];
        if route.state == Used && route.owner == owner && route.filter == filter {
          return;
        }
        if route.state == Empty {
          AbsentAtEmpty(s, hash, step, owner, filter, freeSlot);
          return if freeSlot < size then freeSlot else i;
        }
        PassOne(s, start, step, owner, filter, freeSlot);
        if route.state == Deleted && freeSlot == size {
          freeSlot := i;
        }
        step := step + 1;
      }
      PassedAll(s, start, owner, filter, freeSlot);
      i := freeSlot;
    }

    /** The write that ends an upsert, at the key's slot or at one not in use. */
    method StoreRoute(i: nat, route: Route)
      requires Stored() && i < exact.Length && route.state == Used && IsExact(route.filter)
      requires IsKey(exact[i], route.owner, route.filter)
               || (exact[i].state != Used && forall j :: 0 <= j < exact.Length ==> !IsKey(exact[j], route.owner, route.filter))
      requires forall k :: 0 <= k < exact.Length && Before(Home(hash, route.filter, exact.Length), k, i) ==> exact[k].state != Empty
      modifies exact
      ensures Stored() && Live(exact[..]) == Put(old(Live(exact[..])), route.owner, route.filter, route.nextHop)
    {
      WriteIsPut(exact[..], i, route.owner, route.filter, route.nextHop);
      FillKeepsReachable(exact[..], hash, i, route);
      exact[i] := route;
      assert exact[..] == old(exact[..])[i := route];
    }

    /** wildcard_route_upsert_locked: re-point the key, else the first free slot. */
    method WildcardUpsert(owner: NodeId, nextHop: NodeId, filter: string)
      requires Stored() && HasRoom(wild[..], owner, filter)
      modifies wild
      ensures Stored()
      ensures Live(wild[..]) ==
                if IsExact(filter) then old(Live(wild[..])) else Put(old(Live(wild[..])), owner, filter, nextHop)
    {
      if IsExact(filter) {
        return;
      }
      var freeSlot := wild.Length;
      for i := 0 to wild.Length
        invariant wild[..] == old(wild[..])
        invariant forall k :: 0 <= k < i ==> !IsKey(wild[k], owner, filter)
        invariant freeSlot == wild.Length ==> forall k :: 0 <= k < i ==> wild[k].state == Used
        invariant 0 <= freeSlot <= wild.Length
        invariant freeSlot < wild.Length ==> wild[freeSlot].state != Used
      {
        var route := wild[i];
        if route.state == Used && route.owner == owner && route.filter == filter {
          WriteIsPut(wild[..], i, owner, filter, nextHop);
          wild[i] := route.(nextHop := nextHop);
          assert wild[..] == old(wild[..])[i := Route(owner, nextHop, filter, Used)];
          return;
        }
        if route.state != Used && freeSlot == wild.Length {
          freeSlot := i;
        }
      }
      assert forall j :: 0 <= j < wild.Length ==> !IsKey(wild[..][j], owner, filter);
      assert freeSlot < wild.Length by {
        var i :| 0 <= i < wild.Length && (wild[..][i].state != Used || IsKey(wild[..][i], owner, filter));
        assert wild[i].state != Used;
      }
      WriteIsPut(wild[..], freeSlot, owner, filter, nextHop);
      wild[freeSlot] := Route(owner, nextHop, filter, Used);
      assert wild[..] == old(wild[..])[freeSlot := Route(owner, nextHop, filter, Used)];
    }

    method RouteUpsert(owner: NodeId, nextHop: NodeId, filter: string)
      requires Stored() && HasRoom(exact[..], owner, filter) && HasRoom(wild[..], owner, filter)
      modifies exact, wild
      ensures Stored() && Routes() == Put(old(Routes()), owner, filter, nextHop)
    {
      KeptApart(exact[..], wild[..], owner, filter, nextHop);
      ExactUpsert(owner, nextHop, filter);
      WildcardUpsert(owner, nextHop, filter);
    }

    /** node_routes_refresh_locked: every live subscription of a node put again. */
    method NodeRoutesRefresh(at: nat)
      requires at < nodes.Length && nodes[at].inUse
      requires Stored() && NodesOk(nodes[..], perNode) && HaveSubs(nodes[..], Routes())
      modifies exact, wild
      ensures Stored() && Routes() == Refresh(old(Routes()), nodes[at], |nodes[at].subs|)
      ensures HaveSubs(nodes[..], Routes())
    {
      var node := nodes[at];
      for i := 0 to perNode
        invariant Stored() && HaveSubs(nodes[..], Routes())
        invariant Routes() == Refresh(old(Routes()), node, i)
      {
        if node.subs[i].inUse {
          RoomForSub(at, i);
          RouteUpsert(node.owner, node.nextHop, node.subs[i].filter);
        }
      }
    }

    /** The room each upsert needs, for a live subscription of the nodes. */
    lemma RoomForSub(at: nat, i: nat)
      requires Stored() && NodesOk(nodes[..], perNode) && HaveSubs(nodes[..], Routes())
      requires at < nodes.Length && nodes[at].inUse && i < perNode && nodes[at].subs[i].inUse
      ensures HasRoom(exact[..], nodes[at].owner, nodes[at].subs[i].filter)
      ensures HasRoom(wild[..], nodes[at].owner, nodes[at].subs[i].filter)
      ensures Subscribed(nodes[..], nodes[at].owner, nodes[at].subs[i].filter)
    {
      var owner, filter := nodes[at].owner, nodes[at].subs[i].filter;
      assert IsSub(nodes[at].subs[i], filter);
      assert Holds(nodes[..], at, owner, filter);
      AlwaysRoom(nodes[..], perNode, exact[..], owner, filter);
      AlwaysRoom(nodes[..], perNode, wild[..], owner, filter);
    }

    // ---------- removing routes ----------

    method ExactRemove(owner: NodeId, filter: string)
      requires Stored()
      modifies exact
      ensures Stored() && Live(exact[..]) == Drop(old(Live(exact[..])), owner, filter)
    {
      for i := 0 to exact.Length
        invariant forall k :: i <= k < exact.Length ==> exact[k] == old(exact[k])
        invariant forall k :: 0 <= k < i ==>
                    exact[k] == if IsKey(old(exact[k]), owner, filter) then old(exact[k]).(state := Deleted) else old(exact[k])
      {
        if exact[i].state == Used && exact[i].owner == owner && exact[i].filter == filter {
          exact[i] := exact[i].(state := Deleted);
        }
      }
      var gone := (e: Entry) => e.owner == owner && e.filter == filter;
      EraseIsDrop(old(exact[..]), exact[..], gone);
    }

    method WildcardRemove(owner: NodeId, filter: string)
      requires Stored()
      modifies wild
      ensures Stored() && Live(wild[..]) == Drop(old(Live(wild[..])), owner, filter)
    {
      for i := 0 to wild.Length
        invariant forall k :: i <= k < wild.Length ==> wild[k] == old(wild[k])
        invariant forall k :: 0 <= k < i ==>
                    wild[k] == if IsKey(old(wild[k]), owner, filter) then old(wild[k]).(state := Empty) else old(wild[k])
      {
        if wild[i].state == Used && wild[i].owner == owner && wild[i].filter == filter {
          wild[i] := wild[i].(state := Empty);
        }
      }
      var gone := (e: Entry) => e.owner == owner && e.filter == filter;
      EraseIsDrop(old(wild[..]), wild[..], gone);
    }

    method ExactRemoveNode(id: NodeId)
      requires Stored()
      modifies exact
      ensures Stored() && Live(exact[..]) == DropNode(old(Live(exact[..])), id)
    {
      for i := 0 to exact.Length
        invariant forall k :: i <= k < exact.Length ==> exact[k] == old(exact[k])
        invariant forall k :: 0 <= k < i ==>
                    exact[k] == if GoesTo(old(exact[k]), id) then old(exact[k]).(state := Deleted) else old(exact[k])
      {
        if exact[i].state == Used && (exact[i].owner == id || exact[i].nextHop == id) {
          exact[i] := exact[i].(state := Deleted);
        }
      }
      var gone := (e: Entry) => e.owner == id || e.hop == id;
      EraseIsDrop(old(exact[..]), exact[..], gone);
    }

    method WildcardRemoveNode(id: NodeId)
      requires Stored()
      modifies wild
      ensures Stored() && Live(wild[..]) == DropNode(old(Live(wild[..])), id)
    {
      for i := 0 to wild.Length
        invariant forall k :: i <= k < wild.Length ==> wild[k] == old(wild[k])
        invariant forall k :: 0 <= k < i ==>
                    wild[k] == if GoesTo(old(wild[k]), id) then old(wild[k]).(state := Empty) else old(wild[k])
      {
        if wild[i].state == Used && (wild[i].owner == id || wild[i].nextHop == id) {
          wild[i] := wild[i].(state := Empty);
        }
      }
      var gone := (e: Entry) => e.owner == id || e.hop == id;
      EraseIsDrop(old(wild[..]), wild[..], gone);
    }

    // ---------- the public operations ----------

    /** find_node_locked: the owner's slot, or with `create` a fresh one. */
    method FindNode(owner: NodeId, create: bool) returns (at: Option<nat>)
      requires forall i :: 0 <= i < nodes.Length ==> |nodes[i].subs| == perNode
      modifies nodes
      ensures var found := FindOwner(old(nodes[..]), owner, 0);
              if found < nodes.Length then at == Some(found) && nodes[..] == old(nodes[..])
              else if !create then at == None && nodes[..] == old(nodes[..])
              else match NodeFor(old(nodes[..]), owner, perNode)
                   case None => at == None && nodes[..] == old(nodes[..])
                   case Some((i, n)) => at == Some(i) && nodes[..] == old(nodes[..])[i := n]
    {
      var freeNode := nodes.Length;
      for i := 0 to nodes.Length
        invariant nodes[..] == old(nodes[..])
        invariant FindOwner(nodes[..], owner, 0) == FindOwner(nodes[..], owner, i)
        invariant 0 <= freeNode <= nodes.Length
        invariant freeNode == nodes.Length ==> FirstWhere(nodes[..], FreeNode, 0) == FirstWhere(nodes[..], FreeNode, i)
        invariant freeNode < nodes.Length ==> FirstWhere(nodes[..], FreeNode, 0) == freeNode
      {
        if nodes[i].inUse && nodes[i].owner == owner {
          return Some(i);
        }
        if !nodes[i].inUse && freeNode == nodes.Length {
          freeNode := i;
        }
      }
      if create && freeNode < nodes.Length {
        nodes[freeNode] := RemoteNode(owner, NO_ID, true, ClearedSubs(perNode));
        return Some(freeNode);
      }
      return None;
    }

    /** The scan for the filter's slot, else the first free one. */
    method FindSubSlot(subs: seq<RemoteSub>, filter: string) returns (slot: nat, found: bool)
      ensures slot == SubSlot(subs, filter) && (found <==> slot < |subs| && subs[slot].inUse)
    {
      slot := |subs|;
      found := false;
      for i := 0 to |subs|
        invariant !found && slot <= |subs|
        invariant FindSub(subs, filter, 0) == FindSub(subs, filter, i)
        invariant slot == |subs| ==> FirstWhere(subs, FreeSub, 0) == FirstWhere(subs, FreeSub, i)
        invariant slot < |subs| ==> FirstWhere(subs, FreeSub, 0) == slot
      {
        if subs[i].inUse && subs[i].filter == filter {
          return i, true;
        }
        if !subs[i].inUse && slot == |subs| {
          slot := i;
        }
      }
    }

    /** What the recorded subscription means for the routes kept so far. */
    lemma Recorded(before: Tables, owner: NodeId, filter: string, qos: nat, hop: NodeId, i: nat)
      requires Housed(before, perNode) && NodeFor(before.nodes, owner, perNode).Some?
      requires i == NodeFor(before.nodes, owner, perNode).value.0
      ensures var t' := Subscribe(before, owner, filter, qos, hop, perNode).0;
              NodesOk(t'.nodes, perNode) && HaveSubs(t'.nodes, before.routes) && IsOwner(t'.nodes[i], owner)
    {
      SubscribeShape(before, owner, filter, qos, hop, perNode);
      var t' := Subscribe(before, owner, filter, qos, hop, perNode).0;
      forall e | e in before.routes ensures Subscribed(t'.nodes, e.owner, e.filter) {
        SubscribedGrows(before.nodes, i, t'.nodes[i], e.owner, e.filter);
      }
    }

    /** The node's part of a subscribe: its next hop, then a slot for the filter. */
    method RecordSub(i: nat, filter: string, qos: nat, nextHop: NodeId) returns (slot: nat, routeChanged: bool, changed: bool)
      requires i < nodes.Length
      modifies nodes
      ensures var n := old(nodes[i]);
              var moved := if routeChanged then n.(nextHop := nextHop) else n;
              && routeChanged == MovesHop(n, nextHop) && slot == SubSlot(n.subs, filter)
              && changed == (slot < |n.subs| && (routeChanged || !n.subs[slot].inUse || n.subs[slot].qos != qos))
              && nodes[..] == old(nodes[..])[i := if slot == |n.subs| then moved
                                                  else moved.(subs := n.subs[slot := RemoteSub(filter, qos, true)])]
    {
      var node := nodes[i];
      var direct := nextHop == node.owner;
      routeChanged := false;
      if node.nextHop == NO_ID || (direct && node.nextHop != node.owner) {
        node := node.(nextHop := nextHop);
        routeChanged := true;
      }
      var found;
      slot, found := FindSubSlot(node.subs, filter);
      changed := false;
      if slot == |node.subs| {
        nodes[i] := node;
        return;
      }
      changed := routeChanged || !found || node.subs[slot].qos != qos;
      nodes[i] := node.(subs := node.subs[slot := RemoteSub(filter, qos, true)]);
    }

    /** p2p_router_remote_subscribe. */
    method RemoteSubscribe(owner: NodeId, filter: string, qos: nat, nextHop: NodeId) returns (changed: bool)
      requires Valid()
      modifies nodes, exact, wild
      ensures Valid()
      ensures (View(), changed) == Subscribe(old(View()), owner, filter, qos, nextHop, perNode)
    {
      ghost var before := View();
      ghost var after := Subscribe(before, owner, filter, qos, nextHop, perNode);
      SubscribeKeepsHoused(before, owner, filter, qos, nextHop, perNode);
      var at := FindNode(owner, true);
      assert exact[..] == old(exact[..]) && wild[..] == old(wild[..]);
      if at == None {
        return false;
      }
      var i := at.value;
      Recorded(before, owner, filter, qos, nextHop, i);
      var slot, routeChanged;
      slot, routeChanged, changed := RecordSub(i, filter, qos, nextHop);
      assert nodes[..] == after.0.nodes;
      if slot == perNode {
        return;
      }
      RouteRecorded(i, slot, routeChanged);
    }

    /** The routes' part: all of the node's after its hop has moved, else the one. */
    method RouteRecorded(i: nat, slot: nat, moved: bool)
      requires i < nodes.Length && nodes[i].inUse && slot < |nodes[i].subs| && nodes[i].subs[slot].inUse
      requires Stored() && NodesOk(nodes[..], perNode) && HaveSubs(nodes[..], Routes())
      modifies exact, wild
      ensures Stored()
      ensures Routes() == if moved then Refresh(old(Routes()), nodes[i], |nodes[i].subs|)
                          else Put(old(Routes()), nodes[i].owner, nodes[i].subs[slot].filter, nodes[i].nextHop)
    {
      if moved {
        NodeRoutesRefresh(i);
      } else {
        RoomForSub(i, slot);
        RouteUpsert(nodes[i].owner, nodes[i].nextHop, nodes[i].subs[slot].filter);
      }
    }

    /** Both removals, of which the filter's kind makes one empty. */
    method RemoveRoutes(owner: NodeId, filter: string)
      requires Stored()
      modifies exact, wild
      ensures Stored() && Routes() == Drop(old(Routes()), owner, filter)
    {
      ExactRemove(owner, filter);
      WildcardRemove(owner, filter);
    }

    /** p2p_router_remote_unsubscribe. */
    method RemoteUnsubscribe(owner: NodeId, filter: string) returns (changed: bool)
      requires Valid()
      modifies nodes, exact, wild
      ensures Valid()
      ensures (View(), changed) == Unsubscribe(old(View()), owner, filter)
      ensures changed <==> old(IsHeld(nodes[..], owner, filter))
      ensures forall o, f, q :: HeldAt(nodes[..], o, f, q) <==> old(HeldAt(nodes[..], o, f, q)) && !(o == owner && f == filter)
    {
      UnsubscribeMeaning(View(), owner, filter, perNode);
      UnsubscribeKeepsHoused(View(), owner, filter, perNode);
      changed := false;
      var at := FindNode(owner, false);
      if at == None {
        return;
      }
      var i := at.value;
      changed := DropFilter(i, owner, filter);
      ClearNodeIfEmpty(i);
      assert nodes[..] == Unsubscribe(old(View()), owner, filter).0.nodes;
      assert Routes() == Unsubscribe(old(View()), owner, filter).0.routes;
    }

    /** The loop over one node's subscription slots. */
    method DropFilter(i: nat, owner: NodeId, filter: string) returns (changed: bool)
      requires Stored() && i < nodes.Length && |nodes[i].subs| == perNode
      modifies nodes, exact, wild
      ensures Stored() && (changed <==> HasSub(old(nodes[i]), filter))
      ensures nodes[..] == old(nodes[..])[i := old(nodes[i]).(subs := DropSubs(old(nodes[i]).subs, filter))]
      ensures Routes() == if changed then Drop(old(Routes()), owner, filter) else old(Routes())
    {
      changed := false;
      ghost var subs0 := nodes[i].subs;
      for j := 0 to perNode
        invariant nodes[..] == old(nodes[..])[i := old(nodes[i]).(subs := nodes[i].subs)]
        invariant |nodes[i].subs| == perNode
        invariant forall k :: 0 <= k < j ==> nodes[i].subs[k] == DropSubs(subs0, filter)[k]
        invariant forall k :: j <= k < perNode ==> nodes[i].subs[k] == subs0[k]
        invariant changed <==> HasSubBelow(old(nodes[i]), filter, j)
        invariant Stored()
        invariant Routes() == if changed then Drop(old(Routes()), owner, filter) else old(Routes())
      {
        if nodes[i].subs[j].inUse && nodes[i].subs[j].filter == filter {
          assert IsSub(old(nodes[i]).subs[j], filter);
          nodes[i] := nodes[i].(subs := nodes[i].subs[j := nodes[i].subs[j].(inUse := false)]);
          RemoveRoutes(owner, filter);
          changed := true;
        }
      }
      assert nodes[i].subs == DropSubs(subs0, filter);
      assert HasSubBelow(old(nodes[i]), filter, perNode) <==> HasSub(old(nodes[i]), filter);
    }

    method ClearNodeIfEmpty(i: nat)
      requires i < nodes.Length
      modifies nodes
      ensures nodes[..] == old(nodes[..])[i := if NoLiveSubs(old(nodes[i])) then ClearedNode(|old(nodes[i]).subs|) else old(nodes[i])]
    {
      for j := 0 to |nodes[i].subs|
        invariant nodes[..] == old(nodes[..])
        invariant forall k :: 0 <= k < j ==> !nodes[i].subs[k].inUse
      {
        if nodes[i].subs[j].inUse {
          return;
        }
      }
      nodes[i] := ClearedNode(|nodes[i].subs|);
    }

    /** p2p_router_remove_node: the node and everything learned through it. */
    method RemoveNodeAndRoutes(id: NodeId)
      requires Stored()
      modifies nodes, exact, wild
      ensures Stored() && View() == RemoveNode(old(View()), id)
      ensures old(Sound(View(), perNode)) ==> Valid() && Sound(View(), perNode)
    {
      if Sound(View(), perNode) { RemoveKeepsSound(View(), id, perNode); }
      for i := 0 to nodes.Length
        invariant forall k :: i <= k < nodes.Length ==> nodes[k] == old(nodes[k])
        invariant forall k :: 0 <= k < i ==> nodes[k] == ClearNodes(old(nodes[..]), id)[k]
        invariant exact[..] == old(exact[..]) && wild[..] == old(wild[..])
      {
        if nodes[i].inUse && (nodes[i].owner == id || nodes[i].nextHop == id) {
          nodes[i] := ClearedNode(|nodes[i].subs|);
        }
      }
      assert nodes[..] == ClearNodes(old(nodes[..]), id);
      ExactRemoveNode(id);
      WildcardRemoveNode(id);
    }

    /** The probe for the topic's own filter. */
    method ExactHops(topic: string, exclude: Option<NodeId>, max: nat) returns (out: seq<NodeId>)
      requires Stored() && IsExact(topic)
      ensures NoDuplicates(out) && |out| <= max
      ensures forall h :: h in out ==> h in Hops(Routes(), topic, exclude)
      ensures |out| < max ==> Covers(exact[..], exact.Length, out, topic, exclude)
    {
      out := [];
      var size := exact.Length;
      var start := Home(hash, topic, size);
      var step := 0;
      while step < size && |out| < max
        invariant 0 <= step <= size && |out| <= max && NoDuplicates(out)
        invariant forall h :: h in out ==> h in Hops(Routes(), topic, exclude)
        invariant forall k :: 0 <= k < size && Scanned(start, step, size, k) && IsWanted(exact[k], topic, exclude) ==> exact[k].nextHop in out
      {
        var i := Probe(start, step, size);
        var route := exact[i];
        if route.state == Empty {
          forall k | 0 <= k < size && IsWanted(exact[k], topic, exclude) ensures Scanned(start, step, size, k) {
            ExactMatchesItself(exact[k].filter, topic, false);
            EmptyEndsProbe(exact[..], hash, topic, step, k);
          }
          return;
        }
        if route.state == Used { ExactMatchesItself(route.filter, topic, false); }
        if route.state == Used && route.filter == topic && exclude != Some(route.nextHop) && route.nextHop !in out {
          WantedIsHop(exact[..], i, topic, exclude);
          out := out + [route.nextHop];
        }
        step := step + 1;
      }
    }

    /** The scan of the wildcard table, adding to the hops found so far. */
    method WildcardHops(topic: string, exclude: Option<NodeId>, max: nat, found: seq<NodeId>) returns (out: seq<NodeId>)
      requires Stored() && NoDuplicates(found) && |found| <= max
      requires forall h :: h in found ==> h in Hops(Routes(), topic, exclude)
      ensures NoDuplicates(out) && |out| <= max && found <= out
      ensures forall h :: h in out ==> h in Hops(Routes(), topic, exclude)
      ensures |out| < max ==> Covers(wild[..], wild.Length, out, topic, exclude)
    {
      out := found;
      var i := 0;
      while i < wild.Length && |out| < max
        invariant 0 <= i <= wild.Length && |out| <= max && NoDuplicates(out) && found <= out
        invariant forall h :: h in out ==> h in Hops(Routes(), topic, exclude)
        invariant Covers(wild[..], i, out, topic, exclude)
      {
        var route := wild[i];
        if route.state == Used && exclude != Some(route.nextHop) && route.nextHop !in out {
          var matches := RouterMatchLoop(route.filter, topic);
          if matches {
            WantedIsHop(wild[..], i, topic, exclude);
            out := out + [route.nextHop];
          }
        }
        i := i + 1;
      }
    }

    /** p2p_router_find_next_hops: no repeats, only wanted hops, and all of them
        unless the caller's room runs out. */
    method FindNextHops(topic: string, exclude: Option<NodeId>, max: int) returns (out: seq<NodeId>)
      requires Valid()
      ensures NoDuplicates(out) && Elements(out) <= Hops(View().routes, topic, exclude)
      ensures |out| == if max <= 0 then 0 else Min(max, |Hops(View().routes, topic, exclude)|)
    {
      out := [];
      if max <= 0 {
        return;
      }
      if IsExact(topic) {
        out := ExactHops(topic, exclude, max);
      } else {
        forall k | 0 <= k < exact.Length && IsWanted(exact[..][k], topic, exclude) ensures false {
          ExactMatchesItself(exact[k].filter, topic, false);
        }
      }
      ghost var first := out;
      out := WildcardHops(topic, exclude, max, out);
      DistinctSize(out);
      SubsetSize(Elements(out), Hops(Routes(), topic, exclude));
      if |out| < max {
        assert forall h :: h in first ==> h in out;
        CoveredHops(exact[..], wild[..], out, topic, exclude);
      }
    }
  }

  /** The wanted hops among the first `count` slots have all been output. */
  ghost predicate Covers(s: seq<Route>, count: nat, out: seq<NodeId>, topic: string, exclude: Option<NodeId>)
    requires count <= |s|
  {
    forall k :: 0 <= k < count && IsWanted(s[k], topic, exclude) ==> s[k].nextHop in out
  }

  lemma CoveredHops(exact: seq<Route>, wild: seq<Route>, out: seq<NodeId>, topic: string, exclude: Option<NodeId>)
    requires Covers(exact, |exact|, out, topic, exclude) && Covers(wild, |wild|, out, topic, exclude)
    requires Elements(out) <= Hops(Live(exact) + Live(wild), topic, exclude)
    ensures Elements(out) == Hops(Live(exact) + Live(wild), topic, exclude)
  {
    forall h | h in Hops(Live(exact) + Live(wild), topic, exclude) ensures h in Elements(out) {
      var e :| e in Live(exact) + Live(wild) && RouterMatch(e.filter, topic) && exclude != Some(e.hop) && e.hop == h;
      var s := if e in Live(exact) then exact else wild;
      var k :| 0 <= k < |s| && s[k].state == Used && EntryOf(s[k]) == e;
      assert IsWanted(s[k], topic, exclude);
    }
  }

  predicate GoesTo(r: Route, id: NodeId) {
    r.state == Used && (r.owner == id || r.nextHop == id)
  }

  /** A stored route the topic is forwarded over. */
  predicate IsWanted(r: Route, topic: string, exclude: Option<NodeId>) {
    r.state == Used && RouterMatch(r.filter, topic) && exclude != Some(r.nextHop)
  }

  lemma WantedIsHop(s: seq<Route>, i: nat, topic: string, exclude: Option<NodeId>)
    requires i < |s| && IsWanted(s[i], topic, exclude)
    ensures forall more :: s[i].nextHop in Hops(Live(s) + more, topic, exclude) && s[i].nextHop in Hops(more + Live(s), topic, exclude)
  {
    LiveHas(s, i);
  }

  /** A key lives in one of the two tables only, by the kind of its filter. */
  lemma KeptApart(exact: seq<Route>, wild: seq<Route>, owner: NodeId, filter: string, hop: NodeId)
    requires OnlyExact(exact) && OnlyWildcards(wild)
    ensures IsExact(filter) ==>
              Put(Live(exact), owner, filter, hop) + Live(wild) == Put(Live(exact) + Live(wild), owner, filter, hop)
    ensures !IsExact(filter) ==>
              Live(exact) + Put(Live(wild), owner, filter, hop) == Put(Live(exact) + Live(wild), owner, filter, hop)
  {
    assert forall e :: e in Live(exact) ==> IsExact(e.filter);
    assert forall e :: e in Live(wild) ==> !IsExact(e.filter);
  }

  lemma Positive(a: nat, b: nat)
    requires a > 0 && b > 0
    ensures a * b > 0
  {}
}
