/**
  The dynamic pool: a fixed set of physical radios lent to logical vehicles
  through a first-in-first-out free list.
 */
module Pool {
  import opened Prelude
  import opened Mobility
  import opened CamApp

  /** Physical radios. */
  datatype Node = Node(id: nat)

  type Tracks = map<Vehicle, seq<Row>>

  datatype Carrier = Carrier(vehicle: Option<Vehicle>, rows: Option<seq<Row>>)

  datatype PoolView = PoolView(
    vehicleToNode: map<Vehicle, Node>,
    nodeToVehicle: map<Node, Vehicle>,
    free: seq<Node>,
    active: set<Vehicle>,
    mobility: map<Node, Carrier>,
    apps: map<Node, App>)

  /** The reasons for which the simulator stops inside an assignment. */
  datatype Abort = AlreadyAssigned | PoolExhausted | MissingTrack | MissingMobility

  function Lookup<K, X>(m: map<K, X>, k: K): Option<X> {
    if k in m then Some(m[k]) else None
  }

  // ----- Steps on values -----

  function Assign(tracks: Tracks, p: PoolView, v: Vehicle): Result<PoolView, Abort> {
    if v in p.vehicleToNode then Err(AlreadyAssigned)
    else if p.free == [] then Err(PoolExhausted)
    else if v !in tracks || tracks[v] == [] then Err(MissingTrack)
    else if p.free[0] !in p.mobility then Err(MissingMobility)
    else Ok(Lend(p, v, tracks[v]))
  }

  function Lend(p: PoolView, v: Vehicle, rows: seq<Row>): PoolView
    requires p.free != []
  {
    var n := p.free[0];
    PoolView(
      p.vehicleToNode[v := n],
      p.nodeToVehicle[n := v],
      p.free[1..],
      p.active + {v},
      p.mobility[n := Carrier(Some(v), Some(rows))],
      if n in p.apps then p.apps[n := p.apps[n].Assigned(v)] else p.apps)
  }

  function Release(p: PoolView, v: Vehicle): PoolView {
    if v !in p.vehicleToNode then p
    else
      var n := p.vehicleToNode[v];
      PoolView(
        p.vehicleToNode - {v},
        p.nodeToVehicle - {n},
        p.free + [n],
        p.active - {v},
        if n in p.mobility then p.mobility[n := Carrier(None, None)] else p.mobility,
        if n in p.apps then p.apps[n := p.apps[n].Released()] else p.apps)
  }

  function InstallApp(p: PoolView, n: Node): PoolView {
    var app := App(false, false, None, 0);
    p.(apps := p.apps[n := match Lookup(p.nodeToVehicle, n) case None => app case Some(v) => app.Assigned(v)])
  }

  // ----- The invariant -----

  predicate Maps<K, X(==)>(m: map<K, X>, k: K, x: X) {
    k in m && m[k] == x
  }

  ghost predicate Inverse(vehicleToNode: map<Vehicle, Node>, nodeToVehicle: map<Node, Vehicle>) {
    forall v, n :: Maps(vehicleToNode, v, n) <==> Maps(nodeToVehicle, n, v)
  }

  ghost predicate Partition(nodes: set<Node>, lent: set<Node>, free: seq<Node>) {
    && NoDup(free)
    && (forall n :: n in free ==> n !in lent)
    && (forall n :: n in nodes <==> n in free || n in lent)
  }

  ghost predicate CarriersFollow(tracks: Tracks, nodeToVehicle: map<Node, Vehicle>, mobility: map<Node, Carrier>) {
    forall n :: n in mobility ==> mobility[n] == CarrierOf(tracks, Lookup(nodeToVehicle, n))
  }

  ghost function CarrierOf(tracks: Tracks, v: Option<Vehicle>): Carrier {
    Carrier(v, if v.Some? && v.value in tracks then Some(tracks[v.value]) else None)
  }

  ghost predicate AppsFollow(nodeToVehicle: map<Node, Vehicle>, apps: map<Node, App>) {
    forall n :: n in apps ==> apps[n].vehicle == Lookup(nodeToVehicle, n) && apps[n].Ok()
  }

  /** The two id maps are mutual inverses; free and lent nodes partition the pool; mobility and applications follow the map. */
  ghost predicate PoolInv(tracks: Tracks, nodes: set<Node>, p: PoolView) {
    && Inverse(p.vehicleToNode, p.nodeToVehicle)
    && p.active == p.vehicleToNode.Keys
    && p.active <= tracks.Keys
    && Partition(nodes, p.nodeToVehicle.Keys, p.free)
    && p.mobility.Keys == nodes
    && CarriersFollow(tracks, p.nodeToVehicle, p.mobility)
    && p.apps.Keys <= nodes
    && AppsFollow(p.nodeToVehicle, p.apps)
  }

  function EmptyPool(nodes: seq<Node>): PoolView {
    PoolView(map[], map[], nodes, {}, map n | n in nodes :: Carrier(None, None), map[])
  }

  function AddedNode(p: PoolView, n: Node): PoolView {
    p.(free := p.free + [n], mobility := p.mobility[n := Carrier(None, None)])
  }

  lemma AddedNodeExtends(nodes: seq<Node>, n: Node)
    ensures AddedNode(EmptyPool(nodes), n) == EmptyPool(nodes + [n])
  {
  }

  lemma EmptyPoolInv(tracks: Tracks, nodes: seq<Node>)
    requires NoDup(nodes)
    ensures PoolInv(tracks, ToSet(nodes), EmptyPool(nodes))
  {
  }

  lemma PartitionTake(nodes: set<Node>, lent: set<Node>, free: seq<Node>)
    requires Partition(nodes, lent, free) && free != []
    ensures free[0] in nodes && free[0] !in lent
    ensures Partition(nodes, lent + {free[0]}, free[1..])
  {
    assert free == [free[0]] + free[1..];
  }

  lemma PartitionReturn(nodes: set<Node>, lent: set<Node>, free: seq<Node>, n: Node)
    requires Partition(nodes, lent, free) && n in lent
    ensures Partition(nodes, lent - {n}, free + [n])
  {
  }

  lemma InverseAdd(vn: map<Vehicle, Node>, nv: map<Node, Vehicle>, v: Vehicle, n: Node)
    requires Inverse(vn, nv) && v !in vn && n !in nv
    ensures Inverse(vn[v := n], nv[n := v])
  {
    var vn', nv' := vn[v := n], nv[n := v];
    forall u, m ensures Maps(vn', u, m) <==> Maps(nv', m, u) {
      assert Maps(vn, u, m) <==> Maps(nv, m, u);
    }
  }

  lemma InverseRemove(vn: map<Vehicle, Node>, nv: map<Node, Vehicle>, v: Vehicle)
    requires Inverse(vn, nv) && v in vn
    ensures Maps(nv, vn[v], v)
    ensures Inverse(vn - {v}, nv - {vn[v]})
  {
    var n := vn[v];
    assert Maps(vn, v, n);
    var vn', nv' := vn - {v}, nv - {n};
    forall u, m ensures Maps(vn', u, m) <==> Maps(nv', m, u) {
      assert Maps(vn, u, m) <==> Maps(nv, m, u);
    }
  }

  lemma FollowAdd(tracks: Tracks, nv: map<Node, Vehicle>, mobility: map<Node, Carrier>, apps: map<Node, App>,
      n: Node, v: Vehicle)
    requires CarriersFollow(tracks, nv, mobility) && AppsFollow(nv, apps) && v in tracks
    ensures CarriersFollow(tracks, nv[n := v], mobility[n := Carrier(Some(v), Some(tracks[v]))])
    ensures AppsFollow(nv[n := v], if n in apps then apps[n := apps[n].Assigned(v)] else apps)
  {
  }

  lemma FollowRemove(tracks: Tracks, nv: map<Node, Vehicle>, mobility: map<Node, Carrier>, apps: map<Node, App>, n: Node)
    requires CarriersFollow(tracks, nv, mobility) && AppsFollow(nv, apps)
    ensures CarriersFollow(tracks, nv - {n}, mobility[n := Carrier(None, None)])
    ensures AppsFollow(nv - {n}, if n in apps then apps[n := apps[n].Released()] else apps)
  {
  }

  /** Under the invariant an assignment never finds a radio without a mobility model. */
  lemma MobilityIsNeverMissing(tracks: Tracks, nodes: set<Node>, p: PoolView, v: Vehicle)
    requires PoolInv(tracks, nodes, p)
    ensures Assign(tracks, p, v) != Err(MissingMobility)
  {
    if p.free != [] {
      PartitionTake(nodes, p.nodeToVehicle.Keys, p.free);
    }
  }

  lemma AssignKeepsInv(tracks: Tracks, nodes: set<Node>, p: PoolView, v: Vehicle)
    requires PoolInv(tracks, nodes, p) && Assign(tracks, p, v).Ok?
    ensures PoolInv(tracks, nodes, Assign(tracks, p, v).value)
  {
    var n, q := p.free[0], Assign(tracks, p, v).value;
    PartitionTake(nodes, p.nodeToVehicle.Keys, p.free);
    assert q.nodeToVehicle.Keys == p.nodeToVehicle.Keys + {n};
    assert q.active == q.vehicleToNode.Keys;
    InverseAdd(p.vehicleToNode, p.nodeToVehicle, v, n);
    FollowAdd(tracks, p.nodeToVehicle, p.mobility, p.apps, n, v);
  }

  lemma ReleaseKeepsInv(tracks: Tracks, nodes: set<Node>, p: PoolView, v: Vehicle)
    requires PoolInv(tracks, nodes, p)
    ensures PoolInv(tracks, nodes, Release(p, v))
  {
    if v in p.vehicleToNode {
      var n, q := p.vehicleToNode[v], Release(p, v);
      InverseRemove(p.vehicleToNode, p.nodeToVehicle, v);
      PartitionReturn(nodes, p.nodeToVehicle.Keys, p.free, n);
      assert q.nodeToVehicle.Keys == p.nodeToVehicle.Keys - {n};
      FollowRemove(tracks, p.nodeToVehicle, p.mobility, p.apps, n);
    }
  }

  /** The application lifecycle steps of a node. */
  datatype AppStep = Start | Stop | Tag {
    function Apply(a: App): App {
      match this
      case Start => a.Started()
      case Stop => a.Stopped()
      case Tag => a.Tagged()
    }
  }

  function StepApp(p: PoolView, n: Node, step: AppStep): PoolView {
    if n in p.apps then p.(apps := p.apps[n := step.Apply(p.apps[n])]) else p
  }

  lemma AppStepKeepsInv(tracks: Tracks, nodes: set<Node>, p: PoolView, n: Node, step: AppStep)
    requires PoolInv(tracks, nodes, p)
    ensures PoolInv(tracks, nodes, StepApp(p, n, step))
  {
    assert AppsFollow(p.nodeToVehicle, StepApp(p, n, step).apps);
  }

  lemma InstallAppKeepsInv(tracks: Tracks, nodes: set<Node>, p: PoolView, n: Node)
    requires PoolInv(tracks, nodes, p) && n in nodes
    ensures PoolInv(tracks, nodes, InstallApp(p, n))
  {
    assert AppsFollow(p.nodeToVehicle, InstallApp(p, n).apps);
  }

  /** Nodes are neither lost nor duplicated: lent plus free nodes always number the whole pool. */
  lemma PoolConservation(tracks: Tracks, nodes: set<Node>, p: PoolView)
    requires PoolInv(tracks, nodes, p)
    ensures |p.active| + |p.free| == |nodes|
  {
    PartitionCardinality(nodes, p.nodeToVehicle.Keys, p.free);
    InverseCardinality(p.vehicleToNode, p.nodeToVehicle);
  }

  lemma PartitionCardinality(nodes: set<Node>, lent: set<Node>, free: seq<Node>)
    requires Partition(nodes, lent, free)
    ensures |lent| + |free| == |nodes|
  {
    NoDupCardinality(free);
    assert ToSet(free) + lent == nodes && ToSet(free) !! lent;
  }

  lemma {:induction false} InverseCardinality(m: map<Vehicle, Node>, inverse: map<Node, Vehicle>)
    requires Inverse(m, inverse)
    ensures |m.Keys| == |inverse.Keys|
  {
    if m.Keys != {} {
      var k :| k in m;
      InverseRemove(m, inverse, k);
      var m', inverse' := m - {k}, inverse - {m[k]};
      assert m'.Keys == m.Keys - {k} && inverse'.Keys == inverse.Keys - {m[k]};
      InverseCardinality(m', inverse');
    } else if inverse.Keys != {} {
      var n :| n in inverse;
      assert Maps(inverse, n, inverse[n]);
    }
  }

  /** Releasing a vehicle right after assigning it restores everything except the free list, which has rotated by one. */
  lemma ReleaseUndoesAssign(tracks: Tracks, nodes: set<Node>, p: PoolView, v: Vehicle)
    requires PoolInv(tracks, nodes, p) && Assign(tracks, p, v).Ok?
    ensures Release(Assign(tracks, p, v).value, v) == p.(free := p.free[1..] + [p.free[0]])
  {
    var n, q := p.free[0], Assign(tracks, p, v).value;
    PartitionTake(nodes, p.nodeToVehicle.Keys, p.free);
    AddThenRemove(p.vehicleToNode, v, n);
    AddThenRemove(p.nodeToVehicle, n, v);
    SetThenReset(p.mobility, n, q.mobility[n]);
    if n in p.apps {
      SetThenReset(p.apps, n, q.apps[n]);
    }
  }

  lemma AddThenRemove<K, X>(m: map<K, X>, k: K, x: X)
    requires k !in m
    ensures m[k := x] - {k} == m
  {
  }

  lemma SetThenReset<K, X>(m: map<K, X>, k: K, x: X)
    requires k in m
    ensures m[k := x][k := m[k]] == m
  {
  }
}
