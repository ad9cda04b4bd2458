/** The global maps and free list of the pool, and the objects behind them, updated in place. */
module Radios {
  import opened Prelude
  import opened Mobility
  import opened CamApp
  import opened Pool

  class VehiclePool {
    const tracks: Tracks
    var vehicleToNode: map<Vehicle, Node>
    var nodeToVehicle: map<Node, Vehicle>
    var freeNodes: seq<Node>
    var activeVehicles: set<Vehicle>
    var mobility: map<Node, PoolMobility>
    var apps: map<Node, CamApplication>

    // What the objects of each node hold.
    ghost var carriers: map<Node, Carrier>
    ghost var applications: map<Node, App>

    /** Different nodes have different objects, and the ghost maps say what these hold. */
    ghost predicate Valid()
      reads `mobility, `apps, `carriers, `applications, mobility.Values, apps.Values
    {
      && carriers.Keys == mobility.Keys && applications.Keys == apps.Keys
      && (forall n :: n in mobility ==> carriers[n] == Carrier(mobility[n].vehicle, mobility[n].rows))
      && (forall n :: n in apps ==>
            applications[n] == App(apps[n].running, apps[n].disseminating, apps[n].vehicle, apps[n].nextSequence))
      && (forall n, m :: n in mobility && m in mobility && n != m ==> mobility[n] != mobility[m])
      && (forall n, m :: n in apps && m in apps && n != m ==> apps[n] != apps[m])
    }

    ghost function View(): PoolView
      reads this
    {
      PoolView(vehicleToNode, nodeToVehicle, freeNodes, activeVehicles, carriers, applications)
    }

    constructor (tracks: Tracks)
      ensures Valid() && this.tracks == tracks && View() == EmptyPool([])
      ensures mobility == map[] && apps == map[]
    {
      this.tracks := tracks;
      vehicleToNode, nodeToVehicle, freeNodes, activeVehicles := map[], map[], [], {};
      mobility, apps, carriers, applications := map[], map[], map[], map[];
    }

    /** Create one more radio, parked and free. */
    method AddNode(n: Node, parking: Vec)
      requires Valid()
      modifies `mobility, `carriers, `freeNodes
      ensures Valid() && View() == AddedNode(old(View()), n)
      ensures n in mobility && fresh(mobility[n]) && mobility == old(mobility)[n := mobility[n]]
      ensures mobility[n].Valid() && mobility[n].parking == parking
    {
      var mob := new PoolMobility(parking);
      mobility := mobility[n := mob];
      carriers := carriers[n := Carrier(None, None)];
      freeNodes := freeNodes + [n];
    }

    method AssignVehicleToPool(v: Vehicle) returns (abort: Option<Abort>)
      requires Valid()
      modifies this, mobility.Values, apps.Values
      ensures unchanged(`mobility) && unchanged(`apps)
      ensures abort == None ==> Valid()
      ensures abort == match Assign(tracks, old(View()), v) case Ok(_) => None case Err(e) => Some(e)
      ensures abort == None ==> View() == Assign(tracks, old(View()), v).value
    {
      if v in vehicleToNode {
        return Some(AlreadyAssigned);
      }
      if freeNodes == [] {
        return Some(PoolExhausted);
      }
      if v !in tracks || tracks[v] == [] {
        return Some(MissingTrack);
      }
      var n := freeNodes[0];
      if n !in mobility {
        return Some(MissingMobility);
      }
      LendNode(n, v);
      abort := None;
    }

    method LendNode(n: Node, v: Vehicle)
      requires Valid() && freeNodes != [] && n == freeNodes[0] && n in mobility && v in tracks && tracks[v] != []
      modifies this, mobility.Values, apps.Values
      ensures unchanged(`mobility) && unchanged(`apps) && Valid()
      ensures View() == Lend(old(View()), v, tracks[v])
    {
      TakeFreeNode(n, v);
      AttachObjects(n, v);
    }

    method TakeFreeNode(n: Node, v: Vehicle)
      requires freeNodes != [] && n == freeNodes[0]
      modifies `freeNodes, `vehicleToNode, `nodeToVehicle, `activeVehicles
      ensures freeNodes == old(freeNodes)[1..] && activeVehicles == old(activeVehicles) + {v}
      ensures vehicleToNode == old(vehicleToNode)[v := n] && nodeToVehicle == old(nodeToVehicle)[n := v]
    {
      freeNodes := freeNodes[1..];
      vehicleToNode := vehicleToNode[v := n];
      nodeToVehicle := nodeToVehicle[n := v];
      activeVehicles := activeVehicles + {v};
    }

    method AttachObjects(n: Node, v: Vehicle)
      requires Valid() && n in mobility && v in tracks && tracks[v] != []
      modifies `carriers, `applications, mobility.Values, apps.Values
      ensures unchanged(`mobility) && unchanged(`apps) && Valid()
      ensures carriers == old(carriers)[n := Carrier(Some(v), Some(tracks[v]))]
      ensures applications == if n in apps then old(applications)[n := old(applications)[n].Assigned(v)] else old(applications)
    {
      AttachTrack(n, v);
      if n in apps {
        AttachApp(n, v);
      }
    }

    method AttachTrack(n: Node, v: Vehicle)
      requires Valid() && n in mobility && v in tracks && tracks[v] != []
      modifies `carriers, mobility[n]
      ensures unchanged(`mobility) && unchanged(`apps)
      ensures Valid() && carriers == old(carriers)[n := Carrier(Some(v), Some(tracks[v]))]
    {
      mobility[n].AssignVehicle(v, tracks[v]);
      carriers := carriers[n := Carrier(Some(v), Some(tracks[v]))];
    }

    method DetachObjects(n: Node)
      requires Valid()
      modifies `carriers, `applications, mobility.Values, apps.Values
      ensures unchanged(`mobility) && unchanged(`apps) && Valid()
      ensures carriers == if n in mobility then old(carriers)[n := Carrier(None, None)] else old(carriers)
      ensures applications == if n in apps then old(applications)[n := old(applications)[n].Released()] else old(applications)
    {
      if n in apps {
        DetachApp(n);
      }
      if n in mobility {
        DetachTrack(n);
      }
    }

    method DetachTrack(n: Node)
      requires Valid() && n in mobility
      modifies `carriers, mobility[n]
      ensures unchanged(`mobility) && unchanged(`apps)
      ensures Valid() && carriers == old(carriers)[n := Carrier(None, None)]
    {
      mobility[n].ReleaseVehicle();
      carriers := carriers[n := Carrier(None, None)];
    }

    method AttachApp(n: Node, v: Vehicle)
      requires Valid() && n in apps
      modifies `applications, apps[n]
      ensures unchanged(`mobility) && unchanged(`apps)
      ensures Valid() && applications == old(applications)[n := old(applications)[n].Assigned(v)]
    {
      apps[n].AssignVehicle(v);
      applications := applications[n := apps[n].View()];
    }

    method DetachApp(n: Node)
      requires Valid() && n in apps
      modifies `applications, apps[n]
      ensures unchanged(`mobility) && unchanged(`apps)
      ensures Valid() && applications == old(applications)[n := old(applications)[n].Released()]
    {
      apps[n].ReleaseVehicle();
      applications := applications[n := apps[n].View()];
    }

    method ReleaseVehicleFromPool(v: Vehicle)
      requires Valid()
      modifies this, mobility.Values, apps.Values
      ensures unchanged(`mobility) && unchanged(`apps)
      ensures Valid() && View() == Release(old(View()), v)
    {
      if v !in vehicleToNode {
        return;
      }
      var n := vehicleToNode[v];
      DetachObjects(n);
      ReturnNode(n, v);
    }

    method ReturnNode(n: Node, v: Vehicle)
      modifies `freeNodes, `vehicleToNode, `nodeToVehicle, `activeVehicles
      ensures freeNodes == old(freeNodes) + [n] && activeVehicles == old(activeVehicles) - {v}
      ensures vehicleToNode == old(vehicleToNode) - {v} && nodeToVehicle == old(nodeToVehicle) - {n}
    {
      vehicleToNode := vehicleToNode - {v};
      nodeToVehicle := nodeToVehicle - {n};
      activeVehicles := activeVehicles - {v};
      freeNodes := freeNodes + [n];
    }

    method CreateApp(n: Node)
      requires Valid() && n !in apps
      modifies this`apps, this`applications
      ensures Valid() && View() == InstallApp(old(View()), n)
      ensures n in apps && fresh(apps[n]) && apps == old(apps)[n := apps[n]]
    {
      var app := new CamApplication();
      if n in nodeToVehicle {
        app.AssignVehicle(nodeToVehicle[n]);
      }
      apps := apps[n := app];
      applications := applications[n := app.View()];
    }
  }

  /** Parked radios stand far outside the road, each on its own spot. */
  function InactiveParking(n: Node): Vec {
    Vec(-10000.0 - n.id as real, -10000.0)
  }

  lemma ParkedApart(n: Node, m: Node)
    requires n != m
    ensures InactiveParking(n) != InactiveParking(m)
  {
  }

  /** All radios of the run, parked and free in the order of creation. */
  method CreatePool(tracks: Tracks, nodes: seq<Node>) returns (pool: VehiclePool)
    ensures fresh(pool) && pool.Valid() && pool.tracks == tracks && pool.View() == EmptyPool(nodes)
    ensures forall n :: n in pool.mobility ==> fresh(pool.mobility[n])
    ensures forall n :: n in nodes ==> n in pool.mobility && pool.mobility[n].parking == InactiveParking(n)
    ensures forall n, m :: n in nodes && m in nodes && n != m ==> pool.mobility[n].parking != pool.mobility[m].parking
  {
    hide EmptyPool, AddedNode, InactiveParking, VehiclePool.Valid, VehiclePool.View;
    pool := new VehiclePool(tracks);
    for k := 0 to |nodes|
      invariant fresh(pool) && pool.Valid() && pool.tracks == tracks && pool.View() == EmptyPool(nodes[..k])
      invariant forall n :: n in nodes[..k] ==> n in pool.mobility
      invariant forall n :: n in pool.mobility ==> fresh(pool.mobility[n]) && pool.mobility[n].parking == InactiveParking(n)
    {
      AddedNodeExtends(nodes[..k], nodes[k]);
      assert nodes[..k + 1] == nodes[..k] + [nodes[k]];
      pool.AddNode(nodes[k], InactiveParking(nodes[k]));
    }
    assert nodes[..|nodes|] == nodes;
    forall n, m | n in nodes && m in nodes && n != m ensures InactiveParking(n) != InactiveParking(m) {
      ParkedApart(n, m);
    }
  }
}
