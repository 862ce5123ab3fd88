/** The simulation handle and the operations that start, stop and reheat it
    (makeSimulation, startSimulation, stopSimulation, releaseNodes). The
    force physics itself is not modelled: the handle records the parameters
    the code sets on it. */
module Simulation {
  import opened Wrappers
  import opened Graph
  import ForceRadius

  const LinkDistance: real := 60.0
  const ChargeStrength: real := -300.0
  const CollisionStrength: real := 0.7
  const CollisionIterations: nat := 10
  const AlphaMin: real := 0.025
  const AlphaTarget: real := 0.02
  /** The alpha a reheat sets. */
  const ReheatAlpha: real := 0.5
  /** The alpha d3 gives a new simulation. */
  const InitialAlpha: real := 1.0

  /** The component a view function runs on (its `this`): the marker size and
      the nesting mode the collision force is sized from. */
  datatype View = View(nodeMarkerLength: real, nodeMarkerHeight: real, renderNested: bool)

  /** How a call ends: normally, with the TypeError thrown by reading a
      property of `undefined`, or with d3's "node not found: <id>" error. */
  datatype Outcome = Done | TypeError | NodeNotFound(id: string)

  /** The ids of the network's nodes, which d3's link force looks link ends up by. */
  function NodeIds(nodes: seq<Node>): set<string>
  {
    set n | n in nodes :: n.id
  }

  /** Both ends of `l` name a node. */
  predicate Resolved(l: Link, ids: set<string>)
  {
    l.source in ids && l.target in ids
  }

  /** Every link end of the network names one of its nodes. */
  predicate Resolves(network: Network)
  {
    forall i :: 0 <= i < |network.links| ==> Resolved(network.links[i], NodeIds(network.nodes))
  }

  /** The end that makes the link force throw when it is given the links: ends
      are looked up link by link, source before target, and the first one that
      names no node is reported. None when every end resolves. */
  function FirstUnresolved(links: seq<Link>, ids: set<string>): (r: Option<string>)
    ensures r.None? <==> forall i :: 0 <= i < |links| ==> Resolved(links[i], ids)
    ensures r.Some? ==>
      exists i ::
        && 0 <= i < |links| && !Resolved(links[i], ids)
        && (forall j :: 0 <= j < i ==> Resolved(links[j], ids))
        && r.value == (if links[i].source !in ids then links[i].source else links[i].target)
  {
    if links == [] then None
    else if links[0].source !in ids then Some(links[0].source)
    else if links[0].target !in ids then Some(links[0].target)
    else
      var rest := FirstUnresolved(links[1..], ids);
      assert forall i :: 1 <= i < |links| ==> links[i] == links[1..][i - 1];
      rest
  }

  class Simulation {
    var nodes: seq<Node>
    var links: seq<Link>
    var linkDistance: real
    var chargeStrength: real
    var centerX: real
    var centerY: real
    var collisionRadius: real
    var collisionStrength: real
    var collisionIterations: nat
    var alpha: real
    var alphaMin: real
    var alphaTarget: real
    /** Whether the simulation's timer is ticking. */
    var running: bool

    /** The cooling schedule drives alpha toward alphaTarget and stops once alpha
        falls below alphaMin; a target below the minimum is what lets it stop. */
    predicate Settles()
      reads this
    {
      alphaTarget < alphaMin
    }

    /** The state makeSimulation leaves: link force at distance 60, charge -300,
        centring on the middle of the view, the collision force for the current
        marker, alphaMin 0.025, started with alphaTarget 0.02. */
    predicate Initial(network: Network, width: real, height: real,
                      markerLength: real, markerHeight: real, renderNested: bool)
      reads this
    {
      && nodes == network.nodes && links == network.links
      && linkDistance == LinkDistance && chargeStrength == ChargeStrength
      && centerX == width / 2.0 && centerY == height / 2.0
      && collisionRadius == ForceRadius.GetForceRadius(markerLength, markerHeight, renderNested)
      && collisionStrength == CollisionStrength && collisionIterations == CollisionIterations
      && alpha == InitialAlpha && alphaMin == AlphaMin && alphaTarget == AlphaTarget
      && running
    }

    /** makeSimulation once the link force has accepted the links, which it
        does only when every link end names a node. */
    constructor Make(network: Network, width: real, height: real,
                     markerLength: real, markerHeight: real, renderNested: bool)
      requires Resolves(network)
      ensures Initial(network, width, height, markerLength, markerHeight, renderNested)
      ensures Settles()
    {
      nodes, links := network.nodes, network.links;
      linkDistance := LinkDistance;
      chargeStrength := ChargeStrength;
      centerX, centerY := width / 2.0, height / 2.0;
      collisionRadius := ForceRadius.GetForceRadius(markerLength, markerHeight, renderNested);
      collisionStrength, collisionIterations := CollisionStrength, CollisionIterations;
      alpha := InitialAlpha;
      alphaMin := AlphaMin;
      alphaTarget := AlphaTarget;
      running := true;
    }

    /** Replaces the collision force by one sized for the given marker. */
    method ConfigureCollision(markerLength: real, markerHeight: real, renderNested: bool)
      modifies this
      ensures collisionRadius == ForceRadius.GetForceRadius(markerLength, markerHeight, renderNested)
      ensures collisionStrength == CollisionStrength && collisionIterations == CollisionIterations
      ensures nodes == old(nodes) && links == old(links)
      ensures linkDistance == old(linkDistance) && chargeStrength == old(chargeStrength)
      ensures centerX == old(centerX) && centerY == old(centerY)
      ensures alpha == old(alpha) && alphaMin == old(alphaMin) && alphaTarget == old(alphaTarget)
      ensures running == old(running)
    {
      collisionRadius := ForceRadius.GetForceRadius(markerLength, markerHeight, renderNested);
      collisionStrength, collisionIterations := CollisionStrength, CollisionIterations;
    }

    /** The state startSimulation leaves when it runs to the end: the collision
        force sized for the given marker, alpha 0.5, and every other parameter,
        alphaTarget and the timer included, as it was. */
    twostate predicate Reheated(markerLength: real, markerHeight: real, renderNested: bool)
      reads this
    {
      && alpha == ReheatAlpha
      && collisionRadius == ForceRadius.GetForceRadius(markerLength, markerHeight, renderNested)
      && collisionStrength == CollisionStrength && collisionIterations == CollisionIterations
      && nodes == old(nodes) && links == old(links)
      && linkDistance == old(linkDistance) && chargeStrength == old(chargeStrength)
      && centerX == old(centerX) && centerY == old(centerY)
      && alphaMin == old(alphaMin) && alphaTarget == old(alphaTarget)
      && running == old(running)
    }

    /** The body of startSimulation once the marker size has been read from its
        receiver: recompute the collision force and set alpha to 0.5. The timer
        is not restarted, so a settling simulation keeps settling. */
    method Start(markerLength: real, markerHeight: real, renderNested: bool)
      modifies this
      ensures Reheated(markerLength, markerHeight, renderNested)
      ensures old(Settles()) ==> Settles()
    {
      ConfigureCollision(markerLength, markerHeight, renderNested);
      alpha := ReheatAlpha;
    }

    /** Stops the timer; every parameter is kept. */
    method Stop()
      modifies this`running
      ensures !running
    {
      running := false;
    }
  }

  /** stopSimulation: stop the handle, then snapshot every node's position into
      savedX/savedY. No other node field changes. */
  method StopSimulation(network: Network, simulation: Simulation)
    modifies simulation`running, set n | n in network.nodes
    ensures !simulation.running
    ensures forall n :: n in network.nodes ==> n.savedX == Some(n.x) && n.savedY == Some(n.y)
    ensures forall n :: n in network.nodes ==>
      n.x == old(n.x) && n.y == old(n.y) && n.fx == old(n.fx) && n.fy == old(n.fy)
  {
    simulation.Stop();
    for k := 0 to |network.nodes|
      invariant !simulation.running
      invariant forall j :: 0 <= j < k ==>
        network.nodes[j].savedX == Some(network.nodes[j].x) && network.nodes[j].savedY == Some(network.nodes[j].y)
      invariant forall n :: n in network.nodes ==>
        n.x == old(n.x) && n.y == old(n.y) && n.fx == old(n.fx) && n.fy == old(n.fy)
    {
      var n := network.nodes[k];
      n.savedX := Some(n.x);
      n.savedY := Some(n.y);
    }
  }

  /** makeSimulation: giving the links to the link force looks every link end
      up among the node ids; the first end that names no node makes d3 throw
      "node not found" and no simulation is returned. Otherwise the simulation
      is made as Make describes. */
  method MakeSimulation(network: Network, width: real, height: real,
                        markerLength: real, markerHeight: real, renderNested: bool)
    returns (outcome: Outcome, simulation: Simulation?)
    ensures outcome == Done <==> Resolves(network)
    ensures outcome != Done ==>
      && simulation == null
      && outcome == NodeNotFound(FirstUnresolved(network.links, NodeIds(network.nodes)).value)
    ensures outcome == Done ==>
      && simulation != null && fresh(simulation)
      && simulation.Initial(network, width, height, markerLength, markerHeight, renderNested)
      && simulation.Settles()
  {
    var first := FirstUnresolved(network.links, NodeIds(network.nodes));
    if first.Some? {
      outcome, simulation := NodeNotFound(first.value), null;
    } else {
      simulation := new Simulation.Make(network, width, height, markerLength, markerHeight, renderNested);
      outcome := Done;
    }
  }

  /** Nodes [A] and a link from A to Z: makeSimulation reports Z as not found. */
  method DanglingLinkIsRejected() returns (outcome: Outcome, simulation: Simulation?)
    ensures outcome == NodeNotFound("Z") && simulation == null
  {
    var a := new Node("A", 0.0, 0.0);
    var network := Network([a], [Link("L", "A", "Z")]);
    assert NodeIds(network.nodes) == {"A"};
    assert FirstUnresolved(network.links, {"A"}) == Some("Z");
    outcome, simulation := MakeSimulation(network, 800.0, 600.0, 40.0, 20.0, false);
  }

  /** startSimulation called with receiver `receiver`; None stands for a call
      without one, where `this` is undefined in module code. The marker size is
      read from the receiver before the simulation is touched, so without one
      the call throws and changes nothing. */
  method StartSimulation(simulation: Simulation, receiver: Option<View>) returns (outcome: Outcome)
    modifies simulation
    ensures outcome == Done <==> receiver.Some?
    ensures receiver.None? ==> outcome == TypeError && unchanged(simulation)
    ensures receiver.Some? ==>
      simulation.Reheated(receiver.value.nodeMarkerLength, receiver.value.nodeMarkerHeight, receiver.value.renderNested)
  {
    match receiver {
      case None =>
        outcome := TypeError;
      case Some(view) =>
        simulation.Start(view.nodeMarkerLength, view.nodeMarkerHeight, view.renderNested);
        outcome := Done;
    }
  }

  /** The first half of releaseNodes: clear every node's pin. Positions and
      snapshots stay as they were. */
  method UnpinAll(network: Network)
    modifies set n | n in network.nodes
    ensures forall n :: n in network.nodes ==> n.fx == None && n.fy == None
    ensures forall n :: n in network.nodes ==>
      n.x == old(n.x) && n.y == old(n.y) && n.savedX == old(n.savedX) && n.savedY == old(n.savedY)
  {
    for k := 0 to |network.nodes|
      invariant forall j :: 0 <= j < k ==> network.nodes[j].fx == None && network.nodes[j].fy == None
      invariant forall n :: n in network.nodes ==>
        n.x == old(n.x) && n.y == old(n.y) && n.savedX == old(n.savedX) && n.savedY == old(n.savedY)
    {
      var n := network.nodes[k];
      n.fx := None;
      n.fy := None;
    }
  }

  /** releaseNodes as written: it unpins the nodes and then calls
      startSimulation without a receiver, so the reheat throws a TypeError and
      the simulation keeps its alpha and its collision force. */
  method ReleaseNodesAsWritten(network: Network, simulation: Simulation) returns (outcome: Outcome)
    modifies simulation, set n | n in network.nodes
    ensures outcome == TypeError
    ensures unchanged(simulation)
    ensures forall n :: n in network.nodes ==> n.fx == None && n.fy == None
    ensures forall n :: n in network.nodes ==>
      n.x == old(n.x) && n.y == old(n.y) && n.savedX == old(n.savedX) && n.savedY == old(n.savedY)
  {
    UnpinAll(network);
    outcome := StartSimulation(simulation, None);
  }

  /** The as-written releaseNodes on a fresh one-node simulation: the pin is
      cleared, the call ends in a TypeError and alpha stays at its initial 1
      instead of the 0.5 of a reheat. */
  method ReleaseAsWrittenSkipsReheat() returns (unpinned: bool, outcome: Outcome, alpha: real)
    ensures unpinned && outcome == TypeError
    ensures alpha == InitialAlpha && alpha != ReheatAlpha
  {
    var n := new Node("a", 10.0, 20.0);
    n.fx, n.fy := Some(10.0), Some(20.0);
    var network := Network([n], []);
    var simulation := new Simulation.Make(network, 800.0, 600.0, 40.0, 20.0, false);
    outcome := ReleaseNodesAsWritten(network, simulation);
    unpinned := n.fx == None && n.fy == None;
    alpha := simulation.alpha;
  }

  /** releaseNodes as intended: unpin every node, then reheat the simulation
      through startSimulation run on the same view. */
  method ReleaseNodes(network: Network, simulation: Simulation, view: View)
    modifies simulation, set n | n in network.nodes
    ensures forall n :: n in network.nodes ==> n.fx == None && n.fy == None
    ensures forall n :: n in network.nodes ==>
      n.x == old(n.x) && n.y == old(n.y) && n.savedX == old(n.savedX) && n.savedY == old(n.savedY)
    ensures simulation.Reheated(view.nodeMarkerLength, view.nodeMarkerHeight, view.renderNested)
    ensures old(simulation.Settles()) ==> simulation.Settles()
  {
    UnpinAll(network);
    var outcome := StartSimulation(simulation, Some(view));
  }

  /** One tick of d3's cooling rule: alpha moves toward alphaTarget by the
      fraction `decay` (d3's alphaDecay, a number in (0, 1]). */
  function Cool(alpha: real, alphaTarget: real, decay: real): real
  {
    alpha + (alphaTarget - alpha) * decay
  }

  /** Alpha after `n` ticks. */
  function AlphaAfter(alpha: real, alphaTarget: real, decay: real, n: nat): real
    decreases n
  {
    if n == 0 then alpha else AlphaAfter(Cool(alpha, alphaTarget, decay), alphaTarget, decay, n - 1)
  }

  /** While alpha is at or above alphaMin, each tick takes at least
      decay * (alphaMin - alphaTarget) off it; so a budget of `n` such steps
      covering the distance suffices to fall below alphaMin. */
  lemma {:induction false} CoolsWithin(alpha: real, alphaTarget: real, alphaMin: real, decay: real, n: nat)
    requires 0.0 < decay <= 1.0 && alphaTarget < alphaMin
    requires alpha - alphaTarget <= n as real * (decay * (alphaMin - alphaTarget))
    ensures exists k: nat :: k <= n && AlphaAfter(alpha, alphaTarget, decay, k) < alphaMin
    decreases n
  {
    if alpha < alphaMin {
      assert AlphaAfter(alpha, alphaTarget, decay, 0) < alphaMin;
    } else {
      var gap := alphaMin - alphaTarget;
      var next := Cool(alpha, alphaTarget, decay);
      assert decay * (alpha - alphaTarget) >= decay * gap;
      assert next - alphaTarget <= alpha - alphaTarget - decay * gap;
      assert n > 0;
      assert (n - 1) as real * (decay * gap) == n as real * (decay * gap) - decay * gap;
      CoolsWithin(next, alphaTarget, alphaMin, decay, n - 1);
      var k: nat :| k <= n - 1 && AlphaAfter(next, alphaTarget, decay, k) < alphaMin;
      assert AlphaAfter(alpha, alphaTarget, decay, k + 1) == AlphaAfter(next, alphaTarget, decay, k);
    }
  }

  /** With the settings of makeSimulation (alphaTarget 0.02 below alphaMin 0.025),
      the simulation stops after finitely many ticks from any alpha, in particular
      from the initial alpha and from the 0.5 a reheat sets. */
  lemma SimulationEnds(alpha: real, decay: real)
    requires 0.0 < decay <= 1.0
    ensures exists n: nat :: AlphaAfter(alpha, AlphaTarget, decay, n) < AlphaMin
  {
    var step := decay * (AlphaMin - AlphaTarget);
    PositiveProduct(decay, AlphaMin - AlphaTarget);
    var bound := (alpha - AlphaTarget) / step;
    var n: nat := if bound <= 0.0 then 0 else bound.Floor + 1;
    DivideThenMultiply(alpha - AlphaTarget, step);
    assert bound <= n as real by {
      if bound > 0.0 { assert bound < (bound.Floor + 1) as real; }
    }
    ScaleMonotone(bound, n as real, step);
    CoolsWithin(alpha, AlphaTarget, AlphaMin, decay, n);
  }

  /* Helper facts of real arithmetic for SimulationEnds, kept apart so that
     each nonlinear step is proved on its own. */

  lemma PositiveProduct(a: real, b: real)
    requires a > 0.0 && b > 0.0
    ensures a * b > 0.0
  {
  }

  lemma DivideThenMultiply(a: real, b: real)
    requires b != 0.0
    ensures (a / b) * b == a
  {
  }

  lemma ScaleMonotone(a: real, b: real, c: real)
    requires a <= b && c >= 0.0
    ensures a * c <= b * c
  {
    assert (b - a) * c >= 0.0;
  }
}
