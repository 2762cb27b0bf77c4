// A sensor node of sensor.py: its lifecycle, its energy budget (E_rank_u),
// its per-phase targets and the transmit/receive energy accounting.
module Sensors {
  import opened States

  /** The identity `get_name` formats from a sensor's position. */
  datatype Name = Name(x: int, y: int)

  /** Default initial energy of a sensor. */
  const DEFAULT_ENERGY: real := 100001.0
  /** Energy a controller gains after every reception (constant power supply). */
  const CONTROLLER_REFILL: real := 200001.0
  /** `__lt__` measures the distance to the controller, assumed at (100, 100). */
  const CENTER: int := 100

  /**
   * Energy one transmission costs: E_elec*l + eps_amp*l*d^2. With non-negative
   * coefficients and load a transmission never earns energy, and at distance 0 only
   * the electronics term is paid.
   */
  function TxCost(eElec: real, epsAmp: real, l: int, d: real): (c: real)
    ensures eElec >= 0.0 && epsAmp >= 0.0 && l >= 0 ==> c >= 0.0
    ensures d == 0.0 ==> c == eElec * l as real
  {
    var load := l as real;
    assert d * d >= 0.0;
    assert eElec >= 0.0 && l >= 0 ==> eElec * load >= 0.0;
    assert epsAmp >= 0.0 && l >= 0 ==> epsAmp * load >= 0.0;
    assert epsAmp * load >= 0.0 ==> epsAmp * load * (d * d) >= 0.0;
    eElec * load + epsAmp * load * (d * d)
  }

  /** A heavier load never makes a transmission cheaper. */
  lemma TxCostMonotoneInLoad(eElec: real, epsAmp: real, l1: int, l2: int, d: real)
    requires eElec >= 0.0 && epsAmp >= 0.0 && l1 <= l2
    ensures TxCost(eElec, epsAmp, l1, d) <= TxCost(eElec, epsAmp, l2, d)
  {
  }

  /**
   * One-way effect of a delivery that may not touch `o`: its energy and both
   * neighbour maps are as they were.
   */
  twostate predicate Untouched(o: Sensor?)
    reads o
  {
    o != null ==>
      o.energy == old(o.energy) &&
      o.neighborsMain == old(o.neighborsMain) &&
      o.neighborsBeacon == old(o.neighborsBeacon)
  }

  class Sensor {
    var energy: real                       // E_rank_u
    var state: State
    const posX: int
    const posY: int
    const eElec: real
    const epsAmp: real
    const isController: bool

    // set once, from the controller's predetermined path
    var targetBeacon: Sensor?
    var targetBeaconDistance: real
    const lBeacon: int
    var neighborsBeacon: map<Name, real>

    // updated every round
    var targetMain: Sensor?
    var targetMainDistance: real
    var lMain: nat
    var neighborsMain: map<Name, real>
    var isolated: bool

    /**
     * `__init__` with an explicit position (see README for the random default). The
     * energy defaults to 100001 and the node is not the controller unless told so.
     */
    constructor (initialEnergy: real := DEFAULT_ENERGY, x: int, y: int, controller: bool := false)
      ensures energy == initialEnergy && state == Init
      ensures posX == x && posY == y && isController == controller
      ensures eElec == 1.0 && epsAmp == 1.0
      ensures targetBeacon == null && targetBeaconDistance == 0.0 && lBeacon == 1
      ensures neighborsBeacon == map[]
      ensures targetMain == null && targetMainDistance == 0.0 && lMain == 1
      ensures neighborsMain == map[] && !isolated
    {
      energy, state := initialEnergy, Init;
      posX, posY := x, y;
      eElec, epsAmp := 1.0, 1.0;
      isController := controller;
      targetBeacon, targetBeaconDistance, lBeacon := null, 0.0, 1;
      neighborsBeacon := map[];
      targetMain, targetMainDistance, lMain := null, 0.0, 1;
      neighborsMain := map[];
      isolated := false;
    }

    function GetName(): Name
    {
      Name(posX, posY)
    }

    function GetPosition(): (int, int)
    {
      (posX, posY)
    }

    /** Squared distance to the controller position (100, 100). */
    function RadiusSq(): int
    {
      (posX - CENTER) * (posX - CENTER) + (posY - CENTER) * (posY - CENTER)
    }

    /** `__lt__`: strictly closer to (100, 100), compared on squared distances. */
    predicate Less(other: Sensor)
    {
      RadiusSq() < other.RadiusSq()
    }

    predicate IsAsleep()
      reads this
    {
      state == State.Sleep
    }

    predicate IsAwake()
      reads this
    {
      state == Awake
    }

    predicate IsDead()
      reads this
    {
      state == Dead
    }

    /** The guard every transmission passes first (note: `target_main` for both phases). */
    predicate CanTransmit()
      reads this
    {
      state != Dead && !isController && targetMain != null
    }

    /** The nodes this node's transmissions can reach. */
    function Targets(): set<Sensor>
      reads this
    {
      (if targetMain == null then {} else {targetMain}) +
      (if targetBeacon == null then {} else {targetBeacon})
    }

    function MainCost(): real
      reads this
    {
      TxCost(eElec, epsAmp, lMain, targetMainDistance)
    }

    function BeaconCost(): real
      reads this
    {
      TxCost(eElec, epsAmp, lBeacon, targetBeaconDistance)
    }

    /**
     * Compared with the old state, this node first spent `spent` and then
     * received `(sender, senderEnergy)` in the given phase: a live node pays
     * E_elec*l for the phase it actually receives in (main only while AWAKE)
     * and records the sender in that phase's map; a controller then gains
     * CONTROLLER_REFILL even when DEAD.
     */
    twostate predicate Delivered(sender: Name, senderEnergy: real, main: bool, spent: real)
      reads this
    {
      var live := old(state) != Dead;
      var toMain := live && main && old(state) == Awake;
      var cost := if !live then 0.0
                  else if toMain then eElec * old(lMain) as real
                  else eElec * lBeacon as real;
      && energy == old(energy) - spent - cost + (if isController then CONTROLLER_REFILL else 0.0)
      && neighborsMain == (if toMain then old(neighborsMain)[sender := senderEnergy] else old(neighborsMain))
      && neighborsBeacon == (if live && !toMain then old(neighborsBeacon)[sender := senderEnergy]
                             else old(neighborsBeacon))
    }

    /**
     * This node paid `cost` and delivered its name and its remaining energy
     * to `t` in the given phase (`t` may be this node itself).
     */
    twostate predicate SentTo(t: Sensor?, cost: real, main: bool)
      reads this, t
    {
      var reported := old(energy) - cost;
      if t == this then
        Delivered(GetName(), reported, main, cost)
      else
        && energy == reported
        && neighborsMain == old(neighborsMain)
        && neighborsBeacon == old(neighborsBeacon)
        && (t != null ==> t.Delivered(GetName(), reported, main, 0.0))
    }

    method UpdateState(newState: State)
      modifies this`state
      ensures state == if Valid(old(state), newState) then newState else old(state)
    {
      if IsValid(state, newState) == Some(true) {
        state := newState;
      } else {
        return;
      }
    }

    method UpdateProperties()
      modifies this`isolated, this`lMain, this`state
      ensures !isController ==>
        && isolated == (targetMain == null)
        && lMain == |neighborsMain|
        && state == if energy <= 0.0 && Valid(old(state), Dead) then Dead else old(state)
      ensures isController ==> !isolated && state == Awake && lMain == old(lMain)
    {
      if !isController {
        isolated := if targetMain == null then true else false;
        lMain := |neighborsMain|;
        if energy <= 0.0 {
          Die();
        }
      } else {
        isolated := false;
        state := Awake;
      }
    }

    method UpdateEnergy(delta: real)
      modifies this`energy
      ensures energy == old(energy) + delta
    {
      energy := energy + delta;
    }

    method WakeUp()
      modifies this`state
      ensures state == if Valid(old(state), Awake) then Awake else old(state)
      ensures old(state) == Dead ==> state == Dead
    {
      UpdateState(Awake);
    }

    method Sleep()
      modifies this`state
      ensures state == if Valid(old(state), State.Sleep) then State.Sleep else old(state)
      ensures old(state) == Dead ==> state == Dead
    {
      UpdateState(State.Sleep);
    }

    method Die()
      modifies this`state
      ensures state == if Valid(old(state), Dead) then Dead else old(state)
      ensures old(state) == Init ==> state == Init
    {
      UpdateState(Dead);
    }

    method SetTarget(target: Sensor?, targetDistance: real, main: bool := true)
      modifies this`targetMain, this`targetMainDistance, this`targetBeacon, this`targetBeaconDistance
      ensures if state != Dead && !isController && main
              then targetMain == target && targetMainDistance == targetDistance
              else targetMain == old(targetMain) && targetMainDistance == old(targetMainDistance)
      ensures if state != Dead && !isController && !main
              then targetBeacon == target && targetBeaconDistance == targetDistance
              else targetBeacon == old(targetBeacon) && targetBeaconDistance == old(targetBeaconDistance)
    {
      if state != Dead && !isController {
        if main {
          targetMain := target;
          targetMainDistance := targetDistance;
        } else {
          targetBeacon := target;
          targetBeaconDistance := targetDistance;
        }
      }
    }

    /**
     * `transmit`. `raised` reports the AttributeError of a beacon transmission
     * whose `target_beacon` is None: the energy has already been deducted.
     */
    method Transmit(main: bool := true) returns (raised: bool)
      modifies this`energy, this`isolated
      modifies Targets()`energy, Targets()`neighborsMain, Targets()`neighborsBeacon
      ensures raised <==>
        old(CanTransmit()) && !(main && old(state) == Awake) &&
        old(BeaconCost()) <= old(energy) && targetBeacon == null
      ensures !old(CanTransmit()) ==>
        isolated == old(isolated) && Untouched(this) && Untouched(targetMain) && Untouched(targetBeacon)
      ensures old(CanTransmit()) && main && old(state) == Awake ==>
        if old(MainCost()) <= old(energy) then
          && isolated == old(isolated)
          && SentTo(targetMain, old(MainCost()), true)
          && (targetBeacon != targetMain && targetBeacon != this ==> Untouched(targetBeacon))
        else
          isolated && Untouched(this) && Untouched(targetMain) && Untouched(targetBeacon)
      ensures old(CanTransmit()) && !(main && old(state) == Awake) ==>
        && isolated == old(isolated)
        && if old(BeaconCost()) <= old(energy) then
             && SentTo(targetBeacon, old(BeaconCost()), false)
             && (targetMain != targetBeacon && targetMain != this ==> Untouched(targetMain))
           else
             Untouched(this) && Untouched(targetMain) && Untouched(targetBeacon)
    {
      raised := false;
      if state != Dead && !isController && targetMain != null {
        if main && state == Awake {
          var usage := TxCost(eElec, epsAmp, lMain, targetMainDistance);
          if usage <= energy {
            SendTo(targetMain, usage, true);
          } else {
            isolated := true;
          }
        } else {
          var usage := TxCost(eElec, epsAmp, lBeacon, targetBeaconDistance);
          if usage <= energy {
            if targetBeacon == null {
              UpdateEnergy(-1.0 * usage);
              raised := true;
            } else {
              SendTo(targetBeacon, usage, false);
            }
          }
        }
      }
    }

    /** Deduct `cost`, then hand `(name, remaining energy)` to `t.receive`. */
    method SendTo(t: Sensor, cost: real, main: bool)
      modifies this`energy, t`energy, t`neighborsMain, t`neighborsBeacon
      ensures SentTo(t, cost, main)
    {
      if t == this {
        UpdateEnergy(-1.0 * cost);
        label Paid:
        assert state == old(state) && lMain == old(lMain);
        assert neighborsMain == old(neighborsMain) && neighborsBeacon == old(neighborsBeacon);
        Receive(GetName(), energy, main);
        assert Delivered@Paid(GetName(), old(energy) - cost, main, 0.0);
      } else {
        UpdateEnergy(-1.0 * cost);
        label Paid:
        var reported := energy;
        assert t.state == old(t.state) && t.lMain == old(t.lMain) && t.energy == old(t.energy);
        assert t.neighborsMain == old(t.neighborsMain) && t.neighborsBeacon == old(t.neighborsBeacon);
        t.Receive(GetName(), reported, main);
        assert t.Delivered@Paid(GetName(), reported, main, 0.0);
        assert energy == reported && neighborsMain == old(neighborsMain) && neighborsBeacon == old(neighborsBeacon);
      }
    }

    method Receive(sender: Name, senderEnergy: real, main: bool := true)
      modifies this`energy, this`neighborsMain, this`neighborsBeacon
      ensures Delivered(sender, senderEnergy, main, 0.0)
    {
      if state != Dead {
        if main && state == Awake {
          UpdateEnergy(-1.0 * eElec * lMain as real);
          neighborsMain := neighborsMain[sender := senderEnergy];
        } else {
          UpdateEnergy(-1.0 * eElec * lBeacon as real);
          neighborsBeacon := neighborsBeacon[sender := senderEnergy];
        }
      }
      if isController {
        UpdateEnergy(CONTROLLER_REFILL);
      }
    }
  }

  /** `get_name` tells sensors apart exactly by position. */
  lemma NameIdentifiesPosition(a: Sensor, b: Sensor)
    ensures a.GetName() == b.GetName() <==> a.GetPosition() == b.GetPosition()
  {
  }

  /** At most one of the status queries holds, and none holds only in INIT. */
  lemma StatusQueriesExclusive(s: Sensor)
    ensures !(s.IsAsleep() && s.IsAwake()) && !(s.IsAsleep() && s.IsDead()) && !(s.IsAwake() && s.IsDead())
    ensures !s.IsAsleep() && !s.IsAwake() && !s.IsDead() <==> s.state == Init
  {
  }

  /** `__lt__` is a strict weak order: sensors tie exactly when equally far from (100, 100). */
  lemma LessIsStrictWeakOrder(a: Sensor, b: Sensor, c: Sensor)
    ensures !a.Less(a)
    ensures a.Less(b) ==> !b.Less(a)
    ensures a.Less(b) && b.Less(c) ==> a.Less(c)
    ensures !a.Less(b) && !b.Less(a) <==> a.RadiusSq() == b.RadiusSq()
  {
  }
}
