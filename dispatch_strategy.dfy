/**
 * The directional dispatch strategy: the nearest eligible elevator, the
 * earliest one winning ties, with Java's `Integer.MAX_VALUE` as the initial
 * best distance.
 */
module DispatchStrategy {
  import opened Options
  import opened LiftState
  import Lift

  const IntMax: int := 0x7fff_ffff

  /** An elevator may answer a call when it is IDLE or already heading the requested way. */
  predicate Eligible(c: Car, direction: Direction): (ok: bool)
    ensures c.status == Status.Idle ==> ok
    ensures c.status != Status.Idle ==> (ok <==> c.direction == direction)
  {
    c.status == Status.Idle || c.direction == direction
  }

  /** `Math.abs(currentFloor - floor)`, without 32-bit overflow. */
  function Distance(c: Car, floor: int): (d: nat)
    ensures d == c.floor - floor || d == floor - c.floor
    ensures d == 0 <==> c.floor == floor
  {
    if c.floor >= floor then c.floor - floor else floor - c.floor
  }

  /** The pair (best, minDist) after the loop has looked at the first `k` elevators. */
  function Scan(cars: seq<Car>, floor: int, direction: Direction, k: nat): (r: (Option<nat>, int))
    requires k <= |cars|
    ensures r.0.Some? ==> r.0.value < k
  {
    if k == 0 then (None, IntMax)
    else
      var (best, minDist) := Scan(cars, floor, direction, k - 1);
      var c := cars[k - 1];
      if Eligible(c, direction) && Distance(c, floor) < minDist then (Some(k - 1), Distance(c, floor))
      else (best, minDist)
  }

  /** The loop's invariant: what (best, minDist) mean after `k` elevators. */
  ghost predicate ScanMeaning(cars: seq<Car>, floor: int, direction: Direction, k: nat, r: (Option<nat>, int))
    requires k <= |cars|
  {
    r.1 <= IntMax &&
    (r.0.Some? ==>
      r.0.value < k && Eligible(cars[r.0.value], direction) && r.1 == Distance(cars[r.0.value], floor)) &&
    (r.0.None? ==> r.1 == IntMax) &&
    (forall j :: 0 <= j < k && Eligible(cars[j], direction) ==> r.1 <= Distance(cars[j], floor)) &&
    (r.0.Some? ==>
      forall j :: 0 <= j < r.0.value && Eligible(cars[j], direction) ==> r.1 < Distance(cars[j], floor)) &&
    (r.0.None? <==>
      forall j :: 0 <= j < k && Eligible(cars[j], direction) ==> Distance(cars[j], floor) >= IntMax)
  }

  /**
   * After `k` elevators the best one is eligible and at minDist, no eligible
   * elevator looked at is nearer, every earlier eligible one is strictly
   * farther, and there is no best exactly when every eligible one looked at is
   * at least IntMax away.
   */
  lemma {:induction false} ScanIsNearest(cars: seq<Car>, floor: int, direction: Direction, k: nat)
    requires k <= |cars|
    ensures ScanMeaning(cars, floor, direction, k, Scan(cars, floor, direction, k))
  {
    if k > 0 {
      ScanIsNearest(cars, floor, direction, k - 1);
    }
  }

  /**
   * The elevator `selectElevator` returns, by position. It is eligible, no
   * eligible elevator is nearer, every earlier eligible one is strictly farther,
   * and there is none exactly when no eligible elevator is under IntMax away
   * (so, for an empty fleet, none).
   */
  function Nearest(cars: seq<Car>, floor: int, direction: Direction): (r: Option<nat>)
    ensures r.Some? ==> r.value < |cars| && Eligible(cars[r.value], direction)
    ensures r.Some? ==> forall j :: 0 <= j < |cars| && Eligible(cars[j], direction) ==>
      Distance(cars[r.value], floor) <= Distance(cars[j], floor)
    ensures r.Some? ==> forall j :: 0 <= j < r.value && Eligible(cars[j], direction) ==>
      Distance(cars[r.value], floor) < Distance(cars[j], floor)
    ensures r.None? <==>
      forall j :: 0 <= j < |cars| && Eligible(cars[j], direction) ==> Distance(cars[j], floor) >= IntMax
  {
    ScanIsNearest(cars, floor, direction, |cars|);
    Scan(cars, floor, direction, |cars|).0
  }

  /** The strategy `getInstance` hands out; it is stateless, so one value serves every caller. */
  const Directional: Dispatcher := Nearest

  /** The loop of `selectElevator` over the live elevator objects; it only reads them. */
  method SelectElevator(elevators: seq<Lift.Elevator>, requestedFloor: int, direction: Direction)
    returns (best: Lift.Elevator?)
    ensures best == match Nearest(Lift.Views(elevators), requestedFloor, direction)
                    case None => null
                    case Some(i) => elevators[i]
  {
    best := null;
    var minDist := IntMax;
    ghost var pick: Option<nat> := None;
    ghost var cars := Lift.Views(elevators);
    for k := 0 to |elevators|
      invariant (pick, minDist) == Scan(cars, requestedFloor, direction, k)
      invariant best == if pick.None? then null else elevators[pick.value]
    {
      var e := elevators[k];
      if e.status == Status.Idle || e.direction == direction {
        var dist := if e.currentFloor >= requestedFloor then e.currentFloor - requestedFloor
                    else requestedFloor - e.currentFloor;
        if dist < minDist {
          minDist := dist;
          best := e;
          pick := Some(k);
        }
      }
    }
  }

  /** With every elevator eligible and within range, a call is always answered. */
  lemma AlwaysAnswered(cars: seq<Car>, floor: int, direction: Direction)
    requires |cars| > 0
    requires forall j :: 0 <= j < |cars| ==> cars[j].status == Status.Idle
    requires forall j :: 0 <= j < |cars| ==> Distance(cars[j], floor) < IntMax
    ensures Nearest(cars, floor, direction).Some?
  {
    assert Eligible(cars[0], direction);
  }
}
