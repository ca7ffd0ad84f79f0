/**
 * Value-level view of the elevator subsystem: the enums, what a dispatch
 * strategy can observe of an elevator, the queued tasks, and the meaning of
 * running those tasks (one task, then a whole FIFO drain).
 */
module LiftState {
  import opened Options

  datatype Direction = Up | Down | Idle
  datatype Status = Idle | Moving

  /** What the getters of one elevator show: status, direction, current floor. */
  datatype Car = Car(status: Status, direction: Direction, floor: int)

  /**
   * A queued request. The external kind is answered by the strategy that is
   * installed when it runs; the internal kind names the elevator (by its
   * position in the fleet) whose in-cab panel queued it.
   */
  datatype Task =
    | External(floor: int, direction: Direction)
    | Internal(elevator: nat, floor: int)

  /** A dispatch strategy never chooses an elevator outside the fleet it is given. */
  predicate PicksInside(pick: Option<nat>, fleetSize: nat) {
    pick.Some? ==> pick.value < fleetSize
  }

  /** The strategy that never finds an elevator. */
  function NoElevator(cars: seq<Car>, floor: int, direction: Direction): Option<nat> {
    None
  }

  /** A dispatch strategy: fleet snapshot, requested floor and direction to an elevator or none. */
  type Dispatcher = f: (seq<Car>, int, Direction) -> Option<nat>
    | forall cars: seq<Car>, floor: int, direction: Direction :: PicksInside(f(cars, floor, direction), |cars|)
    witness NoElevator

  /** The state an elevator is in once a move to `floor` has completed. */
  function Arrived(c: Car, floor: int): Car {
    Car(Status.Idle, c.direction, floor)
  }

  /** Every internal task in the queue names an elevator of a fleet of `n`. */
  predicate Targets(tasks: seq<Task>, n: nat) {
    forall k :: 0 <= k < |tasks| && tasks[k].Internal? ==> tasks[k].elevator < n
  }

  /** The elevator that serves `t`, if any: the strategy's pick, or the one that queued it. */
  function ServedBy(cars: seq<Car>, t: Task, strategy: Dispatcher): Option<nat> {
    match t
    case External(floor, direction) => strategy(cars, floor, direction)
    case Internal(e, _) => Some(e)
  }

  /**
   * Running one task. The serving elevator (if any) ends at the task's floor
   * and IDLE with its direction kept; every other elevator is untouched.
   */
  function Apply(cars: seq<Car>, t: Task, strategy: Dispatcher): (r: seq<Car>)
    requires t.Internal? ==> t.elevator < |cars|
    ensures |r| == |cars|
    ensures forall j :: 0 <= j < |cars| ==>
      r[j] == if ServedBy(cars, t, strategy) == Some(j) then Arrived(cars[j], t.floor) else cars[j]
  {
    match ServedBy(cars, t, strategy)
    case None => cars
    case Some(i) => cars[i := Arrived(cars[i], t.floor)]
  }

  /** Running a whole queue, first task first, until it is empty. */
  function Drain(cars: seq<Car>, tasks: seq<Task>, strategy: Dispatcher): (r: seq<Car>)
    requires Targets(tasks, |cars|)
    ensures |r| == |cars|
    decreases |tasks|
  {
    if tasks == [] then cars
    else
      TargetsTail(tasks, |cars|);
      Drain(Apply(cars, tasks[0], strategy), tasks[1..], strategy)
  }

  /** Taking the head task off a queue keeps every internal task inside the fleet. */
  lemma TargetsTail(tasks: seq<Task>, n: nat)
    requires Targets(tasks, n) && tasks != []
    ensures Targets(tasks[1..], n)
  {
    forall k | 0 <= k < |tasks[1..]| && tasks[1..][k].Internal? ensures tasks[1..][k].elevator < n {
      assert tasks[1..][k] == tasks[k + 1];
    }
  }

  /** One step of a drain: the head task runs, then the rest of the queue. */
  lemma DrainStep(cars: seq<Car>, tasks: seq<Task>, strategy: Dispatcher)
    requires Targets(tasks, |cars|) && tasks != []
    ensures Targets(tasks[1..], |cars|)
    ensures Drain(cars, tasks, strategy) == Drain(Apply(cars, tasks[0], strategy), tasks[1..], strategy)
  {
    TargetsTail(tasks, |cars|);
  }

  /** FIFO: draining `a + b` applies all of `a` before any of `b`. */
  lemma {:induction false} DrainConcat(cars: seq<Car>, a: seq<Task>, b: seq<Task>, strategy: Dispatcher)
    requires Targets(a + b, |cars|)
    ensures Targets(a, |cars|) && Targets(b, |cars|)
    ensures Drain(cars, a + b, strategy) == Drain(Drain(cars, a, strategy), b, strategy)
    decreases |a|
  {
    assert forall k :: 0 <= k < |a| ==> (a + b)[k] == a[k];
    assert forall k :: 0 <= k < |b| ==> (a + b)[|a| + k] == b[k];
    if a == [] {
      assert a + b == b;
    } else {
      assert (a + b)[1..] == a[1..] + b;
      DrainConcat(Apply(cars, a[0], strategy), a[1..], b, strategy);
    }
  }

  /** An internal task moves exactly its own elevator, whatever the strategy and the other cars. */
  lemma InternalIgnoresStrategy(cars: seq<Car>, e: nat, floor: int, s1: Dispatcher, s2: Dispatcher)
    requires e < |cars|
    ensures Apply(cars, Internal(e, floor), s1) == Apply(cars, Internal(e, floor), s2)
    ensures Apply(cars, Internal(e, floor), s1)[e] == Arrived(cars[e], floor)
  {
  }
}
