/**
 * The elevator subsystem's objects: elevators with their in-cab panels,
 * floors with their call panels, and the controller that owns the fleet,
 * the floors, the strategy and the FIFO request queue.
 */
module Lift {
  import opened Options
  import opened LiftState
  import opened Sequences

  /** The static `idCounter` shared by every elevator. */
  class IdCounter {
    var last: nat

    constructor ()
      ensures last == 0
    {
      last := 0;
    }
  }

  /** The numbers 0, 1, ..., n - 1 (none when n <= 0): the in-cab buttons. */
  function Buttons(n: int): (r: seq<int>)
    ensures |r| == if n < 0 then 0 else n
    ensures forall i :: 0 <= i < |r| ==> r[i] == i
  {
    if n <= 0 then [] else Buttons(n - 1) + [n - 1]
  }

  /** The panel inside an elevator: the floor display and the floor buttons. */
  class InternalPanel {
    var currentFloor: int
    var direction: Direction
    const floorButtons: seq<int>
    /** The owning elevator, bound once that elevator exists. */
    var elevator: Elevator?

    constructor (numFloors: int)
      ensures currentFloor == 0 && direction == Direction.Idle && elevator == null
      ensures floorButtons == Buttons(numFloors)
    {
      var buttons: seq<int> := [];
      var i := 0;
      while i < numFloors
        invariant 0 <= i <= (if numFloors < 0 then 0 else numFloors)
        invariant buttons == Buttons(i)
      {
        buttons := buttons + [i];
        i := i + 1;
      }
      currentFloor := 0;
      direction := Direction.Idle;
      floorButtons := buttons;
      elevator := null;
    }

    method Display(floor: int, dir: Direction)
      modifies this`currentFloor, this`direction
      ensures currentFloor == floor && direction == dir
    {
      currentFloor := floor;
      direction := dir;
    }

    /** Queues an internal request for the owning elevator; the floor is not checked against the buttons. */
    method RequestFloor(floor: int)
      requires elevator != null && elevator.system != null
      requires elevator.system.Valid() && elevator in elevator.system.elevators
      modifies elevator.system`queue
      ensures elevator.system.Valid()
      ensures elevator.system.queue
        == old(elevator.system.queue) + [Internal(FirstIndex(elevator.system.elevators, elevator), floor)]
    {
      elevator.system.QueueInternalRequest(elevator, floor);
    }
  }

  class Elevator {
    const id: int
    const panel: InternalPanel
    var status: Status
    var direction: Direction
    var currentFloor: int
    var system: ElevatorSystem?

    /** A new elevator takes the next id from the shared counter; it starts IDLE at floor 0. */
    constructor (numFloors: int, counter: IdCounter)
      modifies counter
      ensures id == old(counter.last) + 1 && counter.last == id
      ensures status == Status.Idle && direction == Direction.Idle && currentFloor == 0
      ensures system == null
      ensures fresh(panel) && panel.elevator == this
      ensures panel.currentFloor == 0 && panel.direction == Direction.Idle
      ensures panel.floorButtons == Buttons(numFloors)
      ensures |panel.floorButtons| == if numFloors < 0 then 0 else numFloors
    {
      counter.last := counter.last + 1;
      id := counter.last;
      panel := new InternalPanel(numFloors);
      status := Status.Idle;
      direction := Direction.Idle;
      currentFloor := 0;
      system := null;
      new;
      panel.elevator := this;
    }

    /** What the getters show. */
    function View(): (c: Car)
      reads this
      ensures c.floor == currentFloor && c.status == status && c.direction == direction
    {
      Car(status, direction, currentFloor)
    }

    method SetSystem(s: ElevatorSystem?)
      modifies this`system
      ensures system == s
    {
      system := s;
    }

    /**
     * MOVING, then IDLE again at `floor` (not checked against any range); the
     * direction is never changed, and the panel shows the new floor.
     */
    method MoveToFloor(floor: int)
      modifies this`currentFloor, this`status, panel`currentFloor, panel`direction
      ensures currentFloor == floor && status == Status.Idle
      ensures View() == Arrived(old(View()), floor)
      ensures panel.currentFloor == floor && panel.direction == direction
    {
      currentFloor := floor;
      status := Status.Moving;
      status := Status.Idle;
      panel.Display(currentFloor, direction);
    }

    /** Door signals only announce themselves, with the current floor; they change no state. */
    method OpenDoor() returns (floor: int)
      ensures floor == currentFloor
    {
      floor := currentFloor;
    }

    method CloseDoor() returns (floor: int)
      ensures floor == currentFloor
    {
      floor := currentFloor;
    }
  }

  /** The call panel of one floor. */
  class ExternalPanel {
    var upPressed: bool
    var downPressed: bool
    const floorNumber: int
    const system: ElevatorSystem

    constructor (floorNumber: int, system: ElevatorSystem)
      ensures this.floorNumber == floorNumber && this.system == system
      ensures !upPressed && !downPressed
    {
      upPressed := false;
      downPressed := false;
      this.floorNumber := floorNumber;
      this.system := system;
    }

    /** Sets the (never cleared) UP flag and queues one request per press. */
    method PressUp()
      requires system.Valid()
      modifies this`upPressed, system`queue
      ensures upPressed && downPressed == old(downPressed)
      ensures system.Valid() && system.queue == old(system.queue) + [External(floorNumber, Direction.Up)]
    {
      upPressed := true;
      system.RequestElevator(floorNumber, Direction.Up);
    }

    /** Sets the (never cleared) DOWN flag and queues one request per press. */
    method PressDown()
      requires system.Valid()
      modifies this`downPressed, system`queue
      ensures downPressed && upPressed == old(upPressed)
      ensures system.Valid() && system.queue == old(system.queue) + [External(floorNumber, Direction.Down)]
    {
      downPressed := true;
      system.RequestElevator(floorNumber, Direction.Down);
    }
  }

  /** A floor: its number, its call panel (same number, same system) and its system. */
  class Floor {
    const floorNumber: int
    const externalPanel: ExternalPanel
    const system: ElevatorSystem

    constructor (floorNumber: int, system: ElevatorSystem)
      ensures this.floorNumber == floorNumber && this.system == system
      ensures fresh(externalPanel)
      ensures externalPanel.floorNumber == floorNumber && externalPanel.system == system
      ensures !externalPanel.upPressed && !externalPanel.downPressed
    {
      this.floorNumber := floorNumber;
      this.system := system;
      externalPanel := new ExternalPanel(floorNumber, system);
    }
  }

  /** The getter view of a list of elevators. */
  function Views(es: seq<Elevator>): (r: seq<Car>)
    reads es
    ensures |r| == |es| && forall i :: 0 <= i < |es| ==> r[i] == es[i].View()
  {
    seq(|es|, i requires 0 <= i < |es| reads es => es[i].View())
  }

  class ElevatorSystem {
    var floors: seq<Floor>
    var elevators: seq<Elevator>
    var strategy: Dispatcher
    var queue: seq<Task>

    ghost function Panels(): set<InternalPanel>
      reads this`elevators
    {
      set i | 0 <= i < |elevators| :: elevators[i].panel
    }

    /**
     * Floors are numbered by position and bound (with their call panels) to
     * this system; the elevators are distinct, bound to this system and to their
     * own panels, IDLE with direction IDLE, and their panels show their state.
     */
    ghost predicate Wired()
      reads this`floors, this`elevators, elevators, Panels()
    {
      (forall i :: 0 <= i < |floors| ==>
        floors[i].floorNumber == i && floors[i].system == this &&
        floors[i].externalPanel.floorNumber == i && floors[i].externalPanel.system == this) &&
      (forall i, j :: 0 <= i < j < |elevators| ==> elevators[i] != elevators[j]) &&
      (forall i :: 0 <= i < |elevators| ==>
        elevators[i].system == this && elevators[i].panel.elevator == elevators[i] &&
        elevators[i].status == Status.Idle && elevators[i].direction == Direction.Idle &&
        elevators[i].panel.currentFloor == elevators[i].currentFloor &&
        elevators[i].panel.direction == elevators[i].direction)
    }

    /** The system is wired, and every queued internal request names an elevator of the fleet. */
    ghost predicate Valid()
      reads this, elevators, Panels()
    {
      Wired() && Targets(queue, |elevators|)
    }

    /** What the strategy sees of the fleet. */
    function Cars(): (r: seq<Car>)
      reads this`elevators, elevators
      ensures |r| == |elevators|
    {
      Views(elevators)
    }

    constructor (numFloors: int, numElevators: int, strategy: Dispatcher, counter: IdCounter)
      modifies counter
      ensures Valid()
      ensures |floors| == (if numFloors < 0 then 0 else numFloors)
      ensures |elevators| == (if numElevators < 0 then 0 else numElevators)
      ensures counter.last == old(counter.last) + |elevators|
      ensures forall i :: 0 <= i < |elevators| ==>
        elevators[i].id == old(counter.last) + 1 + i && elevators[i].currentFloor == 0 &&
        |elevators[i].panel.floorButtons| == |floors|
      ensures forall i :: 0 <= i < |floors| ==>
        fresh(floors[i]) && fresh(floors[i].externalPanel) &&
        !floors[i].externalPanel.upPressed && !floors[i].externalPanel.downPressed
      ensures forall i :: 0 <= i < |elevators| ==> fresh(elevators[i]) && fresh(elevators[i].panel)
      ensures this.strategy == strategy && queue == []
    {
      floors := [];
      elevators := [];
      this.strategy := strategy;
      queue := [];
      new;
      var i := 0;
      while i < numFloors
        invariant 0 <= i <= (if numFloors < 0 then 0 else numFloors) && |floors| == i
        invariant elevators == [] && queue == [] && this.strategy == strategy
        invariant counter.last == old(counter.last)
        invariant forall k :: 0 <= k < i ==>
          floors[k].floorNumber == k && floors[k].system == this &&
          floors[k].externalPanel.floorNumber == k && floors[k].externalPanel.system == this &&
          fresh(floors[k]) && fresh(floors[k].externalPanel) &&
          !floors[k].externalPanel.upPressed && !floors[k].externalPanel.downPressed
      {
        var floor := new Floor(i, this);
        floors := floors + [floor];
        i := i + 1;
      }
      i := 0;
      while i < numElevators
        invariant 0 <= i <= (if numElevators < 0 then 0 else numElevators) && |elevators| == i
        invariant counter.last == old(counter.last) + i
        invariant queue == [] && this.strategy == strategy
        invariant |floors| == (if numFloors < 0 then 0 else numFloors)
        invariant forall k :: 0 <= k < |floors| ==>
          fresh(floors[k]) && fresh(floors[k].externalPanel) &&
          !floors[k].externalPanel.upPressed && !floors[k].externalPanel.downPressed &&
          floors[k].floorNumber == k && floors[k].system == this &&
          floors[k].externalPanel.floorNumber == k && floors[k].externalPanel.system == this
        invariant forall a, b :: 0 <= a < b < i ==> elevators[a] != elevators[b]
        invariant forall k :: 0 <= k < i ==>
          fresh(elevators[k]) && fresh(elevators[k].panel) &&
          elevators[k].id == old(counter.last) + 1 + k && elevators[k].currentFloor == 0 &&
          |elevators[k].panel.floorButtons| == |floors| &&
          elevators[k].system == this && elevators[k].panel.elevator == elevators[k] &&
          elevators[k].status == Status.Idle && elevators[k].direction == Direction.Idle &&
          elevators[k].panel.currentFloor == 0 && elevators[k].panel.direction == Direction.Idle
      {
        var elevator := new Elevator(numFloors, counter);
        elevator.SetSystem(this);
        elevators := elevators + [elevator];
        i := i + 1;
      }
    }

    method SetStrategy(s: Dispatcher)
      requires Valid()
      modifies this`strategy
      ensures Valid() && strategy == s
    {
      strategy := s;
    }

    /** Queues an external request; nothing is dispatched yet. */
    method RequestElevator(floor: int, direction: Direction)
      requires Valid()
      modifies this`queue
      ensures Valid() && queue == old(queue) + [External(floor, direction)]
    {
      queue := queue + [External(floor, direction)];
    }

    /** Queues a request that `elevator` itself will serve, bypassing the strategy. */
    method QueueInternalRequest(elevator: Elevator, floor: int)
      requires Valid() && elevator in elevators
      modifies this`queue
      ensures Valid() && queue == old(queue) + [Internal(FirstIndex(elevators, elevator), floor)]
    {
      queue := queue + [Internal(FirstIndex(elevators, elevator), floor)];
    }

    /** Runs one queued task, reading the strategy installed now. */
    method Run(t: Task)
      requires Valid() && (t.Internal? ==> t.elevator < |elevators|)
      modifies elevators, Panels()
      ensures Valid() && Cars() == Apply(old(Cars()), t, strategy)
    {
      var pick := ServedBy(Cars(), t, strategy);
      if pick.Some? {
        var e := elevators[pick.value];
        e.MoveToFloor(t.floor);
        var openedAt := e.OpenDoor();
        var closedAt := e.CloseDoor();
      }
    }

    /** Drains the queue in FIFO order until it is empty. */
    method ProcessRequests()
      requires Valid()
      modifies this`queue, elevators, Panels()
      ensures Valid() && queue == []
      ensures Cars() == Drain(old(Cars()), old(queue), strategy)
    {
      ghost var target := Drain(Cars(), queue, strategy);
      while queue != []
        invariant Valid()
        invariant Drain(Cars(), queue, strategy) == target
        decreases |queue|
      {
        var t := queue[0];
        ghost var before := Cars();
        DrainStep(before, queue, strategy);
        queue := queue[1..];
        assert Cars() == before;
        Run(t);
      }
    }
  }

  /**
   * The static fields: `ElevatorSystem.instance` and `Elevator.idCounter`.
   */
  class Statics {
    var instance: ElevatorSystem?
    const idCounter: IdCounter

    constructor ()
      ensures instance == null && fresh(idCounter) && idCounter.last == 0
    {
      instance := null;
      idCounter := new IdCounter();
    }

    /** First call wins: later calls return the same system and ignore their arguments. */
    method GetInstance(numFloors: int, numElevators: int, strategy: Dispatcher) returns (s: ElevatorSystem)
      modifies this`instance, idCounter
      ensures instance == s
      ensures old(instance) != null ==> s == old(instance) && idCounter.last == old(idCounter.last)
      ensures old(instance) == null ==>
        fresh(s) && s.Valid() && s.strategy == strategy && s.queue == [] &&
        |s.floors| == (if numFloors < 0 then 0 else numFloors) &&
        |s.elevators| == (if numElevators < 0 then 0 else numElevators) &&
        (forall i :: 0 <= i < |s.floors| ==> fresh(s.floors[i]) && fresh(s.floors[i].externalPanel)) &&
        (forall i :: 0 <= i < |s.elevators| ==>
          fresh(s.elevators[i]) && fresh(s.elevators[i].panel) &&
          s.elevators[i].currentFloor == 0 && s.elevators[i].id == old(idCounter.last) + 1 + i)
    {
      if instance == null {
        instance := new ElevatorSystem(numFloors, numElevators, strategy, idCounter);
      }
      s := instance;
    }
  }
}
