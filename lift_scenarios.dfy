/** Whole-system runs of the elevator subsystem, stated through the classes' contracts. */
module LiftScenarios {
  import opened Options
  import opened LiftState
  import opened Lift
  import opened DispatchStrategy
  import opened Sequences

  function Parked(floor: int): Car {
    Car(Status.Idle, Direction.Idle, floor)
  }

  /**
   * Two cars at floor 0: a call from floor 3 going up takes the first. An
   * in-cab request to floor 0 moves car 1 from wherever it is, even when
   * car 0 is nearer, and leaves car 0 alone.
   */
  lemma TwoCarCall()
    ensures Drain([Parked(0), Parked(0)], [External(3, Direction.Up)], Directional) == [Parked(3), Parked(0)]
    ensures Drain([Parked(1), Parked(2)], [Internal(1, 0)], Directional) == [Parked(1), Parked(0)]
  {
    assert Nearest([Parked(0), Parked(0)], 3, Direction.Up) == Some(0);
  }

  /** The requests the demonstration driver queues, in its order. */
  const DemoQueue: seq<Task> := [
    External(1, Direction.Up), Internal(0, 4), External(4, Direction.Down),
    External(1, Direction.Up), External(0, Direction.Up), External(3, Direction.Down),
    Internal(1, 2), Internal(0, 1), Internal(1, 0)]

  /** Between two IDLE cars in range, the strictly nearer one answers; on a tie, the first. */
  lemma NearestOfTwo(a: Car, b: Car, floor: int, direction: Direction)
    requires a.status == Status.Idle && b.status == Status.Idle
    requires Distance(a, floor) < IntMax && Distance(b, floor) < IntMax
    ensures Nearest([a, b], floor, direction) == if Distance(b, floor) < Distance(a, floor) then Some(1) else Some(0)
  {
    ghost var r := Nearest([a, b], floor, direction);
    assert Eligible([a, b][0], direction) && Eligible([a, b][1], direction);
  }

  /** Draining a queue runs its head task first. */
  lemma DrainHead(cars: seq<Car>, t: Task, rest: seq<Task>, next: seq<Car>)
    requires (t.Internal? ==> t.elevator < |cars|) && Targets(rest, |cars|)
    requires Apply(cars, t, Directional) == next
    ensures Targets([t] + rest, |cars|)
    ensures Drain(cars, [t] + rest, Directional) == Drain(next, rest, Directional)
  {
    assert ([t] + rest)[0] == t && ([t] + rest)[1..] == rest;
    assert forall k :: 0 < k < |[t] + rest| ==> ([t] + rest)[k] == rest[k - 1];
  }

  /** One external call on two parked cars, answered by the nearer (the first on a tie). */
  lemma CallOnTwo(x: int, y: int, floor: int, direction: Direction)
    requires -IntMax < x - floor < IntMax && -IntMax < y - floor < IntMax
    ensures Apply([Parked(x), Parked(y)], External(floor, direction), Directional)
      == if Distance(Parked(y), floor) < Distance(Parked(x), floor) then [Parked(x), Parked(floor)]
         else [Parked(floor), Parked(y)]
  {
    NearestOfTwo(Parked(x), Parked(y), floor, direction);
  }

  /** The first three demonstration requests: car 0 goes to 1, then 4, and answers the call at 4. */
  lemma DemoFirstThree()
    ensures Drain([Parked(0), Parked(0)],
                  [External(1, Direction.Up), Internal(0, 4), External(4, Direction.Down)], Directional)
         == [Parked(4), Parked(0)]
  {
    CallOnTwo(4, 0, 4, Direction.Down);
    DrainHead([Parked(4), Parked(0)], External(4, Direction.Down), [], [Parked(4), Parked(0)]);
    DrainHead([Parked(1), Parked(0)], Internal(0, 4), [External(4, Direction.Down)], [Parked(4), Parked(0)]);
    CallOnTwo(0, 0, 1, Direction.Up);
    DrainHead([Parked(0), Parked(0)], External(1, Direction.Up),
              [Internal(0, 4), External(4, Direction.Down)], [Parked(1), Parked(0)]);
  }

  /** The next three: car 1 answers floors 1 and 0, car 0 answers floor 3. */
  lemma DemoNextThree()
    ensures Drain([Parked(4), Parked(0)],
                  [External(1, Direction.Up), External(0, Direction.Up), External(3, Direction.Down)], Directional)
         == [Parked(3), Parked(0)]
  {
    CallOnTwo(4, 0, 3, Direction.Down);
    DrainHead([Parked(4), Parked(0)], External(3, Direction.Down), [], [Parked(3), Parked(0)]);
    CallOnTwo(4, 1, 0, Direction.Up);
    DrainHead([Parked(4), Parked(1)], External(0, Direction.Up), [External(3, Direction.Down)], [Parked(4), Parked(0)]);
    CallOnTwo(4, 0, 1, Direction.Up);
    DrainHead([Parked(4), Parked(0)], External(1, Direction.Up),
              [External(0, Direction.Up), External(3, Direction.Down)], [Parked(4), Parked(1)]);
  }

  /** The in-cab requests at the end: car 1 to 2, car 0 to 1, car 1 to 0. */
  lemma DemoLastThree()
    ensures Drain([Parked(3), Parked(0)], [Internal(1, 2), Internal(0, 1), Internal(1, 0)], Directional)
         == [Parked(1), Parked(0)]
  {
    DrainHead([Parked(1), Parked(2)], Internal(1, 0), [], [Parked(1), Parked(0)]);
    DrainHead([Parked(3), Parked(2)], Internal(0, 1), [Internal(1, 0)], [Parked(1), Parked(2)]);
    DrainHead([Parked(3), Parked(0)], Internal(1, 2), [Internal(0, 1), Internal(1, 0)], [Parked(3), Parked(2)]);
  }

  /** Draining the demonstration queue on two cars at floor 0 leaves them at floors 1 and 0. */
  lemma DemoDrain()
    ensures Drain([Parked(0), Parked(0)], DemoQueue, Directional) == [Parked(1), Parked(0)]
  {
    var first := [External(1, Direction.Up), Internal(0, 4), External(4, Direction.Down)];
    var next := [External(1, Direction.Up), External(0, Direction.Up), External(3, Direction.Down)];
    var last := [Internal(1, 2), Internal(0, 1), Internal(1, 0)];
    assert DemoQueue == first + (next + last);
    DrainConcat([Parked(0), Parked(0)], first, next + last, Directional);
    DemoFirstThree();
    DrainConcat([Parked(4), Parked(0)], next, last, Directional);
    DemoNextThree();
    DemoLastThree();
  }

  /**
   * Pressing UP twice on one floor: the flag stays set after the first press
   * and the DOWN flag is untouched, but each press queues its own request.
   */
  method PressUpTwice(panel: ExternalPanel)
    requires panel.system.Valid()
    modifies panel`upPressed, panel.system`queue
    ensures panel.upPressed && panel.downPressed == old(panel.downPressed)
    ensures panel.system.Valid()
    ensures panel.system.queue == old(panel.system.queue)
      + [External(panel.floorNumber, Direction.Up), External(panel.floorNumber, Direction.Up)]
  {
    panel.PressUp();
    panel.PressUp();
  }

  /** The call panels of the system's floors. */
  ghost function CallPanels(system: ElevatorSystem): set<ExternalPanel>
    reads system
  {
    set i | 0 <= i < |system.floors| :: system.floors[i].externalPanel
  }

  /** The first three requests of the demonstration driver. */
  method DemoFirstRequests(system: ElevatorSystem)
    requires system.Valid() && |system.floors| == 5 && |system.elevators| == 2 && system.queue == []
    modifies system`queue, CallPanels(system)
    ensures system.Valid()
    ensures system.queue == [External(1, Direction.Up), Internal(0, 4), External(4, Direction.Down)]
  {
    var p1, p4 := system.floors[1].externalPanel, system.floors[4].externalPanel;
    assert p1.floorNumber == 1 && p1.system == system && p4.floorNumber == 4 && p4.system == system;
    var c0 := system.elevators[0].panel;
    assert c0.elevator == system.elevators[0];
    assert FirstIndex(system.elevators, system.elevators[0]) == 0;
    p1.PressUp();
    c0.RequestFloor(4);
    p4.PressDown();
  }

  /** The next three: calls from floors 1 (up), 0 (up) and 3 (down). */
  method DemoNextRequests(system: ElevatorSystem)
    requires system.Valid() && |system.floors| == 5
    modifies system`queue, CallPanels(system)
    ensures system.Valid()
    ensures system.queue
      == old(system.queue) + [External(1, Direction.Up), External(0, Direction.Up), External(3, Direction.Down)]
  {
    var p0, p1, p3 := system.floors[0].externalPanel, system.floors[1].externalPanel, system.floors[3].externalPanel;
    assert p0.floorNumber == 0 && p0.system == system && p1.floorNumber == 1 && p1.system == system;
    assert p3.floorNumber == 3 && p3.system == system;
    p1.PressUp();
    p0.PressUp();
    p3.PressDown();
  }

  /** The last three: car 1 to floor 2, car 0 to floor 1, car 1 to floor 0. */
  method DemoLastRequests(system: ElevatorSystem)
    requires system.Valid() && |system.elevators| == 2
    modifies system`queue
    ensures system.Valid()
    ensures system.queue == old(system.queue) + [Internal(1, 2), Internal(0, 1), Internal(1, 0)]
  {
    var e0, e1 := system.elevators[0], system.elevators[1];
    assert e0.panel.elevator == e0 && e1.panel.elevator == e1 && e0.system == system && e1.system == system;
    assert FirstIndex(system.elevators, e0) == 0 && FirstIndex(system.elevators, e1) == 1;
    e1.panel.RequestFloor(2);
    e0.panel.RequestFloor(1);
    e1.panel.RequestFloor(0);
  }

  /** Queues the whole demonstration; no elevator moves yet. */
  method DemoRequests(system: ElevatorSystem)
    requires system.Valid() && |system.floors| == 5 && |system.elevators| == 2 && system.queue == []
    modifies system`queue, CallPanels(system)
    ensures system.Valid() && system.queue == DemoQueue
  {
    DemoFirstRequests(system);
    DemoNextRequests(system);
    DemoLastRequests(system);
  }

  /** Drains the queued demonstration: the cars end at floors 1 and 0. */
  method DemoRun(system: ElevatorSystem)
    requires system.Valid() && system.queue == DemoQueue
    requires system.Cars() == [Parked(0), Parked(0)]
    modifies system`queue, system.elevators, system.Panels()
    ensures system.Cars() == [Parked(1), Parked(0)]
  {
    system.ProcessRequests();
    DemoDrain();
  }

  /** Queues the demonstration on two parked cars, then drains it. */
  method DemoOnSystem(system: ElevatorSystem)
    requires system.Valid() && |system.floors| == 5 && |system.elevators| == 2 && system.queue == []
    requires system.Cars() == [Parked(0), Parked(0)]
    modifies system`queue, CallPanels(system), system.elevators, system.Panels()
    ensures system.Cars() == [Parked(1), Parked(0)]
  {
    DemoRequests(system);
    DemoRun(system);
  }

  /**
   * The demonstration driver: five floors, two elevators, the directional
   * strategy; the queued presses and in-cab requests, then one drain. The two
   * elevators end at floors 1 and 0.
   */
  method Demo() returns (finalFloors: seq<int>)
    ensures finalFloors == [1, 0]
  {
    var statics := new Statics();
    var system := statics.GetInstance(5, 2, Directional);
    var elevators := system.elevators;
    assert system.Cars() == [Parked(0), Parked(0)];
    DemoOnSystem(system);
    assert system.Cars()[0].floor == 1 && system.Cars()[1].floor == 0;
    finalFloors := [elevators[0].currentFloor, elevators[1].currentFloor];
  }

  /**
   * A call from floor 3 queued under one strategy and drained after switching
   * to one that never finds an elevator is dropped: no elevator moves.
   */
  method QueueThenSwitch(system: ElevatorSystem)
    requires system.Valid() && system.queue == []
    modifies system`queue, system`strategy, system.elevators, system.Panels()
    ensures system.Valid() && system.queue == [] && system.strategy == NoElevator
    ensures system.Cars() == old(system.Cars())
  {
    ghost var cars := system.Cars();
    system.RequestElevator(3, Direction.Up);
    system.SetStrategy(NoElevator);
    NothingAnswers(cars, 3, Direction.Up);
    system.ProcessRequests();
  }

  /** Under the strategy that never finds an elevator, a queued call moves nobody. */
  lemma NothingAnswers(cars: seq<Car>, floor: int, direction: Direction)
    ensures Targets([External(floor, direction)], |cars|)
    ensures Drain(cars, [External(floor, direction)], NoElevator) == cars
  {
    DrainStep(cars, [External(floor, direction)], NoElevator);
  }

  /**
   * The strategy is read when a request runs, not when it was queued: on a
   * new system under the directional strategy, a call queued before the
   * switch to a strategy that never finds an elevator leaves both cars at 0.
   */
  method SwitchBeforeDrain() returns (finalFloors: seq<int>)
    ensures finalFloors == [0, 0]
  {
    var counter := new IdCounter();
    var system := new ElevatorSystem(5, 2, Directional, counter);
    var elevators := system.elevators;
    assert system.Cars() == [Parked(0), Parked(0)];
    QueueThenSwitch(system);
    assert elevators[0].View() == Parked(0) && elevators[1].View() == Parked(0);
    finalFloors := [elevators[0].currentFloor, elevators[1].currentFloor];
  }
}
