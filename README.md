# Elevator dispatch, tic-tac-toe, stock alerts and orders — a Dafny model

This project models the core of a Java repository of low-level design exercises.

**Elevator dispatch** is the centre. An `ElevatorSystem` owns a list of floors, a list of elevators, a dispatch strategy and a FIFO queue of pending requests:

- The up/down buttons of a floor's `ExternalPanel` queue *external* requests.
- The in-cab `InternalPanel` queues *internal* requests.
- `processRequests` drains the queue in order.
- An external request asks the strategy that is installed *when it runs* for an elevator. The `DirectionalStrategy` picks the nearest eligible elevator, and the earliest one wins a tie.
- An internal request moves the elevator whose panel queued it.
- `Elevator.moveToFloor` goes MOVING and then IDLE again at the target floor, and refreshes the cab display.

Java's queued `Runnable` closures become the datatype `Task = External(floor, direction) | Internal(elevator, floor)`. An internal task names the elevator by its position in the fleet. The fleet never changes after construction and holds no elevator twice, so for an elevator of the fleet that position and the object pick out the same car. Elevators outside the fleet are not covered (see "Left out"). What the strategy reads of each elevator (status, direction, current floor) is the value `Car`.

Four smaller exercises are modelled beside it:

- the bounds-checked tic-tac-toe board and its game loop (`practice/ticTacToe`);
- the unchecked board and the deque-based game (`tietactoe`);
- the stock observable, which alerts its subscribers when stock comes back from zero;
- an order book that accepts an order only when every product it names is in the catalogue.

The modules, one per component:

| file | module | models |
|---|---|---|
| `options.dfy` | `Options` | a nullable reference as `Option` |
| `sequences.dfy` | `Sequences` | `FirstIndex`, the first position of a value in a list |
| `lift_state.dfy` | `LiftState` | directions, statuses, the `Car` view, tasks, the meaning of one task (`Apply`) and of a drain (`Drain`) |
| `dispatch_strategy.dfy` | `DispatchStrategy` | the directional strategy: the pure fold `Scan`/`Nearest` and the loop `SelectElevator` |
| `lift.dfy` | `Lift` | the classes `Elevator`, `InternalPanel`, `ExternalPanel`, `Floor`, `ElevatorSystem` and the static fields |
| `lift_scenarios.dfy` | `LiftScenarios` | the demonstration driver and a strategy switch between queueing and draining |
| `grid.dfy` | `Grid` | square boards as values: winning lines, fullness, free cells |
| `tictactoe_game.dfy` | `TicTacToeGame` | `practice/ticTacToe/Game`: `Board` and `Game` |
| `tietactoe.dfy` | `TieTacToe` | `tietactoe`: `Board` and `TicTacToe` |
| `observable.dfy` | `StockObservable` | `IPhoneObservable` with a trace of alerts |
| `order_management.dfy` | `OrderManagement` | `OrderManagement` with two maps |

## Model

| member | source | states |
|---|---|---|
| `LiftState.Apply` | practice/elevatorDesign/Lift/ElevatorSystem.java:32-52 | one task moves only its serving elevator: the strategy's pick for an external task, or the elevator that queued an internal one. That elevator ends IDLE at the task's floor with its direction kept. Every other elevator is unchanged. A task with no pick changes nothing. |
| `LiftState.Drain` | practice/elevatorDesign/Lift/ElevatorSystem.java:53-57 | a drain keeps the fleet size. Its head-first order is what `DrainConcat` and `ProcessRequests` state. |
| `LiftState.DrainConcat` | practice/elevatorDesign/Lift/ElevatorSystem.java:53-57 | FIFO: draining `a + b` equals draining `a` and then draining `b` from the result |
| `LiftState.DrainStep` | practice/elevatorDesign/Lift/ElevatorSystem.java:53-57 | one pass of the `processRequests` loop: draining a non-empty queue runs its head task on the fleet, then drains the rest |
| `LiftState.InternalIgnoresStrategy` | practice/elevatorDesign/Lift/ElevatorSystem.java:45-51 | an internal task gives the same fleet under any two strategies, and its elevator ends at the task's floor |
| `DispatchStrategy.ScanIsNearest` | practice/elevatorDesign/Lift/DispatchStrategy/DirectionalStrategy.java:19-29 | after k elevators, `best` is eligible and at distance `minDist`. No eligible elevator seen so far is nearer, and every earlier eligible one is strictly farther. `best` is null iff every eligible one seen is at least `Integer.MAX_VALUE` away. |
| `DispatchStrategy.Scan` | practice/elevatorDesign/Lift/DispatchStrategy/DirectionalStrategy.java:19-29 | the loop state `(best, minDist)` after k elevators; a pick is always among those seen |
| `DispatchStrategy.Eligible` | practice/elevatorDesign/Lift/DispatchStrategy/DirectionalStrategy.java:22 | an IDLE car is always eligible. A busy car is eligible iff it is heading the requested way. |
| `DispatchStrategy.Distance` | practice/elevatorDesign/Lift/DispatchStrategy/DirectionalStrategy.java:23 | `Math.abs` of the floor difference: one of the two differences, never negative, and 0 iff the car is at the floor |
| `DispatchStrategy.Nearest` | practice/elevatorDesign/Lift/DispatchStrategy/DirectionalStrategy.java:17-31 | the pick lies in the fleet and is IDLE or heading the requested way. It minimises the distance over all eligible elevators, and the earliest one wins a tie. None iff no eligible elevator is within `Integer.MAX_VALUE`, so an empty fleet gives none. |
| `DispatchStrategy.SelectElevator` | practice/elevatorDesign/Lift/DispatchStrategy/DirectionalStrategy.java:17-31 | the loop over the live elevator objects returns the elevator at `Nearest`'s position, or null. It changes nothing (no `modifies`). |
| `DispatchStrategy.AlwaysAnswered` | practice/elevatorDesign/Lift/DispatchStrategy/DirectionalStrategy.java:22-30 | since `direction` is never assigned, every elevator is IDLE and eligible, so a non-empty fleet within range always answers a call |
| `Lift.Buttons` | practice/elevatorDesign/Lift/InternalPanel.java:14-15 | exactly the numbers 0, 1, …, n-1 in order (none when n ≤ 0) |
| `Lift.IdCounter.constructor` | practice/elevatorDesign/Lift/Elevator.java:5 | the shared id counter starts at 0 |
| `Lift.InternalPanel.constructor` | practice/elevatorDesign/Lift/InternalPanel.java:11-17 | a new panel shows floor 0 and direction IDLE, and its buttons are `Buttons(numFloors)`, that is 0..numFloors-1 |
| `Lift.InternalPanel.Display` | practice/elevatorDesign/Lift/InternalPanel.java:18-22 | the display shows the given floor and direction |
| `Lift.InternalPanel.RequestFloor` | practice/elevatorDesign/Lift/InternalPanel.java:23-26 | queues exactly one internal task for the owning elevator and floor. The floor is not checked against the buttons, and the panel's own fields are untouched. |
| `Lift.Elevator.constructor` | practice/elevatorDesign/Lift/Elevator.java:4-15 | the id is the previous counter plus one, and the counter advances to it. The elevator starts IDLE, direction IDLE, at floor 0, with a fresh panel bound to it. |
| `Lift.Elevator.View` | practice/elevatorDesign/Lift/Elevator.java:29-31 | the getters: the view holds exactly the current floor, status and direction |
| `Lift.Elevator.OpenDoor` | practice/elevatorDesign/Lift/Elevator.java:27 | announces the current floor and changes nothing |
| `Lift.Elevator.CloseDoor` | practice/elevatorDesign/Lift/Elevator.java:28 | announces the current floor and changes nothing |
| `Lift.Elevator.SetSystem` | practice/elevatorDesign/Lift/Elevator.java:16 | binds the elevator to the given system |
| `Lift.Elevator.MoveToFloor` | practice/elevatorDesign/Lift/Elevator.java:19-26 | afterwards the current floor is the target (no range check) and the status is IDLE. The direction is unchanged, and the panel shows (target, direction). |
| `Lift.ExternalPanel.constructor` | practice/elevatorDesign/Lift/ExternalPanel.java:5-12 | both flags start false; the panel keeps its floor number and system |
| `Lift.ExternalPanel.PressUp` | practice/elevatorDesign/Lift/ExternalPanel.java:13-17 | sets `upPressed` and leaves `downPressed` alone. It queues exactly (floorNumber, UP), and no elevator moves. |
| `Lift.ExternalPanel.PressDown` | practice/elevatorDesign/Lift/ExternalPanel.java:18-22 | sets `downPressed` and leaves `upPressed` alone. It queues exactly (floorNumber, DOWN), and no elevator moves. |
| `Lift.Floor.constructor` | practice/elevatorDesign/Lift/Floor.java:8-12 | the floor keeps its number and system, and its new call panel carries the same number and system. All its fields are constants. |
| `Lift.Views` | practice/elevatorDesign/Lift/Elevator.java:29-31 | the getter view of each elevator, position by position |
| `Lift.ElevatorSystem.Cars` | practice/elevatorDesign/Lift/ElevatorSystem.java:59 | what the strategy is shown of the live elevator list, one entry per elevator |
| `Lift.ElevatorSystem.constructor` | practice/elevatorDesign/Lift/ElevatorSystem.java:14-24 | builds floors numbered 0..numFloors-1 in order, and numElevators fresh elevators at floor 0 with consecutive ids. Every floor, call panel and elevator is bound to this system. The strategy is bound and the queue is empty. |
| `Lift.ElevatorSystem.SetStrategy` | practice/elevatorDesign/Lift/ElevatorSystem.java:29-31 | replaces the strategy; queued tasks are not touched |
| `Lift.ElevatorSystem.RequestElevator` | practice/elevatorDesign/Lift/ElevatorSystem.java:32-44 | appends exactly one external task; no elevator or floor changes |
| `Lift.ElevatorSystem.QueueInternalRequest` | practice/elevatorDesign/Lift/ElevatorSystem.java:45-52 | appends exactly one internal task naming the given elevator; no elevator changes |
| `Lift.ElevatorSystem.Run` | practice/elevatorDesign/Lift/ElevatorSystem.java:33-51 | runs one task with the strategy installed now. The fleet becomes `Apply` of the old fleet, and the door signals change nothing. |
| `Lift.ElevatorSystem.ProcessRequests` | practice/elevatorDesign/Lift/ElevatorSystem.java:53-57 | ends with the queue empty and the fleet equal to `Drain` of the old fleet and old queue, in FIFO order |
| `Lift.Statics.constructor` | practice/elevatorDesign/Lift/ElevatorSystem.java:9 | no system instance yet; the id counter is at 0 |
| `Lift.Statics.GetInstance` | practice/elevatorDesign/Lift/ElevatorSystem.java:25-28 | first call wins: the first call builds the system. Later calls return the same instance, ignore their arguments and use no ids. |
| `LiftScenarios.TwoCarCall` | practice/elevatorDesign/Lift/ElevatorSystem.java:32-57 | two cars at floor 0: a call from 3 going UP takes car 0. An in-cab request to 0 moves car 1 from floor 2, although car 0 at floor 1 is nearer, and car 0 stays. |
| `LiftScenarios.NearestOfTwo` | practice/elevatorDesign/Lift/DispatchStrategy/DirectionalStrategy.java:21-27 | of two IDLE cars the strictly nearer answers, and the first on a tie |
| `LiftScenarios.CallOnTwo` | practice/elevatorDesign/Lift/ElevatorSystem.java:32-43 | a call on two IDLE cars sends the strictly nearer one to the floor, or the first on a tie, and leaves the other where it is |
| `LiftScenarios.DemoDrain` | practice/elevatorDesign/Main.java:18-31 | draining the driver's nine requests on two cars at floor 0 leaves them at floors 1 and 0 |
| `LiftScenarios.PressUpTwice` | practice/elevatorDesign/Lift/ExternalPanel.java:13-17 | two presses set the flag once but queue two requests |
| `LiftScenarios.DemoRequests` | practice/elevatorDesign/Main.java:18-28 | the driver's presses and in-cab requests queue exactly `DemoQueue` |
| `LiftScenarios.DemoRun` | practice/elevatorDesign/Main.java:31 | `processRequests` on the driver's queue, with both cars parked at floor 0, leaves them at floors 1 and 0 |
| `LiftScenarios.DemoOnSystem` | practice/elevatorDesign/Main.java:18-31 | on any 5-floor, 2-car system with an empty queue and both cars at floor 0, the driver's requests and drain leave the cars at floors 1 and 0 |
| `LiftScenarios.Demo` | practice/elevatorDesign/Main.java:8-31 | the whole driver, from `getInstance(5, 2, DirectionalStrategy)`, ends with the elevators at floors 1 and 0 |
| `LiftScenarios.SwitchBeforeDrain` | practice/elevatorDesign/Lift/ElevatorSystem.java:29-34 | a call queued before `setStrategy` is answered by the new strategy. Switching to one that finds nothing drops it, and no car moves. |
| `LiftScenarios.QueueThenSwitch` | practice/elevatorDesign/Lift/ElevatorSystem.java:29-57 | a call is queued, the strategy is switched to one that never picks, and the queue is drained. The queue ends empty, the new strategy is stored and no car moves. |
| `LiftScenarios.NothingAnswers` | practice/elevatorDesign/Lift/ElevatorSystem.java:33-42 | under a strategy that returns null, draining a single call leaves every car as it was |
| `Grid.Place` | practice/ticTacToe/Game/Board.java:16 | the board with one piece added: that cell becomes the piece, every other cell is kept |
| `Grid.Snapshot` | practice/ticTacToe/Game/Board.java:5 | a square 2-D array read as a board value, cell by cell |
| `Grid.LastMoveWin` | tietactoe/TicTacToe.java:54-56 | if the mover had no line before, a move creates a winning line exactly when its own row, its own column or a diagonal is full. So the local check of `isThereWinner` agrees with the whole-board check. |
| `Grid.FreeCellsExact` | tietactoe/Board.java:37-49 | the free-cell list holds exactly the empty cells, strictly increasing in row-major order (so each appears once) |
| `Grid.PlaceTakesOneFreeCell` | tietactoe/Board.java:19-20 | filling an empty cell shortens the free-cell list by exactly one |
| `Grid.FullIffNoFreeCell` | practice/ticTacToe/Game/Board.java:38-45 | a board is full iff it has no free cell |
| `Grid.SameGrid` | practice/ticTacToe/Game/Board.java:5 | two square boards of one size that agree on every cell are equal |
| `TicTacToeGame.Board.constructor` | practice/ticTacToe/Game/Board.java:6-9 | a new size×size board has every cell empty |
| `TicTacToeGame.Board.IsCellEmpty` | practice/ticTacToe/Game/Board.java:10-12 | true iff the cell of the board's value is empty |
| `TicTacToeGame.Board.PlacePiece` | practice/ticTacToe/Game/Board.java:10-18 | returns true iff (row, col) is on the board and empty (`isCellEmpty`). On success only that cell changes, to the piece; otherwise nothing changes. |
| `TicTacToeGame.Board.CheckWin` | practice/ticTacToe/Game/Board.java:19-37 | true iff some row, some column, the main diagonal or the anti-diagonal is all the piece |
| `TicTacToeGame.Board.IsFull` | practice/ticTacToe/Game/Board.java:38-45 | true iff no cell is empty |
| `TicTacToeGame.Game.constructor` | practice/ticTacToe/Game/Game.java:9-14 | the game starts at player index 0 with no winner |
| `TicTacToeGame.Game.MakeMove` | practice/ticTacToe/Game/Game.java:43-46 | places the current player's piece with `placePiece`'s result and outcome; the index does not change |
| `TicTacToeGame.Game.PlayTurn` | practice/ticTacToe/Game/Game.java:19-39 | one pass of `play`. An invalid move changes nothing. A winning move records the mover, even on a full board. A filling move is a draw. Otherwise the index becomes (i+1) mod |players| and stays in range. |
| `TicTacToeGame.Game.GetWinner` | practice/ticTacToe/Game/Game.java:47-49 | returns the recorded winner, or none while nobody has won |
| `TicTacToeGame.Game.IsDraw` | practice/ticTacToe/Game/Game.java:50-52 | true iff there is no winner and the board is full |
| `TieTacToe.Board.constructor` | tietactoe/Board.java:8-11 | a new size×size board with all cells empty |
| `TieTacToe.Board.AddPiece` | tietactoe/Board.java:13-21 | with no bounds check, the cell must be on the board. An occupied cell gives false and no change. An empty one takes the piece and is the only cell to change, and the result is true. |
| `TieTacToe.Board.GetFreeCells` | tietactoe/Board.java:37-50 | returns `FreeCells` of the board (exactly the empty cells, row-major, each once) and changes nothing |
| `TieTacToe.TicTacToe.constructor` | tietactoe/TicTacToe.java:7-8 | before `initialize` there are no players and no board |
| `TieTacToe.TicTacToe.Initialize` | tietactoe/TicTacToe.java:10-23 | the deque is [Player 1 with X, Player 2 with O] and the board is an empty 3×3 |
| `TieTacToe.TicTacToe.IsThereWinner` | tietactoe/TicTacToe.java:63-90 | true iff row `row`, column `col`, the main diagonal or the anti-diagonal is all the piece. Both diagonals are checked whatever the cell, and the board is not modified. |
| `TieTacToe.TicTacToe.Move` | tietactoe/TicTacToe.java:44-57 | an occupied cell gives a retry and leaves the board unchanged. Otherwise the piece is stored in that cell only, and the result is the mover's name iff a line through the cell is full. |
| `TieTacToe.TicTacToe.Turn` | tietactoe/TicTacToe.java:27-57 | one pass of `startGame`. With no free cell it is a tie. A rejected placement puts the mover back at the front. A stored one sends the mover to the back and returns their name iff their line is full. The deque's multiset is kept except on a tie. |
| `Sequences.FirstIndex` | observerDesignPattern/Observable/IPhoneObservable.java:19-21 | the first position of a value in a list that holds it: the observer that `remove` cuts out. It is also the fleet position of the elevator an internal request captures (practice/elevatorDesign/Lift/ElevatorSystem.java:45-46). |
| `StockObservable.RemoveFirst` | observerDesignPattern/Observable/IPhoneObservable.java:19-21 | `List.remove`: the list shrinks by one exactly when the observer was present |
| `StockObservable.RemoveAtFirstIndex` | observerDesignPattern/Observable/IPhoneObservable.java:19-21 | removal cuts out the first occurrence only, and the rest keep their order |
| `StockObservable.RemoveAbsent` | observerDesignPattern/Observable/IPhoneObservable.java:19-21 | removing an absent observer changes nothing |
| `StockObservable.RemoveMultiset` | observerDesignPattern/Observable/IPhoneObservable.java:19-21 | removal takes exactly one copy of the observer out, if there was one |
| `StockObservable.RemoveUndoesAdd` | observerDesignPattern/Observable/IPhoneObservable.java:14-21 | removing a newly added observer that was not there before restores the list |
| `StockObservable.IPhoneObservable.constructor` | observerDesignPattern/Observable/IPhoneObservable.java:9-10 | no observers, stock count 0, nothing notified |
| `StockObservable.IPhoneObservable.Add` | observerDesignPattern/Observable/IPhoneObservable.java:14-16 | appends the observer at the end |
| `StockObservable.IPhoneObservable.Remove` | observerDesignPattern/Observable/IPhoneObservable.java:19-21 | the list becomes `RemoveFirst` of the old one |
| `StockObservable.IPhoneObservable.NotifySubscribers` | observerDesignPattern/Observable/IPhoneObservable.java:24-28 | one `update` per list entry, in list order, appended to the trace |
| `StockObservable.IPhoneObservable.SetStockCount` | observerDesignPattern/Observable/IPhoneObservable.java:30-35 | notifies everyone iff the old count was 0; afterwards the count is the new value |
| `StockObservable.IPhoneObservable.GetStockCount` | observerDesignPattern/Observable/IPhoneObservable.java:37-39 | returns the stored stock count |
| `StockObservable.StoreAlerts` | observerDesignPattern/Store.java:15-21 | counts 10, 0, 100 from 0: only the first and third calls alert, so each subscriber hears twice, in order |
| `OrderManagement.OrderManagement.constructor` | orderManagement/OrderManagement.java:8-11 | both maps start empty |
| `OrderManagement.OrderManagement.AddProduct` | orderManagement/OrderManagement.java:13-15 | stores the product under its id, overwriting an earlier entry |
| `OrderManagement.OrderManagement.PlaceOrder` | orderManagement/OrderManagement.java:17-28 | stores the order under its id (replacing an earlier one) iff every product id it names is in the catalogue. Otherwise the orders are unchanged. The catalogue is never modified. |
| `OrderManagement.OrderManagement.GetOrder` | orderManagement/OrderManagement.java:30-32 | the stored order for the id, or none exactly when the id is absent |
| `OrderManagement.PlaceExampleOrders` | orderManagement/Main.java:6-26 | the driver's run: after adding P1 and P2, the order O1 for both is stored. The lookup of O1 and the refused order O2 naming a missing P3 are an added scenario that the driver does not run. |

## Left out

- All console output (`System.out.println`, `printBoard`, the dispatch and door messages) is advisory text and is not modelled. `Elevator.openDoor`/`closeDoor` only print, so they are methods that return the floor they announce and change nothing.
- Console input in `Game.play` and `TicTacToe.startGame` (`Scanner`, `split`, `Integer.parseInt`) is left out. One pass of each loop is a method (`PlayTurn`, `Turn`) that takes the move as parameters. The loop around it is the caller's.
- `ElevatorDispatchStrategy` is a one-method interface. It is the function type `Dispatcher`, which is shown a value snapshot of the fleet (status, direction, floor: the getters `DirectionalStrategy` reads) and returns a position in the fleet.
- `DirectionalStrategy.getInstance`: the strategy is stateless, so its single instance is the constant `DispatchStrategy.Directional`. Every use refers to that one value.
- `ElevatorSystem.getFloors`/`getElevators` return Java's live lists. Here callers read the `floors` and `elevators` fields directly. A caller mutating the returned list is not modelled, and the fleet never changes after construction.
- The static `ElevatorSystem.instance` and `Elevator.idCounter` are the explicit object `Statics` and its `IdCounter`. Java's process-wide sharing becomes passing that object.
- `Lift.Elevator.constructor`: ids are unbounded integers, so `++idCounter` wrap-around after 2^31-1 elevators is not modelled.
- `DispatchStrategy.Nearest`: `Math.abs` overflow on 32-bit floors is not modelled, because distances are unbounded. The `Integer.MAX_VALUE` starting distance is kept, so an elevator that far away is never chosen.
- `Lift.ElevatorSystem.Run`: Java's `Status.MOVING` is visible only inside `moveToFloor`, so it never appears in the model's state between calls.
- The `Runnable` closures are the `Task` datatype. An internal task holds the elevator's position in the fleet, not the object.
- `Lift.ElevatorSystem.QueueInternalRequest` requires the elevator to be in the fleet. In Java the method is public, and `new Elevator(n)` and `setSystem` are too, so a task can capture an elevator outside `elevators`, and running it moves that elevator. Such elevators are excluded.
- `LiftState.Apply`: the strategy is never null. In Java, `getInstance(..., null)` and `setStrategy(null)` are legal, and the next external task then throws a `NullPointerException`. Picks outside the fleet are also excluded, because `Dispatcher` only returns positions in it, while the Java interface may return any elevator.
- `LiftState.Apply`: a strategy sees only status, direction and current floor, which is all `DirectionalStrategy` reads. A strategy that reads anything else, such as `getId`, cannot be written as a `Dispatcher`.
- `Lift.ElevatorSystem.ProcessRequests` always ends with an empty queue. In Java, an exception from a task (for example from a null strategy) escapes `processRequests` and leaves the rest of the queue pending, which is not modelled.
- Order items: `Order` holds `Pair<Product, Integer>` entries, but `placeOrder` iterates them as `Product`, which does not type-check. An order's items are therefore the product ids it names. Prices and `totalAmount` are floating-point bookkeeping, and the `Integer` quantity of each item is only used to compute that total, so all three are left out.
- `Product.price` (floating point), `User`, `Pair` and the `Player` classes are data holders. The players are the `Player` datatypes.
- Observers only print in `update`. Each alert is the observer's entry in the `notified` trace, and the observer classes are not modelled.
- The abstract-factory, factory, strategy (`Vehicle`) and decorator (`Mushroom`) demos are not part of this model.
