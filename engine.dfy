/**
 * The engine object. Its fields are the fields of a `TicTacToe` instance;
 * each method changes them in place as the method of the same name in
 * TicTacToe.js does, and its postcondition ties the new state to the
 * transition of the same name in `GameState`, whose properties are proved
 * in `GameProperties`.
 */
module Engine {
  import opened Wrappers
  import opened Combinations
  import opened Cells
  import opened Setup
  import opened GameState
  import GameProperties

  class TicTacToe {
    const size: int
    const winningCombinations: seq<Line>
    const playersInitial: seq<PlayerRef>
    const cells: Board
    var players: seq<PlayerRef>
    var moves: map<PlayerRef, seq<int>>
    var gameResolved: bool
    var selectHandler: Option<Listener>
    var turnHandler: Option<Listener>
    var winHandler: Option<Listener>
    var drawHandler: Option<Listener>
    /** The handler invocations made so far, oldest first. */
    var calls: seq<Call>

    /** The abstract state these fields represent. */
    ghost function Model(): Game
      reads this, cells.owner
    {
      Game(size, playersInitial, cells.owner[..], players, moves, gameResolved,
           Handlers(selectHandler, turnHandler, winHandler, drawHandler), calls)
    }

    /** The combinations are those of the board size, and the state satisfies the game invariant. */
    ghost predicate Valid()
      reads this, cells.owner
    {
      winningCombinations == WinningCombinations(size) && GameState.Valid(Model())
    }

    constructor (settings: Settings)
      ensures Valid() && fresh(cells) && fresh(cells.owner)
      ensures Model() == Init(settings.size, settings.players)
    {
      size := settings.size;
      players := settings.players;
      playersInitial := settings.players;
      moves := FreshMoves(settings.players);
      var combinations := GetWinningCombinations(settings.size);
      winningCombinations := combinations;
      gameResolved := false;
      cells := new Board(CellCount(settings.size));
      selectHandler, turnHandler, winHandler, drawHandler := None, None, None, None;
      calls := [];
      new;
      GameProperties.InitValid(settings.size, settings.players);
    }

    /** `_checkForWin` */
    function CheckForWin(): (w: Option<PlayerRef>)
      reads this
      ensures w.None? <==> forall p: PlayerRef :: p in players ==> !Wins(winningCombinations, MovesOf(moves, p))
      ensures w.Some? ==> w.value in players && Wins(winningCombinations, MovesOf(moves, w.value))
    {
      GameState.CheckForWin(winningCombinations, players, moves)
    }

    /** `_checkForDraw` */
    predicate CheckForDraw()
      reads this, cells.owner
      ensures CheckForDraw() <==>
        None !in cells.owner[..] && forall p: PlayerRef :: p in players ==> !Wins(winningCombinations, MovesOf(moves, p))
    {
      AllOccupied(cells.owner[..]) && CheckForWin().None?
    }

    /** `_resolveGame`: calls the win or the draw handler, then marks the game resolved. */
    method ResolveGame()
      requires winningCombinations == WinningCombinations(size)
      modifies this`calls, this`gameResolved
      ensures Model() == GameState.ResolveGame(old(Model()))
    {
      var winner := CheckForWin();
      if winner.Some? {
        if winHandler.Some? {
          calls := calls + [Call(winHandler.value, Win(winner.value))];
        }
        gameResolved := true;
      } else if CheckForDraw() {
        if drawHandler.Some? {
          calls := calls + [Call(drawHandler.value, Draw)];
        }
        gameResolved := true;
      }
    }

    /** `_handlePlayerTurns`: `players.push(players.shift())`, then the turn handler unless resolved. */
    method HandlePlayerTurns() returns (front: PlayerRef)
      requires |players| > 0
      modifies this`players, this`calls
      ensures Model() == GameState.HandlePlayerTurns(old(Model()))
      ensures front == players[0]
    {
      var mover := players[0];
      players := players[1..] + [mover];
      if turnHandler.Some? && !gameResolved {
        calls := calls + [Call(turnHandler.value, Turn(players[0]))];
      }
      front := players[0];
    }

    /**
     * `selectCell`: ignored when the game is resolved, the cell does not
     * exist or is taken; otherwise the front player takes the cell, the
     * game is resolved if it can be, the select handler is called with the
     * cell and the mover, and the turn passes on.
     */
    method SelectCell(k: int) returns (outcome: Outcome)
      requires Valid()
      modifies this, cells.owner
      ensures Valid()
      ensures outcome == Attempt(old(Model()), k)
      ensures Model() == GameState.SelectCell(old(Model()), k)
    {
      ghost var before := Model();
      GameProperties.SelectCellPreservesValid(before, k);
      if gameResolved {
        return AlreadyResolved;
      }
      if !(0 <= k < cells.owner.Length) {
        return CellNotFound;
      }
      if players == [] {
        // `Cell.select(undefined)` refuses a taken cell; on a free one it
        // stores `undefined`, which still reads as free, and then throws.
        outcome := if cells.owner[k].Some? then CellOccupied else NoActivePlayer;
        return;
      }
      var ok := Take(k);
      outcome := if ok then Accepted else CellOccupied;
    }

    /**
     * `cell.select(players[0])` and, when it succeeds, the rest of an
     * accepted `selectCell`: the move is recorded and the game concluded.
     */
    method Take(k: nat) returns (ok: bool)
      requires winningCombinations == WinningCombinations(size)
      requires !gameResolved && k < cells.owner.Length && |players| > 0
      modifies this`moves, this`calls, this`gameResolved, this`players, cells.owner
      ensures ok <==> old(cells.owner[k]).None?
      ensures Model() == GameState.SelectCell(old(Model()), k)
    {
      ghost var before := Model();
      var mover := players[0];
      ok := cells.Select(k, mover);
      if !ok {
        return;
      }
      moves := moves[mover := MovesOf(moves, mover) + [k]];
      assert Model() == Occupy(before, k);
      Conclude(k, mover);
    }

    /** The rest of an accepted `selectCell`, once the move is recorded. */
    method Conclude(k: nat, mover: PlayerRef)
      requires winningCombinations == WinningCombinations(size) && |players| > 0
      modifies this`calls, this`gameResolved, this`players
      ensures Model() == GameState.Conclude(old(Model()), k, mover)
    {
      ResolveGame();
      ghost var resolved := Model();
      if selectHandler.Some? {
        calls := calls + [Call(selectHandler.value, Select(k, mover))];
      }
      assert Model() == resolved.(calls := resolved.calls + Announce(resolved.handlers.select, Select(k, mover)));
      var _ := HandlePlayerTurns();
    }

    /** `reset`: clears every cell and restores the initial players with no moves; handlers are kept. */
    method Reset()
      requires Valid()
      modifies this, cells.owner
      ensures Valid()
      ensures Model() == GameState.Reset(old(Model()))
    {
      GameProperties.ResetRestoresInit(Model());
      cells.ClearAll();
      players := playersInitial;
      moves := FreshMoves(playersInitial);
      gameResolved := false;
    }

    method RegisterTurnHandler(handler: Option<Listener>)
      requires Valid()
      modifies this`turnHandler
      ensures Valid() && Model() == Register(old(Model()), TurnKind, handler)
    {
      turnHandler := handler;
    }

    method RegisterWinHandler(handler: Option<Listener>)
      requires Valid()
      modifies this`winHandler
      ensures Valid() && Model() == Register(old(Model()), WinKind, handler)
    {
      winHandler := handler;
    }

    method RegisterDrawHandler(handler: Option<Listener>)
      requires Valid()
      modifies this`drawHandler
      ensures Valid() && Model() == Register(old(Model()), DrawKind, handler)
    {
      drawHandler := handler;
    }

    method RegisterSelectHandler(handler: Option<Listener>)
      requires Valid()
      modifies this`selectHandler
      ensures Valid() && Model() == Register(old(Model()), SelectKind, handler)
    {
      selectHandler := handler;
    }
  }

  /**
   * `new TicTacToe(size, players)`: the argument checks throw before any
   * state exists; otherwise a fresh engine in its initial state.
   */
  method Create(size: SizeArg, players: PlayersArg) returns (r: Result<TicTacToe, ConfigError>)
    ensures r.Failure? <==> Validate(size, players).Failure?
    ensures r.Failure? ==> r.error == Validate(size, players).error
    ensures r.Success? ==>
      var settings := Validate(size, players).value;
      fresh(r.value) && fresh(r.value.cells) && fresh(r.value.cells.owner) &&
      r.value.Valid() && r.value.Model() == Init(settings.size, settings.players)
  {
    match Validate(size, players)
    case Failure(e) => r := Failure(e);
    case Success(settings) =>
      var engine := new TicTacToe(settings);
      r := Success(engine);
  }
}
