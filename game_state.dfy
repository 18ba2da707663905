/**
 * The game engine as a pure state machine. A `Game` holds everything the
 * engine object holds: the board, the rotating queue of players (the
 * active player is at the front), each player's list of moves, the
 * resolved flag, the four handler slots, and the log of handler calls
 * made so far. `Engine.TicTacToe` implements each transition in place.
 */
module GameState {
  import opened Wrappers
  import opened Combinations
  import opened Cells

  /** A registered handler function, identified by a tag. */
  type Listener = nat

  datatype Event = Win(winner: PlayerRef) | Draw | Select(cell: nat, player: PlayerRef) | Turn(player: PlayerRef)

  /** One invocation of a handler with its arguments. */
  datatype Call = Call(listener: Listener, event: Event)

  /** The handler slots; `None` stands for any value that is not a function. */
  datatype Handlers = Handlers(select: Option<Listener>, turn: Option<Listener>, win: Option<Listener>, draw: Option<Listener>)

  datatype Kind = SelectKind | TurnKind | WinKind | DrawKind

  datatype Game = Game(
    size: int,
    initial: seq<PlayerRef>,
    cells: seq<Owner>,
    players: seq<PlayerRef>,
    moves: map<PlayerRef, seq<int>>,
    resolved: bool,
    handlers: Handlers,
    calls: seq<Call>)

  /**
   * Which path a call of `selectCell` takes. `NoActivePlayer` is the
   * TypeError thrown when the queue is empty: the free cell is handed
   * `undefined`, which still reads as free, before the throw.
   */
  datatype Outcome = AlreadyResolved | CellNotFound | CellOccupied | NoActivePlayer | Accepted

  // ---------------------------------------------------------------------
  // Win and draw checks

  /** The moves of a player; a player never seen has none. */
  function MovesOf(moves: map<PlayerRef, seq<int>>, p: PlayerRef): seq<int> {
    if p in moves then moves[p] else []
  }

  /** `checkMovesHasCombination`: every cell of the line is among the moves. */
  predicate HasCombination(combination: Line, moves: seq<int>)
    ensures HasCombination(combination, moves) <==> forall j :: 0 <= j < |combination| ==> combination[j] in moves
  {
    assert (forall x :: x in combination ==> x in moves) <==>
           (forall j :: 0 <= j < |combination| ==> combination[j] in moves) by {
      if forall j :: 0 <= j < |combination| ==> combination[j] in moves {
        forall x | x in combination ensures x in moves {
          var j :| 0 <= j < |combination| && combination[j] == x;
        }
      }
      if forall x :: x in combination ==> x in moves {
        forall j | 0 <= j < |combination| ensures combination[j] in moves {
          assert combination[j] in combination;
        }
      }
    }
    forall x :: x in combination ==> x in moves
  }

  /** Some winning line is covered by the moves. */
  predicate Wins(combinations: seq<Line>, moves: seq<int>) {
    exists i :: 0 <= i < |combinations| && HasCombination(combinations[i], moves)
  }

  /** The position in the queue of the first player who wins. */
  function WinnerIndex(combinations: seq<Line>, players: seq<PlayerRef>, moves: map<PlayerRef, seq<int>>): (r: Option<nat>)
    ensures r.None? ==> forall i :: 0 <= i < |players| ==> !Wins(combinations, MovesOf(moves, players[i]))
    ensures r.Some? ==> r.value < |players| && Wins(combinations, MovesOf(moves, players[r.value]))
    ensures r.Some? ==> forall j :: 0 <= j < r.value ==> !Wins(combinations, MovesOf(moves, players[j]))
  {
    if players == [] then None
    else if Wins(combinations, MovesOf(moves, players[0])) then Some(0)
    else
      var rest := players[1..];
      var r := WinnerIndex(combinations, rest, moves);
      assert forall j :: 0 <= j < |rest| ==> rest[j] == players[j + 1];
      if r.None? then None else Some(r.value + 1)
  }

  /** `_checkForWin`: the first player, in queue order, whose moves cover a winning line. */
  function CheckForWin(combinations: seq<Line>, players: seq<PlayerRef>, moves: map<PlayerRef, seq<int>>): (w: Option<PlayerRef>)
    ensures w.None? <==> forall p: PlayerRef :: p in players ==> !Wins(combinations, MovesOf(moves, p))
    ensures w.Some? ==> w.value in players && Wins(combinations, MovesOf(moves, w.value))
  {
    match WinnerIndex(combinations, players, moves)
    case None => None
    case Some(i) => Some(players[i])
  }

  function Winner(g: Game): Option<PlayerRef> {
    CheckForWin(WinningCombinations(g.size), g.players, g.moves)
  }

  /** `_checkForDraw`: the board is full and nobody has won. */
  predicate IsDraw(g: Game)
    ensures IsDraw(g) <==>
      AllOccupied(g.cells) && forall p: PlayerRef :: p in g.players ==> !Wins(WinningCombinations(g.size), MovesOf(g.moves, p))
  {
    AllOccupied(g.cells) && Winner(g).None?
  }

  // ---------------------------------------------------------------------
  // Transitions

  /** The call a raised event produces: one, if its slot holds a function. */
  function Announce(slot: Option<Listener>, e: Event): seq<Call> {
    if slot.Some? then [Call(slot.value, e)] else []
  }

  function FreshMoves(players: seq<PlayerRef>): map<PlayerRef, seq<int>> {
    map p | p in players :: []
  }

  /** The state right after construction. */
  function Init(size: int, players: seq<PlayerRef>): (g: Game)
    ensures |g.cells| == CellCount(size) && forall k :: 0 <= k < |g.cells| ==> g.cells[k].None?
    ensures g.players == g.initial == players && !g.resolved && g.calls == []
    ensures forall p: PlayerRef :: (p in g.moves <==> p in players) && MovesOf(g.moves, p) == []
  {
    Game(size, players, EmptyBoard(CellCount(size)), players, FreshMoves(players), false,
         Handlers(None, None, None, None), [])
  }

  /** `_resolveGame`: a winner takes precedence over a draw; either one resolves the game. */
  function ResolveGame(g: Game): (r: Game)
    ensures r.(resolved := g.resolved, calls := g.calls) == g
    ensures r.resolved <==> g.resolved || Winner(g).Some? || AllOccupied(g.cells)
    ensures Winner(g).Some? ==> r.calls == g.calls + Announce(g.handlers.win, Win(Winner(g).value))
    ensures IsDraw(g) ==> r.calls == g.calls + Announce(g.handlers.draw, Draw)
    ensures !AllOccupied(g.cells) && Winner(g).None? ==> r == g
  {
    match Winner(g)
    case Some(w) => g.(calls := g.calls + Announce(g.handlers.win, Win(w)), resolved := true)
    case None =>
      if IsDraw(g) then g.(calls := g.calls + Announce(g.handlers.draw, Draw), resolved := true)
      else g
  }

  function Rotate(players: seq<PlayerRef>): (r: seq<PlayerRef>)
    requires |players| > 0
    ensures multiset(r) == multiset(players)
    ensures |r| == |players| && r[|r| - 1] == players[0]
  {
    assert players == [players[0]] + players[1..];
    players[1..] + [players[0]]
  }

  /** `_handlePlayerTurns`: the mover goes to the back; the new front is announced unless the game is over. */
  function HandlePlayerTurns(g: Game): (r: Game)
    requires |g.players| > 0
    ensures r.(players := g.players, calls := g.calls) == g
    ensures r.players == Rotate(g.players)
    ensures r.calls == g.calls + (if g.resolved then [] else Announce(g.handlers.turn, Turn(r.players[0])))
  {
    var players := Rotate(g.players);
    g.(players := players,
       calls := if g.resolved then g.calls else g.calls + Announce(g.handlers.turn, Turn(players[0])))
  }

  /** The guards of `selectCell`, in the order it tries them. */
  function Attempt(g: Game, k: int): (r: Outcome)
    ensures r == Accepted <==> !g.resolved && 0 <= k < |g.cells| && g.cells[k].None? && |g.players| > 0
  {
    if g.resolved then AlreadyResolved
    else if !(0 <= k < |g.cells|) then CellNotFound
    else if g.cells[k].Some? then CellOccupied
    else if g.players == [] then NoActivePlayer
    else Accepted
  }

  /** The front player takes cell `k` and the cell number is appended to its moves. */
  function Occupy(g: Game, k: nat): (r: Game)
    requires k < |g.cells| && |g.players| > 0
    ensures r.cells == g.cells[k := Some(g.players[0])]
    ensures MovesOf(r.moves, g.players[0]) == MovesOf(g.moves, g.players[0]) + [k]
    ensures forall q :: q != g.players[0] ==> MovesOf(r.moves, q) == MovesOf(g.moves, q)
  {
    var p := g.players[0];
    g.(cells := g.cells[k := Some(p)], moves := g.moves[p := MovesOf(g.moves, p) + [k]])
  }

  /** What follows a recorded move: resolve, announce the selection by `mover`, rotate. */
  function Conclude(g: Game, k: nat, mover: PlayerRef): (r: Game)
    requires |g.players| > 0
    ensures r.(players := g.players, resolved := g.resolved, calls := g.calls) == g
    ensures r.players == Rotate(g.players) && r.resolved == ResolveGame(g).resolved
    ensures g.calls <= r.calls
  {
    var resolved := ResolveGame(g);
    HandlePlayerTurns(resolved.(calls := resolved.calls + Announce(resolved.handlers.select, Select(k, mover))))
  }

  /** `selectCell`: occupy, record the move, resolve, announce the selection, rotate. */
  function SelectCell(g: Game, k: int): (r: Game)
    ensures Attempt(g, k) != Accepted ==> r == g
    ensures r.size == g.size && r.initial == g.initial && r.handlers == g.handlers && |r.cells| == |g.cells|
    ensures g.calls <= r.calls
  {
    if Attempt(g, k) != Accepted then g
    else Conclude(Occupy(g, k), k, g.players[0])
  }

  /** `reset`: an empty board, the players in construction order with no moves, unresolved. */
  function Reset(g: Game): (r: Game)
    ensures |r.cells| == |g.cells| && forall k :: 0 <= k < |r.cells| ==> r.cells[k].None?
    ensures r.players == g.initial && !r.resolved
    ensures forall p: PlayerRef :: MovesOf(r.moves, p) == []
    ensures r.handlers == g.handlers && r.calls == g.calls
  {
    g.(cells := EmptyBoard(|g.cells|), players := g.initial, moves := FreshMoves(g.initial), resolved := false)
  }

  function Slot(h: Handlers, kind: Kind): Option<Listener> {
    match kind
    case SelectKind => h.select
    case TurnKind => h.turn
    case WinKind => h.win
    case DrawKind => h.draw
  }

  /** `register…Handler`: the slot of that kind now holds `h`; nothing else changes. */
  function Register(g: Game, kind: Kind, h: Option<Listener>): (r: Game)
    ensures r.(handlers := g.handlers) == g
    ensures Slot(r.handlers, kind) == h
    ensures forall other :: other != kind ==> Slot(r.handlers, other) == Slot(g.handlers, other)
  {
    match kind
    case SelectKind => g.(handlers := g.handlers.(select := h))
    case TurnKind => g.(handlers := g.handlers.(turn := h))
    case WinKind => g.(handlers := g.handlers.(win := h))
    case DrawKind => g.(handlers := g.handlers.(draw := h))
  }

  // ---------------------------------------------------------------------
  // The invariant

  /** Exactly the construction-time players have a moves list. */
  predicate KnownPlayers(moves: map<PlayerRef, seq<int>>, initial: seq<PlayerRef>) {
    (forall p: PlayerRef :: p in moves ==> p in initial) && (forall p: PlayerRef :: p in initial ==> p in moves)
  }

  /** Each player's moves are distinct and are exactly the cells it owns. */
  predicate MovesMatchCells(moves: map<PlayerRef, seq<int>>, cells: seq<Owner>) {
    && (forall p: PlayerRef :: p in moves ==> Distinct(moves[p]))
    && (forall p: PlayerRef, k {:trigger k in moves[p]} :: p in moves && k in moves[p] ==> 0 <= k < |cells| && cells[k] == Some(p))
    && (forall k :: 0 <= k < |cells| && cells[k].Some? ==> cells[k].value in moves && k in moves[cells[k].value])
  }

  /**
   * The board has one slot per cell; the queue is a permutation of the
   * construction-time players; each player's moves are distinct and are
   * exactly the cells it owns; an unresolved game on a non-empty board has
   * no winner; a resolved game has a winner or a full board.
   */
  predicate Valid(g: Game) {
    && |g.cells| == CellCount(g.size)
    && multiset(g.players) == multiset(g.initial)
    && KnownPlayers(g.moves, g.initial)
    && MovesMatchCells(g.moves, g.cells)
    && (!g.resolved && |g.cells| > 0 ==> Winner(g).None?)
    && (g.resolved ==> Winner(g).Some? || AllOccupied(g.cells))
  }
}
