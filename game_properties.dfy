/** What the engine's transitions guarantee, proved over `GameState`. */
module GameProperties {
  import opened Wrappers
  import opened Combinations
  import opened Cells
  import opened GameState

  // ---------------------------------------------------------------------
  // Construction

  /** With no moves nobody has won, provided every winning line has a cell. */
  lemma NoMovesNoWinner(size: int, players: seq<PlayerRef>, moves: map<PlayerRef, seq<int>>)
    requires size >= 1
    requires forall p: PlayerRef :: p in players ==> MovesOf(moves, p) == []
    ensures CheckForWin(WinningCombinations(size), players, moves).None?
  {
    CombinationsShape(size);
    var combinations := WinningCombinations(size);
    forall p: PlayerRef | p in players ensures !Wins(combinations, MovesOf(moves, p)) {
      forall i | 0 <= i < |combinations| ensures !HasCombination(combinations[i], MovesOf(moves, p)) {
        assert combinations[i] in combinations;
        assert combinations[i][0] !in MovesOf(moves, p);
      }
    }
  }

  /** A freshly constructed engine satisfies the invariant, whatever the size and the players. */
  lemma InitValid(size: int, players: seq<PlayerRef>)
    ensures Valid(Init(size, players))
  {
    InitHasNoWinner(size, players);
    InitMovesMatchCells(size, players);
  }

  lemma InitHasNoWinner(size: int, players: seq<PlayerRef>)
    ensures size >= 1 ==> Winner(Init(size, players)).None?
  {
    if size >= 1 {
      NoMovesNoWinner(size, players, FreshMoves(players));
    }
  }

  lemma InitMovesMatchCells(size: int, players: seq<PlayerRef>)
    ensures MovesMatchCells(FreshMoves(players), EmptyBoard(CellCount(size)))
  {
  }

  /** A line of distinct cells can only be covered by at least as many moves. */
  lemma {:induction false} CoveringNeedsLength(line: Line, moves: seq<int>)
    requires Distinct(line) && HasCombination(line, moves)
    ensures |line| <= |moves|
    decreases |line|
  {
    if |line| > 0 {
      var i :| 0 <= i < |moves| && moves[i] == line[0];
      var rest := moves[..i] + moves[i + 1..];
      forall j | 0 <= j < |line| - 1 ensures line[1..][j] in rest {
        var t :| 0 <= t < |moves| && moves[t] == line[j + 1];
        if t < i {
          assert rest[t] == moves[t];
        } else {
          assert rest[t - 1] == moves[t];
        }
      }
      CoveringNeedsLength(line[1..], rest);
    }
  }

  /** Nobody wins with fewer moves than the board has columns. */
  lemma WinNeedsWidthMoves(size: int, moves: seq<int>)
    requires Wins(WinningCombinations(size), moves)
    ensures |moves| >= Width(size)
  {
    CombinationsShape(size);
    var combinations := WinningCombinations(size);
    var i :| 0 <= i < |combinations| && HasCombination(combinations[i], moves);
    assert combinations[i] in combinations;
    CoveringNeedsLength(combinations[i], moves);
  }

  // ---------------------------------------------------------------------
  // Selecting a cell

  /** Whether somebody has won depends on who is in the queue, not on its order. */
  lemma WinnerIgnoresOrder(combinations: seq<Line>, a: seq<PlayerRef>, b: seq<PlayerRef>, moves: map<PlayerRef, seq<int>>)
    requires multiset(a) == multiset(b)
    ensures CheckForWin(combinations, a, moves).None? <==> CheckForWin(combinations, b, moves).None?
  {
    forall p: PlayerRef ensures p in a <==> p in b {
      assert p in a <==> p in multiset(a);
      assert p in b <==> p in multiset(b);
    }
  }

  /**
   * On an accepted move only the mover can have won, because nobody had
   * won before it and nobody else's moves changed; and the mover has won
   * exactly when its moves, with the new cell, cover a winning line.
   */
  lemma WinnerIsMover(g: Game, k: int)
    requires Valid(g) && Attempt(g, k) == Accepted
    ensures var mover := g.players[0];
      Winner(Occupy(g, k)) == if Wins(WinningCombinations(g.size), MovesOf(g.moves, mover) + [k]) then Some(mover) else None
  {
    var mover := g.players[0];
    var o := Occupy(g, k);
    var combinations := WinningCombinations(g.size);
    assert !g.resolved && 0 <= k < |g.cells|;
    assert Winner(g).None?;
    forall q | q in o.players && q != mover ensures !Wins(combinations, MovesOf(o.moves, q)) {
      assert MovesOf(o.moves, q) == MovesOf(g.moves, q);
    }
    assert MovesOf(o.moves, mover) == MovesOf(g.moves, mover) + [k];
    assert mover in o.players;
  }

  /** The effect of occupying a cell keeps moves and owners in step. */
  lemma OccupyKeepsMovesInStep(g: Game, k: int)
    requires Valid(g) && Attempt(g, k) == Accepted
    ensures KnownPlayers(Occupy(g, k).moves, g.initial)
    ensures MovesMatchCells(Occupy(g, k).moves, Occupy(g, k).cells)
  {
    var mover := g.players[0];
    var o := Occupy(g, k);
    assert mover in multiset(g.players);
    assert mover in g.initial;
    assert k !in MovesOf(g.moves, mover);
    forall p: PlayerRef, j | p in o.moves && j in o.moves[p] ensures 0 <= j < |o.cells| && o.cells[j] == Some(p) {
      if p == mover {
        assert o.moves[p] == g.moves[p] + [k];
      } else {
        assert o.moves[p] == g.moves[p];
      }
      if j != k {
        assert p in g.moves && j in g.moves[p];
        assert 0 <= j < |g.cells| && g.cells[j] == Some(p);
      }
    }
    assert MovesMatchCells(o.moves, o.cells);
  }

  /**
   * The state after an accepted `selectCell` by the front player `mover`:
   * the cell becomes the mover's, the cell number is appended to the
   * mover's moves and to no one else's, the mover goes to the back of the
   * queue, one cell fewer is free, and the game is resolved exactly when
   * the mover's moves now cover a winning line or the board is full.
   */
  lemma AcceptedMove(g: Game, k: int)
    requires Valid(g) && Attempt(g, k) == Accepted
    ensures var mover, after := g.players[0], SelectCell(g, k);
      && after.size == g.size && after.initial == g.initial && after.handlers == g.handlers
      && after.cells == g.cells[k := Some(mover)]
      && MovesOf(after.moves, mover) == MovesOf(g.moves, mover) + [k]
      && (forall q :: q != mover ==> MovesOf(after.moves, q) == MovesOf(g.moves, q))
      && after.players == g.players[1..] + [mover]
      && EmptyCount(after.cells) + 1 == EmptyCount(g.cells)
      && (after.resolved <==> Wins(WinningCombinations(g.size), MovesOf(g.moves, mover) + [k]) || AllOccupied(after.cells))
  {
    var mover := g.players[0];
    var o := Occupy(g, k);
    WinnerIsMover(g, k);
    OccupyDecrementsEmpty(g.cells, k, mover);
  }

  /**
   * The handler calls an accepted `selectCell` makes, in order: a win
   * call with the mover, or else a draw call if the board is full; then
   * the select call with the cell and the mover; then, only if the game
   * is still unresolved, the turn call with the new front player. Each
   * call is made only when its slot holds a function.
   */
  lemma AcceptedMoveCalls(g: Game, k: int)
    requires Valid(g) && Attempt(g, k) == Accepted
    ensures var mover, after := g.players[0], SelectCell(g, k);
      var won := Wins(WinningCombinations(g.size), MovesOf(g.moves, mover) + [k]);
      after.calls == g.calls
        + (if won then Announce(g.handlers.win, Win(mover))
           else if AllOccupied(after.cells) then Announce(g.handlers.draw, Draw)
           else [])
        + Announce(g.handlers.select, Select(k, mover))
        + (if after.resolved then [] else Announce(g.handlers.turn, Turn(after.players[0])))
  {
    var mover := g.players[0];
    var o := Occupy(g, k);
    var r := ResolveGame(o);
    var won := Wins(WinningCombinations(g.size), MovesOf(g.moves, mover) + [k]);
    WinnerIsMover(g, k);
    assert Winner(o).Some? <==> won;
    assert r.calls == g.calls
      + (if won then Announce(g.handlers.win, Win(mover))
         else if AllOccupied(o.cells) then Announce(g.handlers.draw, Draw)
         else []);
  }

  /** `selectCell` preserves the invariant. */
  lemma SelectCellPreservesValid(g: Game, k: int)
    requires Valid(g)
    ensures Valid(SelectCell(g, k))
  {
    if Attempt(g, k) == Accepted {
      var o := Occupy(g, k);
      var resolved := ResolveGame(o);
      var after := SelectCell(g, k);
      OccupyKeepsMovesInStep(g, k);
      assert after.(players := o.players, resolved := o.resolved, calls := o.calls) == o;
      assert after.resolved == resolved.resolved;
      assert multiset(after.players) == multiset(o.players);
      ValidAfterRotation(o, after);
    }
  }

  /**
   * A state that differs from `o` only in the order of the queue, the
   * calls made and a resolved flag set exactly as `_resolveGame` sets it
   * satisfies the invariant.
   */
  lemma ValidAfterRotation(o: Game, after: Game)
    requires after.(players := o.players, resolved := o.resolved, calls := o.calls) == o
    requires multiset(after.players) == multiset(o.players) == multiset(o.initial)
    requires !o.resolved
    requires after.resolved <==> Winner(o).Some? || AllOccupied(o.cells)
    requires |o.cells| == CellCount(o.size)
    requires KnownPlayers(o.moves, o.initial) && MovesMatchCells(o.moves, o.cells)
    ensures Valid(after)
  {
    WinnerIgnoresOrder(WinningCombinations(o.size), o.players, after.players, o.moves);
  }

  /** The queue is rotated by an accepted move and only by one. */
  lemma SelectCellRotates(g: Game, k: int)
    ensures SelectCell(g, k).players == if Attempt(g, k) == Accepted then Rotate(g.players) else g.players
  {
  }

  /** A move that fills the board always ends the game. */
  lemma FullBoardResolves(g: Game, k: int)
    requires Valid(g) && Attempt(g, k) == Accepted
    requires AllOccupied(SelectCell(g, k).cells)
    ensures SelectCell(g, k).resolved
    ensures !Wins(WinningCombinations(g.size), MovesOf(g.moves, g.players[0]) + [k]) ==>
      SelectCell(g, k).calls == g.calls + Announce(g.handlers.draw, Draw) + Announce(g.handlers.select, Select(k, g.players[0]))
  {
    AcceptedMove(g, k);
    AcceptedMoveCalls(g, k);
  }

  // ---------------------------------------------------------------------
  // Reset and registration

  /** `reset` returns to the state of construction, keeping the handlers and the calls made. */
  lemma ResetRestoresInit(g: Game)
    requires |g.cells| == CellCount(g.size)
    ensures Reset(g) == Init(g.size, g.initial).(handlers := g.handlers, calls := g.calls)
    ensures Valid(Reset(g))
    ensures Reset(Reset(g)) == Reset(g)
  {
    InitValid(g.size, g.initial);
  }

  // ---------------------------------------------------------------------
  // Runs of operations

  datatype Op = SelectOp(k: int) | ResetOp | RegisterOp(kind: Kind, h: Option<Listener>)

  function Apply(g: Game, op: Op): Game {
    match op
    case SelectOp(k) => SelectCell(g, k)
    case ResetOp => Reset(g)
    case RegisterOp(kind, h) => Register(g, kind, h)
  }

  function Run(g: Game, ops: seq<Op>): Game
    decreases |ops|
  {
    if ops == [] then g else Run(Apply(g, ops[0]), ops[1..])
  }

  /** Every operation preserves the invariant, so every run does. */
  lemma {:induction false} RunPreservesValid(g: Game, ops: seq<Op>)
    requires Valid(g)
    ensures Valid(Run(g, ops))
    decreases |ops|
  {
    if ops != [] {
      match ops[0] {
        case SelectOp(k) => SelectCellPreservesValid(g, k);
        case ResetOp => ResetRestoresInit(g);
        case RegisterOp(_, _) =>
      }
      RunPreservesValid(Apply(g, ops[0]), ops[1..]);
    }
  }

  /** Every state reachable from construction satisfies the invariant. */
  lemma ReachableValid(size: int, players: seq<PlayerRef>, ops: seq<Op>)
    ensures Valid(Run(Init(size, players), ops))
  {
    InitValid(size, players);
    RunPreservesValid(Init(size, players), ops);
  }

  /**
   * A resolved game stays resolved until `reset`: no other operation
   * changes the board, the queue, the moves or the calls made, only the
   * handler slots.
   */
  lemma {:induction false} TerminalUntilReset(g: Game, ops: seq<Op>)
    requires g.resolved
    requires forall i :: 0 <= i < |ops| ==> !ops[i].ResetOp?
    ensures Run(g, ops) == g.(handlers := Run(g, ops).handlers)
    decreases |ops|
  {
    if ops != [] {
      TerminalUntilReset(Apply(g, ops[0]), ops[1..]);
    }
  }

  // ---------------------------------------------------------------------
  // Turn order

  /** The queue after `j` rotations. */
  function Rotations(players: seq<PlayerRef>, j: nat): (r: seq<PlayerRef>)
    ensures multiset(r) == multiset(players) && |r| == |players|
    decreases j
  {
    if j == 0 || players == [] then players else Rotations(Rotate(players), j - 1)
  }

  /** After `j <= n` rotations the queue starts at its original position `j`. */
  lemma {:induction false} RotationsAsSlices(players: seq<PlayerRef>, j: nat)
    requires j <= |players|
    ensures Rotations(players, j) == players[j..] + players[..j]
    decreases j
  {
    if j > 0 {
      RotationsAsSlices(Rotate(players), j - 1);
      RotateSlices(players, j);
    }
  }

  /** Rotating once and then taking the slices at `j - 1` is taking the slices at `j`. */
  lemma RotateSlices(players: seq<PlayerRef>, j: nat)
    requires 0 < j <= |players|
    ensures Rotate(players)[j - 1..] + Rotate(players)[..j - 1] == players[j..] + players[..j]
  {
  }

  /**
   * Turns cycle through the queue in order: after `j < n` rotations the
   * player at position `j` is at the front, and after `n` rotations the
   * queue is back in its original order.
   */
  lemma TurnsCycle(players: seq<PlayerRef>, j: nat)
    requires j < |players|
    ensures Rotations(players, j)[0] == players[j]
    ensures Rotations(players, |players|) == players
  {
    RotationsAsSlices(players, j);
    RotationsAsSlices(players, |players|);
  }

  /**
   * The game in which the cells `ks` are selected one after the other,
   * paired with how many of those selections are accepted.
   */
  function Play(g: Game, ks: seq<int>): (Game, nat)
    decreases |ks|
  {
    if ks == [] then (g, 0)
    else
      var (last, count) := Play(SelectCell(g, ks[0]), ks[1..]);
      (last, (if Attempt(g, ks[0]) == Accepted then 1 else 0) + count)
  }

  /**
   * The queue is rotated once per accepted move and never otherwise: after
   * `j` accepted moves it is the starting queue rotated `j` times.
   */
  lemma {:induction false} PlayRotatesQueue(g: Game, ks: seq<int>)
    ensures Play(g, ks).0.players == Rotations(g.players, Play(g, ks).1)
    decreases |ks|
  {
    if ks != [] {
      var next := SelectCell(g, ks[0]);
      PlayRotatesQueue(next, ks[1..]);
      StepRotates(g, ks[0], Play(next, ks[1..]).1);
    }
  }

  /** One selection followed by `j` rotations is `j` rotations more, or one more if it was accepted. */
  lemma StepRotates(g: Game, k: int, j: nat)
    ensures Rotations(SelectCell(g, k).players, j) ==
      Rotations(g.players, (if Attempt(g, k) == Accepted then 1 else 0) + j)
  {
    SelectCellRotates(g, k);
  }

  /** A board of `n` free cells accepts at most `n` moves before it must be reset. */
  lemma {:induction false} PlayIsBounded(g: Game, ks: seq<int>)
    requires Valid(g)
    ensures Play(g, ks).1 <= EmptyCount(g.cells)
    decreases |ks|
  {
    if ks != [] {
      if Attempt(g, ks[0]) == Accepted {
        AcceptedMove(g, ks[0]);
      }
      SelectCellPreservesValid(g, ks[0]);
      PlayIsBounded(SelectCell(g, ks[0]), ks[1..]);
    }
  }
}
