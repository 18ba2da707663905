/**
 * The argument checks of the `TicTacToe` constructor. Arguments arrive
 * untyped; the datatypes below keep only what the checks look at: whether
 * `size` is an integer, whether `players` is an array, and whether each
 * player's `char` is a string.
 */
module Setup {
  import opened Wrappers
  import opened Cells

  datatype SizeArg = Integer(n: int) | NonInteger

  datatype CharArg = Str(s: string) | NonString

  /** A player object: its reference and its `char` property (named `symbol` here). */
  datatype PlayerArg = PlayerArg(ref: PlayerRef, symbol: CharArg)

  datatype PlayersArg = Array(entries: seq<PlayerArg>) | NonArray

  datatype ConfigError = SizeNotInteger | PlayersNotArray | CharNotString

  /** What a successful construction keeps: the size and the player references in the given order. */
  datatype Settings = Settings(size: int, players: seq<PlayerRef>)

  function Refs(entries: seq<PlayerArg>): (refs: seq<PlayerRef>)
    ensures |refs| == |entries| && forall i :: 0 <= i < |entries| ==> refs[i] == entries[i].ref
  {
    seq(|entries|, i requires 0 <= i < |entries| => entries[i].ref)
  }

  /** JavaScript truthiness of a number: `!len` is `true` exactly for 0. */
  function Not(len: nat): bool { len == 0 }

  /** A boolean compared with a number is converted to 0 or 1 first. */
  function ToNumber(b: bool): nat { if b then 1 else 0 }

  /**
   * The players guard as written, `!players.length >= 2`: it parses as
   * `(!players.length) >= 2`, comparing 0 or 1 with 2.
   */
  predicate TooFewAsWritten(len: nat) { ToNumber(Not(len)) >= 2 }

  /** The guard the error message asks for, `!(players.length >= 2)`. */
  predicate TooFewIntended(len: nat) { !(len >= 2) }

  /** The index of the first player whose `char` is not a string, if any. */
  function FirstBadChar(entries: seq<PlayerArg>): (r: Option<nat>)
    ensures r.None? <==> forall i :: 0 <= i < |entries| ==> entries[i].symbol.Str?
    ensures r.Some? ==> r.value < |entries| && entries[r.value].symbol.NonString?
    ensures r.Some? ==> forall i :: 0 <= i < r.value ==> entries[i].symbol.Str?
  {
    if entries == [] then None
    else if entries[0].symbol.NonString? then Some(0)
    else
      match FirstBadChar(entries[1..])
      case None => None
      case Some(i) => Some(i + 1)
  }

  /** The constructor's checks, in the order it makes them, with the players guard as written. */
  function Validate(size: SizeArg, players: PlayersArg): (r: Result<Settings, ConfigError>)
    ensures r.Success? <==>
      size.Integer? && players.Array? && forall i :: 0 <= i < |players.entries| ==> players.entries[i].symbol.Str?
    ensures r.Success? ==> r.value == Settings(size.n, Refs(players.entries))
    ensures !size.Integer? ==> r == Failure(SizeNotInteger)
    ensures size.Integer? && !players.Array? ==> r == Failure(PlayersNotArray)
    ensures r == Failure(CharNotString) <==>
      size.Integer? && players.Array? && exists i :: 0 <= i < |players.entries| && players.entries[i].symbol.NonString?
  {
    if !size.Integer? then Failure(SizeNotInteger)
    else if !players.Array? || TooFewAsWritten(|players.entries|) then Failure(PlayersNotArray)
    else if FirstBadChar(players.entries).Some? then Failure(CharNotString)
    else Success(Settings(size.n, Refs(players.entries)))
  }

  /** The same checks with the players guard the error message describes. */
  function ValidateIntended(size: SizeArg, players: PlayersArg): (r: Result<Settings, ConfigError>)
    ensures r.Success? <==>
      size.Integer? && players.Array? && |players.entries| >= 2 &&
      forall i :: 0 <= i < |players.entries| ==> players.entries[i].symbol.Str?
    ensures r.Success? ==> r.value == Settings(size.n, Refs(players.entries)) && |r.value.players| >= 2
    ensures size.Integer? && players.Array? && |players.entries| < 2 ==> r == Failure(PlayersNotArray)
  {
    if !size.Integer? then Failure(SizeNotInteger)
    else if !players.Array? || TooFewIntended(|players.entries|) then Failure(PlayersNotArray)
    else if FirstBadChar(players.entries).Some? then Failure(CharNotString)
    else Success(Settings(size.n, Refs(players.entries)))
  }

  /** The guard as written never rejects, whatever the number of players. */
  lemma TooFewAsWrittenNeverHolds(len: nat)
    ensures !TooFewAsWritten(len)
  {
  }

  /** A single player, or none at all, passes the checks as written but not the intended ones. */
  lemma FewPlayersAccepted(n: int, entries: seq<PlayerArg>)
    requires |entries| < 2 && forall i :: 0 <= i < |entries| ==> entries[i].symbol.Str?
    ensures Validate(Integer(n), Array(entries)).Success?
    ensures ValidateIntended(Integer(n), Array(entries)) == Failure(PlayersNotArray)
  {
  }

  /** The two versions differ only on arrays of fewer than two players. */
  lemma IntendedDiffersOnlyOnFewPlayers(size: SizeArg, players: PlayersArg)
    ensures ValidateIntended(size, players) != Validate(size, players) <==>
      size.Integer? && players.Array? && |players.entries| < 2
  {
  }

  /** Neither version rejects a size of zero or below. */
  lemma NonPositiveSizeAccepted(n: int, entries: seq<PlayerArg>)
    requires n <= 0 && |entries| >= 2 && forall i :: 0 <= i < |entries| ==> entries[i].symbol.Str?
    ensures Validate(Integer(n), Array(entries)) == Success(Settings(n, Refs(entries)))
    ensures ValidateIntended(Integer(n), Array(entries)) == Success(Settings(n, Refs(entries)))
  {
  }
}
