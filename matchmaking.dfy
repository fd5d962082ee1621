/**
 * The matchmaking system of MatchmakingSystem.cs: three FIFO queues (front
 * at index 0), the list of registered players and the per-mode pairing
 * rules. Players are objects: the source compares them by reference
 * (`p != p2`), which is Dafny's equality on class instances.
 */
module Matchmaking {
  import opened Wrappers
  import opened Text

  datatype GameMode = Casual | Ranked | QuickPlay

  /** A player; only the fields the matchmaking code reads. */
  class Player {
    const username: string
    const skillRating: int
    const preferredMode: GameMode

    constructor (username: string, skillRating: int, preferredMode: GameMode)
      ensures this.username == username && this.skillRating == skillRating
      ensures this.preferredMode == preferredMode
    {
      this.username := username;
      this.skillRating := skillRating;
      this.preferredMode := preferredMode;
    }
  }

  datatype Match = Match(player1: Player, player2: Player, mode: GameMode)

  function Abs(x: int): nat { if x < 0 then -x else x }

  /** Two players may meet in Ranked play when their ratings differ by at most 2. */
  function CanMatchInRanked(a: Player, b: Player): (r: bool)
    ensures r <==> -2 <= a.skillRating - b.skillRating <= 2
  {
    Abs(a.skillRating - b.skillRating) <= 2
  }

  lemma CanMatchSymmetric(a: Player, b: Player)
    ensures CanMatchInRanked(a, b) == CanMatchInRanked(b, a)
  {
  }

  /**
   * `FirstOrDefault` over the candidates: the index of the first candidate
   * compatible with `p1`, or None.
   */
  function FirstCompatible(p1: Player, candidates: seq<Player>): (r: Option<nat>)
    ensures r.Some? ==> r.value < |candidates| && CanMatchInRanked(p1, candidates[r.value])
    ensures r.Some? ==> forall j :: 0 <= j < r.value ==> !CanMatchInRanked(p1, candidates[j])
    ensures r.None? ==> forall j :: 0 <= j < |candidates| ==> !CanMatchInRanked(p1, candidates[j])
  {
    if candidates == [] then None
    else if CanMatchInRanked(p1, candidates[0]) then Some(0)
    else
      match FirstCompatible(p1, candidates[1..])
      case None => None
      case Some(i) => Some(i + 1)
  }

  /** `m` pairs q[0] with the first later player of q within skill range. */
  ghost predicate FirstCompatibleAt(q: seq<Player>, m: Match, mode: GameMode)
    requires |q| >= 1
  {
    exists k :: 1 <= k < |q| && m == Match(q[0], q[k], mode) && CanMatchInRanked(q[0], q[k])
      && forall j :: 1 <= j < k ==> !CanMatchInRanked(q[0], q[j])
  }

  /** Ranked always, and QuickPlay while its queue holds at most four players, pair by skill. */
  predicate UsesSkillRule(q: seq<Player>, mode: GameMode) {
    mode == Ranked || (mode == QuickPlay && |q| <= 4)
  }

  /**
   * The skill rule used by Ranked and by a small QuickPlay queue: the front
   * player meets the first later compatible player. As written, the queue
   * rebuilt without p2 is only a local, so the stored queue loses just p1.
   */
  function SkillPairing(q: seq<Player>, mode: GameMode): (r: (Option<Match>, seq<Player>))
    requires |q| >= 2
    ensures r.0.None? <==> forall j :: 1 <= j < |q| ==> !CanMatchInRanked(q[0], q[j])
    ensures r.0.None? ==> r.1 == q
    ensures r.0.Some? ==> r.1 == q[1..] && FirstCompatibleAt(q, r.0.value, mode)
  {
    match FirstCompatible(q[0], q[1..])
    case None => (None, q)
    case Some(i) => (Some(Match(q[0], q[1 + i], mode)), q[1..])
  }

  /**
   * TryCreateMatch on the queue `q` of `mode`: the match made (if any) and
   * the queue stored afterwards.
   */
  function Pairing(q: seq<Player>, mode: GameMode): (r: (Option<Match>, seq<Player>))
    ensures r.0.None? ==> r.1 == q
    ensures r.0.Some? ==> |q| >= 2 && r.0.value.mode == mode && r.0.value.player1 == q[0]
    ensures r.0.Some? ==>
      ((r.1 == q[2..] && r.0.value.player2 == q[1])
       || (r.1 == q[1..] && r.0.value.player2 in q[1..] && CanMatchInRanked(q[0], r.0.value.player2)))
    ensures |q| < 2 ==> r == (None, q)
    ensures !UsesSkillRule(q, mode) && |q| >= 2 ==> r == (Some(Match(q[0], q[1], mode)), q[2..])
    ensures UsesSkillRule(q, mode) ==>
      (r.0.Some? <==> |q| >= 2 && exists j :: 1 <= j < |q| && CanMatchInRanked(q[0], q[j]))
    ensures UsesSkillRule(q, mode) && r.0.Some? ==> r.1 == q[1..] && FirstCompatibleAt(q, r.0.value, mode)
  {
    if |q| < 2 then (None, q)
    else match mode
      case Casual => (Some(Match(q[0], q[1], Casual)), q[2..])
      case Ranked => SkillPairing(q, Ranked)
      case QuickPlay =>
        if |q| > 4 then (Some(Match(q[0], q[1], QuickPlay)), q[2..])
        else SkillPairing(q, QuickPlay)
  }

  /** The skill rule pairs the front player with the FIRST later player within range. */
  lemma SkillPicksFirstCompatible(q: seq<Player>, mode: GameMode, k: nat)
    requires UsesSkillRule(q, mode)
    requires 1 <= k < |q| && CanMatchInRanked(q[0], q[k])
    requires forall j :: 1 <= j < k ==> !CanMatchInRanked(q[0], q[j])
    ensures Pairing(q, mode).0 == Some(Match(q[0], q[k], mode))
  {
    assert CanMatchInRanked(q[0], q[1..][k - 1]);
  }

  /**
   * As written, a successful skill-based pairing leaves p2 in the stored
   * queue (only p1 is dequeued), so p2 can be matched a second time.
   */
  lemma SkillPairingKeepsSecondPlayer(q: seq<Player>, mode: GameMode)
    requires UsesSkillRule(q, mode)
    requires Pairing(q, mode).0.Some?
    ensures Pairing(q, mode).0.value.player2 in Pairing(q, mode).1
    ensures |Pairing(q, mode).1| == |q| - 1
  {
  }

  /** The queue with every occurrence of `p` removed, order of the rest kept. */
  function Remove(q: seq<Player>, p: Player): (r: seq<Player>)
    ensures |r| <= |q| && p !in r
    ensures multiset(r) == multiset(q)[p := 0]
  {
    if q == [] then []
    else
      assert q == q[..|q| - 1] + [q[|q| - 1]];
      Remove(q[..|q| - 1], p) + (if q[|q| - 1] != p then [q[|q| - 1]] else [])
  }

  /** Removal works piecewise, so the relative order of the others is kept. */
  lemma {:induction false} RemoveConcat(a: seq<Player>, b: seq<Player>, p: Player)
    ensures Remove(a + b, p) == Remove(a, p) + Remove(b, p)
    decreases |b|
  {
    if b == [] {
      assert a + b == a;
    } else {
      assert (a + b)[..|a + b| - 1] == a + b[..|b| - 1];
      RemoveConcat(a, b[..|b| - 1], p);
    }
  }

  lemma {:induction false} RemoveAbsent(q: seq<Player>, p: Player)
    requires p !in q
    ensures Remove(q, p) == q
  {
    if q != [] {
      var init, last := q[..|q| - 1], q[|q| - 1];
      assert q == init + [last];
      assert last != p;
      assert p !in init;
      RemoveAbsent(init, p);
      assert Remove(q, p) == Remove(init, p) + [last];
    }
  }

  /** `foreach (var p in players.Where(p => p != player)) queue.Enqueue(p)` on a cleared queue. */
  method Rebuild(players: seq<Player>, player: Player) returns (queue: seq<Player>)
    ensures queue == Remove(players, player)
  {
    queue := [];
    for i := 0 to |players|
      invariant queue == Remove(players[..i], player)
    {
      assert players[..i + 1][..i] == players[..i];
      if players[i] != player {
        queue := queue + [players[i]];
      }
    }
    assert players[..|players|] == players;
  }

  /** Usernames already registered, compared with OrdinalIgnoreCase. */
  predicate UsernameTaken(players: seq<Player>, username: string) {
    exists i :: 0 <= i < |players| && FoldEq(players[i].username, username)
  }

  /** No two registered players share a username case-insensitively. */
  predicate DistinctUsernames(players: seq<Player>) {
    forall i, j :: 0 <= i < j < |players| ==> !FoldEq(players[i].username, players[j].username)
  }

  /** Estimated wait for a queue of `count` players of `mode`. */
  function Estimate(mode: GameMode, count: nat): (r: string)
    ensures r == "No wait" ==> count >= 2
    ensures mode != Ranked ==> (r == "No wait" <==> count >= 2)
    ensures mode == Ranked ==> (r == "No wait" <==> count >= 4)
    ensures mode == Ranked ==> (r == "Short wait (depends on skill range)" <==> 2 <= count < 4)
    ensures mode == Ranked ==> (r == "Long wait (few ranked players)" <==> count < 2)
    ensures mode != Ranked ==> (r == "Short wait" <==> count == 1)
    ensures mode != Ranked ==> (r == "Long wait" <==> count == 0)
  {
    if mode == Ranked then
      (if count >= 4 then "No wait"
       else if count >= 2 then "Short wait (depends on skill range)"
       else "Long wait (few ranked players)")
    else if count >= 2 then "No wait"
    else if count == 1 then "Short wait"
    else "Long wait"
  }

  /**
   * The estimate agrees with pairing: a Casual queue is "No wait" exactly
   * when a match can be made, a QuickPlay queue over 4 always matches, and
   * in every mode an estimate other than "No wait" or a Ranked "Short
   * wait" means no match can be made.
   */
  lemma EstimateAgreesWithPairing(q: seq<Player>, mode: GameMode)
    ensures mode == Casual ==> (Estimate(mode, |q|) == "No wait" <==> Pairing(q, mode).0.Some?)
    ensures mode == QuickPlay && |q| > 4 ==> Estimate(mode, |q|) == "No wait" && Pairing(q, mode).0.Some?
    ensures Estimate(mode, |q|) != "No wait" && Estimate(mode, |q|) != "Short wait (depends on skill range)"
            ==> Pairing(q, mode).0.None?
  {
  }

  class MatchmakingSystem {
    var casualQueue: seq<Player>
    var rankedQueue: seq<Player>
    var quickPlayQueue: seq<Player>
    var allPlayers: seq<Player>

    ghost predicate Valid()
      reads this
    {
      DistinctUsernames(allPlayers)
    }

    constructor ()
      ensures Valid()
      ensures casualQueue == [] && rankedQueue == [] && quickPlayQueue == [] && allPlayers == []
    {
      casualQueue := [];
      rankedQueue := [];
      quickPlayQueue := [];
      allPlayers := [];
    }

    function QueueOf(mode: GameMode): seq<Player>
      reads this
    {
      match mode
      case Casual => casualQueue
      case Ranked => rankedQueue
      case QuickPlay => quickPlayQueue
    }

    /** The queue of `mode` becomes `q`; the other two are untouched. */
    method SetQueue(mode: GameMode, q: seq<Player>)
      modifies this
      ensures QueueOf(mode) == q
      ensures forall m :: m != mode ==> QueueOf(m) == old(QueueOf(m))
      ensures allPlayers == old(allPlayers)
    {
      match mode
      case Casual => casualQueue := q;
      case Ranked => rankedQueue := q;
      case QuickPlay => quickPlayQueue := q;
    }

    /**
     * CreatePlayer: refused (the source throws) when the username is taken
     * case-insensitively; otherwise exactly one new player is appended.
     */
    method CreatePlayer(username: string, skillRating: int, preferredMode: GameMode)
      returns (r: Option<Player>)
      requires Valid()
      modifies this
      ensures Valid()
      ensures r.None? <==> UsernameTaken(old(allPlayers), username)
      ensures r.None? ==> allPlayers == old(allPlayers)
      ensures r.Some? ==> fresh(r.value) && allPlayers == old(allPlayers) + [r.value]
      ensures r.Some? ==> r.value.username == username && r.value.skillRating == skillRating
                          && r.value.preferredMode == preferredMode
      ensures forall m :: QueueOf(m) == old(QueueOf(m))
    {
      if UsernameTaken(allPlayers, username) {
        return None;
      }
      var player := new Player(username, skillRating, preferredMode);
      allPlayers := allPlayers + [player];
      r := Some(player);
    }

    /** AddToQueue: a null player changes nothing; otherwise it joins the back of its mode's queue. */
    method AddToQueue(player: Player?, mode: GameMode)
      modifies this
      ensures player == null ==> forall m :: QueueOf(m) == old(QueueOf(m))
      ensures player != null ==> QueueOf(mode) == old(QueueOf(mode)) + [player]
      ensures forall m :: m != mode ==> QueueOf(m) == old(QueueOf(m))
      ensures allPlayers == old(allPlayers)
    {
      if player == null {
        return;
      }
      SetQueue(mode, QueueOf(mode) + [player]);
    }

    /** TryCreateMatch: the pairing rule of `mode` applied to its queue. */
    method TryCreateMatch(mode: GameMode) returns (m: Option<Match>)
      modifies this
      ensures (m, QueueOf(mode)) == Pairing(old(QueueOf(mode)), mode)
      ensures forall other :: other != mode ==> QueueOf(other) == old(QueueOf(other))
      ensures allPlayers == old(allPlayers)
    {
      var queue := QueueOf(mode);
      if |queue| < 2 {
        return None;
      }
      var p1: Player;
      var p2: Player;
      match mode {
        case Casual =>
          p1, p2 := queue[0], queue[1];
          SetQueue(mode, queue[2..]);
        case Ranked =>
          p1 := queue[0];
          var found := FirstCompatible(p1, queue[1..]);
          if found.None? {
            return None;
          }
          p2 := queue[1..][found.value];
          SetQueue(mode, queue[1..]);
        case QuickPlay =>
          if |queue| > 4 {
            p1, p2 := queue[0], queue[1];
            SetQueue(mode, queue[2..]);
          } else {
            p1 := queue[0];
            var found := FirstCompatible(p1, queue[1..]);
            if found.None? {
              return None;
            }
            p2 := queue[1..][found.value];
            SetQueue(mode, queue[1..]);
          }
      }
      m := Some(Match(p1, p2, mode));
    }

    /** GetQueueEstimate: the estimate for the current size of the mode's queue. */
    function GetQueueEstimate(mode: GameMode): (r: string)
      reads this
      ensures mode != Ranked ==> (r == "No wait" <==> |QueueOf(mode)| >= 2)
      ensures mode == Ranked ==> (r == "No wait" <==> |QueueOf(mode)| >= 4)
      ensures r == Estimate(mode, |QueueOf(mode)|)
    {
      Estimate(mode, |QueueOf(mode)|)
    }

    /** RemoveFromAllQueues: every occurrence of the player leaves all three queues. */
    method RemoveFromAllQueues(player: Player)
      modifies this
      ensures casualQueue == Remove(old(casualQueue), player)
      ensures rankedQueue == Remove(old(rankedQueue), player)
      ensures quickPlayQueue == Remove(old(quickPlayQueue), player)
      ensures allPlayers == old(allPlayers)
    {
      var casualPlayers, rankedPlayers, quickPlayPlayers := casualQueue, rankedQueue, quickPlayQueue;
      casualQueue := Rebuild(casualPlayers, player);
      rankedQueue := Rebuild(rankedPlayers, player);
      quickPlayQueue := Rebuild(quickPlayPlayers, player);
    }
  }
}
