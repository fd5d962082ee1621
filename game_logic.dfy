/**
 * The game rules of final_project/Gunslinger_Game/GameLogic.cs: the room
 * graph (an adjacency map from room names to neighbour lists), the player's
 * state, the effect of entering a room, and the turns of a fight. The
 * player's choice on each fight turn, read from the console in the source,
 * is a parameter: a fight consumes a given sequence of choices.
 */
module Gunslinger {
  import opened Wrappers
  import opened Text

  // ---------------------------------------------------------------------
  // Room graph
  // ---------------------------------------------------------------------

  type Adjacency = map<string, seq<string>>

  /** AddVertex on a value: an absent vertex gets an empty neighbour list. */
  function WithVertex(g: Adjacency, v: string): (r: Adjacency)
    ensures r.Keys == g.Keys + {v}
    ensures forall u :: u in g ==> r[u] == g[u]
    ensures v !in g ==> r[v] == []
  {
    if v in g then g else g[v := []]
  }

  /** AddEdge on a value: both ends become vertices and `to` is appended to `from`'s list. */
  function WithEdge(g: Adjacency, from: string, to: string): (r: Adjacency)
    ensures r.Keys == g.Keys + {from, to}
    ensures Neighbors(r, from) == Neighbors(g, from) + [to]
  {
    var h := WithVertex(WithVertex(g, from), to);
    h[from := h[from] + [to]]
  }

  /** GetNeighbors on a value: the stored list, or empty for an unknown vertex. */
  function Neighbors(g: Adjacency, v: string): seq<string> {
    if v in g then g[v] else []
  }

  /** Adding a vertex twice is adding it once. */
  lemma AddVertexIdempotent(g: Adjacency, v: string)
    ensures WithVertex(WithVertex(g, v), v) == WithVertex(g, v)
    ensures forall u :: Neighbors(WithVertex(g, v), u) == Neighbors(g, u)
  {
  }

  /** An edge leaves the neighbour list of every vertex other than `from` as it was. */
  lemma AddEdgeElsewhere(g: Adjacency, from: string, to: string, u: string)
    requires u != from
    ensures Neighbors(WithEdge(g, from, to), u) == Neighbors(g, u)
  {
  }

  /**
   * An edge adds `to` at the end of `from`'s neighbours and changes no
   * other neighbour list; duplicate edges and self-loops are kept, and a
   * new endpoint starts with no neighbours.
   */
  lemma AddEdgeNeighbors(g: Adjacency, from: string, to: string)
    ensures Neighbors(WithEdge(g, from, to), from) == Neighbors(g, from) + [to]
    ensures forall u :: u != from ==> Neighbors(WithEdge(g, from, to), u) == Neighbors(g, u)
    ensures to != from && to !in g ==> Neighbors(WithEdge(g, from, to), to) == []
  {
    forall u | u != from
      ensures Neighbors(WithEdge(g, from, to), u) == Neighbors(g, u)
    {
      AddEdgeElsewhere(g, from, to, u);
    }
  }

  class Graph {
    var adj: Adjacency

    constructor ()
      ensures adj == map[]
    {
      adj := map[];
    }

    method AddVertex(vertex: string)
      modifies this
      ensures adj == WithVertex(old(adj), vertex)
    {
      if vertex !in adj {
        adj := adj[vertex := []];
      }
    }

    method AddEdge(from: string, to: string)
      modifies this
      ensures adj == WithEdge(old(adj), from, to)
    {
      AddVertex(from);
      AddVertex(to);
      adj := adj[from := adj[from] + [to]];
    }

    /** GetNeighbors: reads the graph, never changes it. */
    function GetNeighbors(vertex: string): (r: seq<string>)
      reads this
      ensures vertex in adj ==> r == adj[vertex]
      ensures vertex !in adj ==> r == []
    {
      if vertex in adj then adj[vertex] else []
    }
  }

  /**
   * The graph after each AddEdge call of BuildPremadeGraph: `Built<k>` holds
   * the first k edges and `Premade` all eleven.
   */
  const Built1: Adjacency := WithEdge(map[], "Start", "Enemy1")
  const Built2: Adjacency := WithEdge(Built1, "Enemy1", "Heal1")
  const Built3: Adjacency := WithEdge(Built2, "Enemy1", "Ammo1")
  const Built4: Adjacency := WithEdge(Built3, "Enemy1", "Enemy2")
  const Built5: Adjacency := WithEdge(Built4, "Heal1", "Enemy3")
  const Built6: Adjacency := WithEdge(Built5, "Ammo1", "Enemy3")
  const Built7: Adjacency := WithEdge(Built6, "Enemy2", "Heal2")
  const Built8: Adjacency := WithEdge(Built7, "Enemy3", "Ammo2")
  const Built9: Adjacency := WithEdge(Built8, "Heal2", "Ammo2")
  const Built10: Adjacency := WithEdge(Built9, "Ammo2", "Boss1")
  const Premade: Adjacency := WithEdge(Built10, "Boss1", "Goal1")

  method BuildPremadeGraph() returns (g: Graph)
    ensures fresh(g)
    ensures g.adj == Premade && IsDrawnMap(g.adj)
  {
    PremadeAdjacency();
    g := new Graph();
    g.AddEdge("Start", "Enemy1");
    g.AddEdge("Enemy1", "Heal1");
    g.AddEdge("Enemy1", "Ammo1");
    g.AddEdge("Enemy1", "Enemy2");
    g.AddEdge("Heal1", "Enemy3");
    g.AddEdge("Ammo1", "Enemy3");
    g.AddEdge("Enemy2", "Heal2");
    g.AddEdge("Enemy3", "Ammo2");
    g.AddEdge("Heal2", "Ammo2");
    g.AddEdge("Ammo2", "Boss1");
    g.AddEdge("Boss1", "Goal1");
  }

  /** In the premade map Start leads to Enemy1. */
  lemma PremadeStart()
    ensures Neighbors(Premade, "Start") == ["Enemy1"]
  {
    AddEdgeElsewhere(Built1, "Enemy1", "Heal1", "Start");
    AddEdgeElsewhere(Built2, "Enemy1", "Ammo1", "Start");
    AddEdgeElsewhere(Built3, "Enemy1", "Enemy2", "Start");
    AddEdgeElsewhere(Built4, "Heal1", "Enemy3", "Start");
    AddEdgeElsewhere(Built5, "Ammo1", "Enemy3", "Start");
    AddEdgeElsewhere(Built6, "Enemy2", "Heal2", "Start");
    AddEdgeElsewhere(Built7, "Enemy3", "Ammo2", "Start");
    AddEdgeElsewhere(Built8, "Heal2", "Ammo2", "Start");
    AddEdgeElsewhere(Built9, "Ammo2", "Boss1", "Start");
    AddEdgeElsewhere(Built10, "Boss1", "Goal1", "Start");
  }

  /** In the premade map Enemy1 leads to Heal1, Ammo1, Enemy2. */
  lemma PremadeEnemy1()
    ensures Neighbors(Premade, "Enemy1") == ["Heal1", "Ammo1", "Enemy2"]
  {
    AddEdgeElsewhere(map[], "Start", "Enemy1", "Enemy1");
    assert Neighbors(Built2, "Enemy1") == ["Heal1"];
    assert Neighbors(Built3, "Enemy1") == ["Heal1", "Ammo1"];
    assert Neighbors(Built4, "Enemy1") == ["Heal1", "Ammo1", "Enemy2"];
    AddEdgeElsewhere(Built4, "Heal1", "Enemy3", "Enemy1");
    AddEdgeElsewhere(Built5, "Ammo1", "Enemy3", "Enemy1");
    AddEdgeElsewhere(Built6, "Enemy2", "Heal2", "Enemy1");
    AddEdgeElsewhere(Built7, "Enemy3", "Ammo2", "Enemy1");
    AddEdgeElsewhere(Built8, "Heal2", "Ammo2", "Enemy1");
    AddEdgeElsewhere(Built9, "Ammo2", "Boss1", "Enemy1");
    AddEdgeElsewhere(Built10, "Boss1", "Goal1", "Enemy1");
  }

  /** In the premade map Heal1 leads to Enemy3. */
  lemma PremadeHeal1()
    ensures Neighbors(Premade, "Heal1") == ["Enemy3"]
  {
    AddEdgeElsewhere(map[], "Start", "Enemy1", "Heal1");
    AddEdgeElsewhere(Built1, "Enemy1", "Heal1", "Heal1");
    AddEdgeElsewhere(Built2, "Enemy1", "Ammo1", "Heal1");
    AddEdgeElsewhere(Built3, "Enemy1", "Enemy2", "Heal1");
    AddEdgeElsewhere(Built5, "Ammo1", "Enemy3", "Heal1");
    AddEdgeElsewhere(Built6, "Enemy2", "Heal2", "Heal1");
    AddEdgeElsewhere(Built7, "Enemy3", "Ammo2", "Heal1");
    AddEdgeElsewhere(Built8, "Heal2", "Ammo2", "Heal1");
    AddEdgeElsewhere(Built9, "Ammo2", "Boss1", "Heal1");
    AddEdgeElsewhere(Built10, "Boss1", "Goal1", "Heal1");
  }

  /** In the premade map Ammo1 leads to Enemy3. */
  lemma PremadeAmmo1()
    ensures Neighbors(Premade, "Ammo1") == ["Enemy3"]
  {
    AddEdgeElsewhere(map[], "Start", "Enemy1", "Ammo1");
    AddEdgeElsewhere(Built1, "Enemy1", "Heal1", "Ammo1");
    AddEdgeElsewhere(Built2, "Enemy1", "Ammo1", "Ammo1");
    AddEdgeElsewhere(Built3, "Enemy1", "Enemy2", "Ammo1");
    AddEdgeElsewhere(Built4, "Heal1", "Enemy3", "Ammo1");
    AddEdgeElsewhere(Built6, "Enemy2", "Heal2", "Ammo1");
    AddEdgeElsewhere(Built7, "Enemy3", "Ammo2", "Ammo1");
    AddEdgeElsewhere(Built8, "Heal2", "Ammo2", "Ammo1");
    AddEdgeElsewhere(Built9, "Ammo2", "Boss1", "Ammo1");
    AddEdgeElsewhere(Built10, "Boss1", "Goal1", "Ammo1");
  }

  /** In the premade map Enemy2 leads to Heal2. */
  lemma PremadeEnemy2()
    ensures Neighbors(Premade, "Enemy2") == ["Heal2"]
  {
    AddEdgeElsewhere(map[], "Start", "Enemy1", "Enemy2");
    AddEdgeElsewhere(Built1, "Enemy1", "Heal1", "Enemy2");
    AddEdgeElsewhere(Built2, "Enemy1", "Ammo1", "Enemy2");
    AddEdgeElsewhere(Built3, "Enemy1", "Enemy2", "Enemy2");
    AddEdgeElsewhere(Built4, "Heal1", "Enemy3", "Enemy2");
    AddEdgeElsewhere(Built5, "Ammo1", "Enemy3", "Enemy2");
    AddEdgeElsewhere(Built7, "Enemy3", "Ammo2", "Enemy2");
    AddEdgeElsewhere(Built8, "Heal2", "Ammo2", "Enemy2");
    AddEdgeElsewhere(Built9, "Ammo2", "Boss1", "Enemy2");
    AddEdgeElsewhere(Built10, "Boss1", "Goal1", "Enemy2");
  }

  /** In the premade map Enemy3 leads to Ammo2. */
  lemma PremadeEnemy3()
    ensures Neighbors(Premade, "Enemy3") == ["Ammo2"]
  {
    AddEdgeElsewhere(map[], "Start", "Enemy1", "Enemy3");
    AddEdgeElsewhere(Built1, "Enemy1", "Heal1", "Enemy3");
    AddEdgeElsewhere(Built2, "Enemy1", "Ammo1", "Enemy3");
    AddEdgeElsewhere(Built3, "Enemy1", "Enemy2", "Enemy3");
    AddEdgeElsewhere(Built4, "Heal1", "Enemy3", "Enemy3");
    AddEdgeElsewhere(Built5, "Ammo1", "Enemy3", "Enemy3");
    AddEdgeElsewhere(Built6, "Enemy2", "Heal2", "Enemy3");
    AddEdgeElsewhere(Built8, "Heal2", "Ammo2", "Enemy3");
    AddEdgeElsewhere(Built9, "Ammo2", "Boss1", "Enemy3");
    AddEdgeElsewhere(Built10, "Boss1", "Goal1", "Enemy3");
  }

  /** In the premade map Heal2 leads to Ammo2. */
  lemma PremadeHeal2()
    ensures Neighbors(Premade, "Heal2") == ["Ammo2"]
  {
    AddEdgeElsewhere(map[], "Start", "Enemy1", "Heal2");
    AddEdgeElsewhere(Built1, "Enemy1", "Heal1", "Heal2");
    AddEdgeElsewhere(Built2, "Enemy1", "Ammo1", "Heal2");
    AddEdgeElsewhere(Built3, "Enemy1", "Enemy2", "Heal2");
    AddEdgeElsewhere(Built4, "Heal1", "Enemy3", "Heal2");
    AddEdgeElsewhere(Built5, "Ammo1", "Enemy3", "Heal2");
    AddEdgeElsewhere(Built6, "Enemy2", "Heal2", "Heal2");
    AddEdgeElsewhere(Built7, "Enemy3", "Ammo2", "Heal2");
    AddEdgeElsewhere(Built9, "Ammo2", "Boss1", "Heal2");
    AddEdgeElsewhere(Built10, "Boss1", "Goal1", "Heal2");
  }

  /** In the premade map Ammo2 leads to Boss1. */
  lemma PremadeAmmo2()
    ensures Neighbors(Premade, "Ammo2") == ["Boss1"]
  {
    AddEdgeElsewhere(map[], "Start", "Enemy1", "Ammo2");
    AddEdgeElsewhere(Built1, "Enemy1", "Heal1", "Ammo2");
    AddEdgeElsewhere(Built2, "Enemy1", "Ammo1", "Ammo2");
    AddEdgeElsewhere(Built3, "Enemy1", "Enemy2", "Ammo2");
    AddEdgeElsewhere(Built4, "Heal1", "Enemy3", "Ammo2");
    AddEdgeElsewhere(Built5, "Ammo1", "Enemy3", "Ammo2");
    AddEdgeElsewhere(Built6, "Enemy2", "Heal2", "Ammo2");
    AddEdgeElsewhere(Built7, "Enemy3", "Ammo2", "Ammo2");
    AddEdgeElsewhere(Built8, "Heal2", "Ammo2", "Ammo2");
    AddEdgeElsewhere(Built10, "Boss1", "Goal1", "Ammo2");
  }

  /** In the premade map Boss1 leads to Goal1. */
  lemma PremadeBoss1()
    ensures Neighbors(Premade, "Boss1") == ["Goal1"]
  {
    AddEdgeElsewhere(map[], "Start", "Enemy1", "Boss1");
    AddEdgeElsewhere(Built1, "Enemy1", "Heal1", "Boss1");
    AddEdgeElsewhere(Built2, "Enemy1", "Ammo1", "Boss1");
    AddEdgeElsewhere(Built3, "Enemy1", "Enemy2", "Boss1");
    AddEdgeElsewhere(Built4, "Heal1", "Enemy3", "Boss1");
    AddEdgeElsewhere(Built5, "Ammo1", "Enemy3", "Boss1");
    AddEdgeElsewhere(Built6, "Enemy2", "Heal2", "Boss1");
    AddEdgeElsewhere(Built7, "Enemy3", "Ammo2", "Boss1");
    AddEdgeElsewhere(Built8, "Heal2", "Ammo2", "Boss1");
    AddEdgeElsewhere(Built9, "Ammo2", "Boss1", "Boss1");
  }

  /** In the premade map Goal1 is a dead end. */
  lemma PremadeGoal1()
    ensures Neighbors(Premade, "Goal1") == []
  {
    AddEdgeElsewhere(map[], "Start", "Enemy1", "Goal1");
    AddEdgeElsewhere(Built1, "Enemy1", "Heal1", "Goal1");
    AddEdgeElsewhere(Built2, "Enemy1", "Ammo1", "Goal1");
    AddEdgeElsewhere(Built3, "Enemy1", "Enemy2", "Goal1");
    AddEdgeElsewhere(Built4, "Heal1", "Enemy3", "Goal1");
    AddEdgeElsewhere(Built5, "Ammo1", "Enemy3", "Goal1");
    AddEdgeElsewhere(Built6, "Enemy2", "Heal2", "Goal1");
    AddEdgeElsewhere(Built7, "Enemy3", "Ammo2", "Goal1");
    AddEdgeElsewhere(Built8, "Heal2", "Ammo2", "Goal1");
    AddEdgeElsewhere(Built9, "Ammo2", "Boss1", "Goal1");
    AddEdgeElsewhere(Built10, "Boss1", "Goal1", "Goal1");
  }

  /** A graph whose neighbour lists are the ones drawn for the premade map. */
  predicate IsDrawnMap(g: Adjacency) {
       Neighbors(g, "Start") == ["Enemy1"]
    && Neighbors(g, "Enemy1") == ["Heal1", "Ammo1", "Enemy2"]
    && Neighbors(g, "Heal1") == ["Enemy3"]
    && Neighbors(g, "Ammo1") == ["Enemy3"]
    && Neighbors(g, "Enemy2") == ["Heal2"]
    && Neighbors(g, "Enemy3") == ["Ammo2"]
    && Neighbors(g, "Heal2") == ["Ammo2"]
    && Neighbors(g, "Ammo2") == ["Boss1"]
    && Neighbors(g, "Boss1") == ["Goal1"]
    && Neighbors(g, "Goal1") == []
  }

  /** The premade map is the adjacency drawn in the source's comment; Goal1 is a dead end. */
  lemma PremadeAdjacency()
    ensures IsDrawnMap(Premade)
  {
    PremadeStart();
    PremadeEnemy1();
    PremadeHeal1();
    PremadeAmmo1();
    PremadeEnemy2();
    PremadeEnemy3();
    PremadeHeal2();
    PremadeAmmo2();
    PremadeBoss1();
    PremadeGoal1();
  }

  /** Consecutive rooms of `p` are joined by edges of `g`. */
  predicate IsPath(g: Adjacency, p: seq<string>) {
    forall i :: 0 <= i < |p| - 1 ==> p[i + 1] in Neighbors(g, p[i])
  }

  /** In the drawn map the route through Heal1 leads from Start through Boss1 to Goal1. */
  lemma RouteViaHeal1(g: Adjacency)
    requires IsDrawnMap(g)
    ensures IsPath(g, ["Start", "Enemy1", "Heal1", "Enemy3", "Ammo2", "Boss1", "Goal1"])
  {
    var p := ["Start", "Enemy1", "Heal1", "Enemy3", "Ammo2", "Boss1", "Goal1"];
    assert p[0] == "Start" && p[1] == "Enemy1" && p[2] == "Heal1" && p[3] == "Enemy3" && p[4] == "Ammo2" && p[5] == "Boss1" && p[6] == "Goal1";
  }

  /** In the drawn map the route through Ammo1 leads from Start through Boss1 to Goal1. */
  lemma RouteViaAmmo1(g: Adjacency)
    requires IsDrawnMap(g)
    ensures IsPath(g, ["Start", "Enemy1", "Ammo1", "Enemy3", "Ammo2", "Boss1", "Goal1"])
  {
    var p := ["Start", "Enemy1", "Ammo1", "Enemy3", "Ammo2", "Boss1", "Goal1"];
    assert p[0] == "Start" && p[1] == "Enemy1" && p[2] == "Ammo1" && p[3] == "Enemy3" && p[4] == "Ammo2" && p[5] == "Boss1" && p[6] == "Goal1";
  }

  /** In the drawn map the route through Enemy2 leads from Start through Boss1 to Goal1. */
  lemma RouteViaEnemy2(g: Adjacency)
    requires IsDrawnMap(g)
    ensures IsPath(g, ["Start", "Enemy1", "Enemy2", "Heal2", "Ammo2", "Boss1", "Goal1"])
  {
    var p := ["Start", "Enemy1", "Enemy2", "Heal2", "Ammo2", "Boss1", "Goal1"];
    assert p[0] == "Start" && p[1] == "Enemy1" && p[2] == "Enemy2" && p[3] == "Heal2" && p[4] == "Ammo2" && p[5] == "Boss1" && p[6] == "Goal1";
  }

  /** All three routes of the premade map lead from Start through Boss1 to Goal1. */
  lemma PremadeRoutes()
    ensures IsPath(Premade, ["Start", "Enemy1", "Heal1", "Enemy3", "Ammo2", "Boss1", "Goal1"])
    ensures IsPath(Premade, ["Start", "Enemy1", "Ammo1", "Enemy3", "Ammo2", "Boss1", "Goal1"])
    ensures IsPath(Premade, ["Start", "Enemy1", "Enemy2", "Heal2", "Ammo2", "Boss1", "Goal1"])
  {
    PremadeAdjacency();
    RouteViaHeal1(Premade);
    RouteViaAmmo1(Premade);
    RouteViaEnemy2(Premade);
  }

  // ---------------------------------------------------------------------
  // Player and bullets
  // ---------------------------------------------------------------------

  datatype BulletType = Normal | Heavy

  datatype Bullet = Bullet(kind: BulletType, damage: int)

  /** The chamber a PlayerState starts with. */
  const InitialChamber: seq<Bullet> := [
    Bullet(Normal, 2), Bullet(Normal, 2), Bullet(Normal, 2),
    Bullet(Normal, 2), Bullet(Normal, 3), Bullet(Normal, 2)
  ]

  /** Total damage of the bullets, front first. */
  function SumDamage(s: seq<Bullet>): int {
    if s == [] then 0 else s[0].damage + SumDamage(s[1..])
  }

  lemma {:induction false} SumDamageAppend(a: seq<Bullet>, b: seq<Bullet>)
    ensures SumDamage(a + b) == SumDamage(a) + SumDamage(b)
  {
    if a == [] {
      assert a + b == b;
    } else {
      assert (a + b)[1..] == a[1..] + b;
      SumDamageAppend(a[1..], b);
    }
  }

  class PlayerState {
    var hp: int
    var chamber: seq<Bullet>
    var currentRoom: string

    constructor ()
      ensures hp == 12 && chamber == InitialChamber && currentRoom == "Start"
    {
      hp := 12;
      chamber := InitialChamber;
      currentRoom := "Start";
    }

    predicate IsAlive()
      reads this
    {
      hp > 0
    }
  }

  /** CreateNewPlayer: 12 HP in room Start, with the six initial bullets and one Normal(2) behind them. */
  method CreateNewPlayer() returns (player: PlayerState)
    ensures fresh(player)
    ensures player.hp == 12 && player.currentRoom == "Start"
    ensures player.chamber == InitialChamber + [Bullet(Normal, 2)]
    ensures |player.chamber| == 7
  {
    player := new PlayerState();
    player.chamber := player.chamber + [Bullet(Normal, 2)];
  }

  // ---------------------------------------------------------------------
  // Fights
  // ---------------------------------------------------------------------

  /** What a fight changes: the player's HP, the chamber and the enemy's HP. */
  datatype Battle = Battle(hp: int, chamber: seq<Bullet>, enemyHP: int)

  /**
   * The player's action for `choice`: "1" fires the front bullet, "2" loads
   * two Normal(2) at the back, "3" fires the whole chamber; with an empty
   * chamber "1" and "3" do nothing. The flag is false for any other choice.
   */
  function PlayerAction(b: Battle, choice: string): (r: (Battle, bool))
    ensures r.0.hp == b.hp
    ensures r.1 <==> choice == "1" || choice == "2" || choice == "3"
    ensures choice == "1" && b.chamber != [] ==>
      r.0.chamber == b.chamber[1..] && r.0.enemyHP == b.enemyHP - b.chamber[0].damage
    ensures choice == "2" ==> r.0.chamber == b.chamber + [Bullet(Normal, 2), Bullet(Normal, 2)] && r.0.enemyHP == b.enemyHP
    ensures choice == "3" ==> r.0.chamber == [] && r.0.enemyHP == b.enemyHP - SumDamage(b.chamber)
    ensures (choice == "1" || choice == "3") ==>
      SumDamage(r.0.chamber) + (b.enemyHP - r.0.enemyHP) == SumDamage(b.chamber)
    ensures !r.1 || (b.chamber == [] && choice != "2") ==> r.0 == b
  {
    if choice == "1" then
      if b.chamber == [] then (b, true)
      else (Battle(b.hp, b.chamber[1..], b.enemyHP - b.chamber[0].damage), true)
    else if choice == "2" then
      (Battle(b.hp, b.chamber + [Bullet(Normal, 2), Bullet(Normal, 2)], b.enemyHP), true)
    else if choice == "3" then
      if b.chamber == [] then (b, true)
      else (Battle(b.hp, [], b.enemyHP - SumDamage(b.chamber)), true)
    else (b, false)
  }

  /**
   * One turn: the player acts; an invalid choice ends the turn there; the
   * enemy hits back only while its HP is still positive.
   */
  function Turn(b: Battle, enemyDamage: int, choice: string): (r: Battle)
    ensures r.chamber == PlayerAction(b, choice).0.chamber
    ensures r.enemyHP == PlayerAction(b, choice).0.enemyHP
    ensures r.hp == if PlayerAction(b, choice).1 && r.enemyHP > 0 then b.hp - enemyDamage else b.hp
  {
    var (after, valid) := PlayerAction(b, choice);
    if !valid || after.enemyHP <= 0 then after
    else Battle(after.hp - enemyDamage, after.chamber, after.enemyHP)
  }

  /** The fight loop: turns are played while both sides stand and choices remain. */
  function Fight(b: Battle, enemyDamage: int, choices: seq<string>): (r: Battle)
    ensures b.enemyHP <= 0 || b.hp <= 0 ==> r == b
    decreases |choices|
  {
    if b.enemyHP <= 0 || b.hp <= 0 || choices == [] then b
    else Fight(Turn(b, enemyDamage, choices[0]), enemyDamage, choices[1..])
  }

  /** A fight against a non-negative hitter never raises the player's HP. */
  lemma {:induction false} FightNeverHeals(b: Battle, enemyDamage: int, choices: seq<string>)
    requires enemyDamage >= 0
    ensures Fight(b, enemyDamage, choices).hp <= b.hp
    decreases |choices|
  {
    if !(b.enemyHP <= 0 || b.hp <= 0 || choices == []) {
      FightNeverHeals(Turn(b, enemyDamage, choices[0]), enemyDamage, choices[1..]);
    }
  }

  /** Once one side is down the loop stops: later input is never read. */
  lemma {:induction false} FightIgnoresLaterInput(b: Battle, enemyDamage: int, choices: seq<string>, more: seq<string>)
    requires Fight(b, enemyDamage, choices).enemyHP <= 0 || Fight(b, enemyDamage, choices).hp <= 0
    ensures Fight(b, enemyDamage, choices + more) == Fight(b, enemyDamage, choices)
    decreases |choices|
  {
    if !(b.enemyHP <= 0 || b.hp <= 0) {
      assert choices != [];
      assert (choices + more)[1..] == choices[1..] + more;
      FightIgnoresLaterInput(Turn(b, enemyDamage, choices[0]), enemyDamage, choices[1..], more);
    }
  }

  /** The message of a finished fight; None when the choices ran out first. */
  function FightMessage(r: Battle, isBoss: bool): Option<string> {
    if r.enemyHP <= 0 then Some(if isBoss then "You defeated the boss!" else "You defeated the enemy!")
    else if r.hp <= 0 then Some("You were defeated.")
    else None
  }

  const BossHP := 23
  const BossDamage := 3
  const EnemyHP := 5
  const EnemyDamage := 2

  /** Rapid fire: empties the chamber, front first, and returns the total damage. */
  method RapidFire(player: PlayerState) returns (totalDamage: int)
    modifies player
    ensures player.chamber == [] && totalDamage == SumDamage(old(player.chamber))
    ensures player.hp == old(player.hp) && player.currentRoom == old(player.currentRoom)
  {
    totalDamage := 0;
    while |player.chamber| > 0
      invariant totalDamage + SumDamage(player.chamber) == SumDamage(old(player.chamber))
      invariant player.hp == old(player.hp) && player.currentRoom == old(player.currentRoom)
      decreases |player.chamber|
    {
      var bullet := player.chamber[0];
      player.chamber := player.chamber[1..];
      totalDamage := totalDamage + bullet.damage;
    }
  }

  /** One turn of RunFight on the player object; returns the enemy's new HP. */
  method PlayTurn(player: PlayerState, enemyHP: int, enemyDamage: int, choice: string) returns (newEnemyHP: int)
    modifies player
    ensures Battle(player.hp, player.chamber, newEnemyHP)
         == Turn(Battle(old(player.hp), old(player.chamber), enemyHP), enemyDamage, choice)
    ensures player.currentRoom == old(player.currentRoom)
  {
    newEnemyHP := enemyHP;
    if choice == "1" {
      if |player.chamber| > 0 {
        var bullet := player.chamber[0];
        player.chamber := player.chamber[1..];
        newEnemyHP := newEnemyHP - bullet.damage;
      }
    } else if choice == "2" {
      player.chamber := player.chamber + [Bullet(Normal, 2)];
      player.chamber := player.chamber + [Bullet(Normal, 2)];
    } else if choice == "3" {
      if |player.chamber| > 0 {
        var totalDamage := RapidFire(player);
        newEnemyHP := newEnemyHP - totalDamage;
      }
    } else {
      return;
    }
    if newEnemyHP <= 0 {
      return;
    }
    player.hp := player.hp - enemyDamage;
  }

  /**
   * RunFight: a normal enemy has 5 HP and hits for 2, a boss 23 and 3; turns
   * follow the choices until one side is down.
   */
  method RunFight(player: PlayerState, isBoss: bool, choices: seq<string>) returns (message: Option<string>)
    modifies player
    ensures var r := Fight(Battle(old(player.hp), old(player.chamber), if isBoss then BossHP else EnemyHP),
                           if isBoss then BossDamage else EnemyDamage, choices);
      player.hp == r.hp && player.chamber == r.chamber && message == FightMessage(r, isBoss)
    ensures player.currentRoom == old(player.currentRoom)
  {
    var enemyHP := if isBoss then BossHP else EnemyHP;
    var enemyDamage := if isBoss then BossDamage else EnemyDamage;
    ghost var start := Battle(player.hp, player.chamber, enemyHP);
    var i := 0;
    while enemyHP > 0 && player.IsAlive() && i < |choices|
      invariant 0 <= i <= |choices|
      invariant Fight(Battle(player.hp, player.chamber, enemyHP), enemyDamage, choices[i..])
             == Fight(start, enemyDamage, choices)
      invariant player.currentRoom == old(player.currentRoom)
      decreases |choices| - i
    {
      assert choices[i..][1..] == choices[i + 1..];
      enemyHP := PlayTurn(player, enemyHP, enemyDamage, choices[i]);
      i := i + 1;
    }
    var final := Battle(player.hp, player.chamber, enemyHP);
    assert Fight(final, enemyDamage, choices[i..]) == final;
    message := FightMessage(final, isBoss);
  }

  /**
   * EnterRoom: the room becomes current; then an exact "Start" does nothing,
   * and the prefixes Heal (+5 HP), Ammo (two Heavy(4) at the back), Enemy
   * and Boss (a fight), Goal are tried in that order.
   */
  method EnterRoom(player: PlayerState, roomName: string, choices: seq<string>) returns (message: Option<string>)
    modifies player
    ensures player.currentRoom == roomName
    ensures roomName == "Start" ==>
      player.hp == old(player.hp) && player.chamber == old(player.chamber) && message == Some("You are at the start.")
    ensures roomName != "Start" && StartsWith(roomName, "Heal") ==>
      player.hp == old(player.hp) + 5 && player.chamber == old(player.chamber) && message == Some("You healed +5 HP.")
    ensures roomName != "Start" && !StartsWith(roomName, "Heal") && StartsWith(roomName, "Ammo") ==>
      player.hp == old(player.hp) && player.chamber == old(player.chamber) + [Bullet(Heavy, 4), Bullet(Heavy, 4)]
      && message == Some("You found ammo: +2 Heavy bullets(4 damage ea).")
    ensures roomName != "Start" && !StartsWith(roomName, "Heal") && !StartsWith(roomName, "Ammo")
            && (StartsWith(roomName, "Enemy") || StartsWith(roomName, "Boss")) ==>
      var isBoss := !StartsWith(roomName, "Enemy");
      var r := Fight(Battle(old(player.hp), old(player.chamber), if isBoss then BossHP else EnemyHP),
                     if isBoss then BossDamage else EnemyDamage, choices);
      player.hp == r.hp && player.chamber == r.chamber && message == FightMessage(r, isBoss)
    ensures roomName != "Start" && !StartsWith(roomName, "Heal") && !StartsWith(roomName, "Ammo")
            && !StartsWith(roomName, "Enemy") && !StartsWith(roomName, "Boss") ==>
      player.hp == old(player.hp) && player.chamber == old(player.chamber)
      && message == Some(if StartsWith(roomName, "Goal") then "You reached the goal! You win!" else "Nothing happens.")
  {
    player.currentRoom := roomName;
    if roomName == "Start" {
      return Some("You are at the start.");
    }
    if StartsWith(roomName, "Heal") {
      player.hp := player.hp + 5;
      return Some("You healed +5 HP.");
    }
    if StartsWith(roomName, "Ammo") {
      player.chamber := player.chamber + [Bullet(Heavy, 4)];
      player.chamber := player.chamber + [Bullet(Heavy, 4)];
      return Some("You found ammo: +2 Heavy bullets(4 damage ea).");
    }
    if StartsWith(roomName, "Enemy") {
      message := RunFight(player, false, choices);
      return;
    }
    if StartsWith(roomName, "Boss") {
      message := RunFight(player, true, choices);
      return;
    }
    if StartsWith(roomName, "Goal") {
      return Some("You reached the goal! You win!");
    }
    return Some("Nothing happens.");
  }
}
