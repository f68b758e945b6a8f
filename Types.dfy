/** The application's records: the match-side players, teams, events and
    match state, and the line-up records the scraper returns. */
module Types {

  datatype Option<T> = None | Some(value: T)

  datatype Player = Player(id: string, name: string, number: int, position: Option<string>)

  datatype Team = Team(id: string, name: string, players: seq<Player>)

  datatype EventType = Goal | YellowCard | RedCard | Substitution | Corner | Shot

  datatype MatchEvent = MatchEvent(
    id: string,
    eventType: EventType,
    timestamp: int,
    playerId: string,
    teamId: string,
    secondPlayerId: Option<string>,
    description: Option<string>)

  /** `currentHalf` is declared `1 | 2`; the model keeps it an `int` and states
      that range as the predicate `ValidHalf`, which every action preserves. */
  datatype MatchState = MatchState(
    homeTeam: Option<Team>,
    awayTeam: Option<Team>,
    events: seq<MatchEvent>,
    isPlaying: bool,
    startTime: Option<int>,
    elapsedTime: int,
    currentHalf: int)

  predicate ValidHalf(s: MatchState) {
    s.currentHalf == 1 || s.currentHalf == 2
  }

  datatype LineupPlayer = LineupPlayer(id: string, name: string, number: int, position: Option<string>, isStarter: bool)

  datatype LineupTeamData = LineupTeamData(name: string, players: seq<LineupPlayer>)

  datatype ScrapedLineupData = ScrapedLineupData(homeTeam: LineupTeamData, awayTeam: LineupTeamData)

  /** The player a `Map` keyed by id holds after `set(p.id, p)` for every
      player of `ps` in order: the last player with that id. */
  function PlayerIndex(ps: seq<Player>): (m: map<string, Player>)
    ensures forall id :: id in m ==> m[id].id == id
  {
    if ps == [] then map[] else PlayerIndex(ps[..|ps| - 1])[ps[|ps| - 1].id := ps[|ps| - 1]]
  }

  /** An id is a key of the index exactly when some player carries it, and it
      maps to the last such player. */
  lemma {:induction false} PlayerIndexSpec(ps: seq<Player>, id: string)
    ensures id in PlayerIndex(ps) <==> exists k :: 0 <= k < |ps| && ps[k].id == id
    ensures id in PlayerIndex(ps) ==>
      exists k :: 0 <= k < |ps| && PlayerIndex(ps)[id] == ps[k] &&
        forall j :: k < j < |ps| ==> ps[j].id != id
    decreases |ps|
  {
    if ps != [] {
      var init := ps[..|ps| - 1];
      PlayerIndexSpec(init, id);
      if ps[|ps| - 1].id != id && id in PlayerIndex(ps) {
        var k :| 0 <= k < |init| && PlayerIndex(init)[id] == init[k] &&
          forall j :: k < j < |init| ==> init[j].id != id;
        assert PlayerIndex(ps)[id] == ps[k];
      }
      if exists k :: 0 <= k < |ps| && ps[k].id == id {
        var k :| 0 <= k < |ps| && ps[k].id == id;
        if k < |init| { assert init[k].id == id; }
      }
    }
  }

  /** Indexing `a` then `b` lets every player of `b` win over `a`. */
  lemma {:induction false} PlayerIndexLaterWins(a: seq<Player>, b: seq<Player>, p: Player)
    requires p in b
    requires forall j :: 0 <= j < |b| && b[j].id == p.id ==> b[j] == p
    ensures p.id in PlayerIndex(a + b) && PlayerIndex(a + b)[p.id] == p
  {
    PlayerIndexSpec(a + b, p.id);
    var i :| 0 <= i < |b| && b[i] == p;
    assert (a + b)[|a| + i].id == p.id;
    var k :| 0 <= k < |a + b| && PlayerIndex(a + b)[p.id] == (a + b)[k] &&
      forall j :: k < j < |a + b| ==> (a + b)[j].id != p.id;
    assert k >= |a| + i;
    assert (a + b)[k] == b[k - |a|];
  }
}
